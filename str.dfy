/**
 * Byte strings and number formatting (src/common/str.c).
 *
 * Characters stand for bytes. A `String` is a class over a sequence with a
 * capacity, because the C functions update length, capacity and data in
 * place; views (`StringView`) are plain sequences.
 */
module Str {
  import opened Wrappers

  const U64_LIMIT: nat := 0x1_0000_0000_0000_0000
  const I64_HALF: nat := 0x8000_0000_0000_0000
  const U32_LIMIT: nat := 0x1_0000_0000

  /** A growable string: `data` is the live prefix, `capacity` the allocation. */
  class String {
    var data: seq<char>
    var capacity: nat

    ghost predicate Valid()
      reads this
    {
      |data| <= capacity
    }

    /** mk_str_cap. */
    constructor WithCapacity(cap: nat)
      ensures Valid() && data == [] && capacity == cap
    {
      data := [];
      capacity := cap;
    }

    /** str_reserve: grows the allocation to exactly `minCap` when it is smaller. */
    method Reserve(minCap: nat)
      requires Valid()
      modifies this
      ensures Valid() && data == old(data)
      ensures capacity == if old(capacity) >= minCap then old(capacity) else minCap
    {
      if capacity >= minCap {
        return;
      }
      capacity := minCap;
    }

    /** str_append: one byte at the end. */
    method Append(c: char)
      requires Valid()
      modifies this
      ensures Valid() && data == old(data) + [c]
      ensures capacity == if old(capacity) > |old(data)| then old(capacity) else |old(data)| + 1
    {
      Reserve(|data| + 1);
      data := data + [c];
    }

    /** str_pop: drops the last byte; an empty string is left alone. */
    method Pop()
      requires Valid()
      modifies this
      ensures Valid() && capacity == old(capacity)
      ensures data == if old(data) == [] then [] else old(data)[..|old(data)| - 1]
    {
      if |data| == 0 {
        return;
      }
      data := data[..|data| - 1];
    }

    /** str_cat_sv: the view's bytes at the end. */
    method CatSv(that: seq<char>)
      requires Valid()
      modifies this
      ensures Valid() && data == old(data) + that
      ensures capacity == if old(capacity) >= |old(data)| + |that| then old(capacity) else |old(data)| + |that|
    {
      Reserve(|data| + |that|);
      data := data + that;
    }

    /** str_free: empty, with no allocation. */
    method Free()
      modifies this
      ensures Valid() && data == [] && capacity == 0
    {
      data := [];
      capacity := 0;
    }
  }

  /** Appending a byte and popping it restores the contents. */
  method AppendThenPop(s: String, c: char)
    requires s.Valid()
    modifies s
    ensures s.Valid() && s.data == old(s.data)
  {
    s.Append(c);
    s.Pop();
  }

  /** sv_slice: the window [start, end) of a view. */
  function SvSlice(s: seq<char>, start: nat, end: nat): (r: seq<char>)
    requires start <= end <= |s|
    ensures |r| == end - start
    ensures forall k :: 0 <= k < |r| ==> r[k] == s[start + k]
  {
    s[start..end]
  }

  /** Cutting a view at two points and joining the three parts gives it back. */
  lemma SliceJoin(s: seq<char>, start: nat, end: nat)
    requires start <= end <= |s|
    ensures SvSlice(s, 0, start) + SvSlice(s, start, end) + SvSlice(s, end, |s|) == s
  {
  }

  // ---------------------------------------------------------------- comparison

  /** The ordering sv_cmp computes: first differing byte, then length. */
  function Compare(a: seq<char>, b: seq<char>): int
  {
    if |a| == 0 || |b| == 0 then |a| - |b|
    else if a[0] != b[0] then (a[0] as int) - (b[0] as int)
    else Compare(a[1..], b[1..])
  }

  /** sv_cmp. */
  method SvCmp(a: seq<char>, b: seq<char>) returns (r: int)
    ensures r == Compare(a, b)
    ensures r == 0 <==> a == b
  {
    if |a| == 0 && |b| == 0 {
      return 0;
    }
    var i := 0;
    while i < |a| && i < |b|
      invariant 0 <= i <= |a| && 0 <= i <= |b|
      invariant a[..i] == b[..i]
      invariant Compare(a, b) == Compare(a[i..], b[i..])
    {
      if a[i] != b[i] {
        return (a[i] as int) - (b[i] as int);
      }
      assert a[i..][1..] == a[i + 1..] && b[i..][1..] == b[i + 1..];
      i := i + 1;
    }
    CompareZeroIffEqual(a, b);
    return |a| - |b|;
  }

  /** sv_cmp is zero exactly on equal views. */
  lemma {:induction false} CompareZeroIffEqual(a: seq<char>, b: seq<char>)
    ensures Compare(a, b) == 0 <==> a == b
  {
    if |a| != 0 && |b| != 0 && a[0] == b[0] {
      CompareZeroIffEqual(a[1..], b[1..]);
      if a[1..] == b[1..] {
        assert a == [a[0]] + a[1..] && b == [b[0]] + b[1..];
      }
    }
  }

  /** Swapping the operands negates the comparison. */
  lemma {:induction false} CompareAntisymmetric(a: seq<char>, b: seq<char>)
    ensures Compare(b, a) == -Compare(a, b)
  {
    if |a| != 0 && |b| != 0 && a[0] == b[0] {
      CompareAntisymmetric(a[1..], b[1..]);
    }
  }

  /** A proper prefix compares below the longer view. */
  lemma {:induction false} PrefixComparesLess(a: seq<char>, rest: seq<char>)
    requires |rest| > 0
    ensures Compare(a, a + rest) < 0
  {
    if |a| != 0 {
      assert (a + rest)[1..] == a[1..] + rest;
      PrefixComparesLess(a[1..], rest);
    }
  }

  // ------------------------------------------------------------------- tabs

  /** Each tab becomes `tabSize` spaces; every other byte is copied. */
  function ExpandTabs(s: seq<char>, tabSize: nat): seq<char>
  {
    if s == [] then []
    else (if s[0] == '\t' then Repeat(' ', tabSize) else [s[0]]) + ExpandTabs(s[1..], tabSize)
  }

  /** n copies of c. */
  function Repeat(c: char, n: nat): (r: seq<char>)
    ensures |r| == n && forall k :: 0 <= k < n ==> r[k] == c
  {
    if n == 0 then [] else Repeat(c, n - 1) + [c]
  }

  /** The `for` loops that append n copies of one byte. */
  method AppendCopies(out: String, c: char, n: nat)
    requires out.Valid()
    modifies out
    ensures out.Valid() && out.data == old(out.data) + Repeat(c, n)
  {
    var j := 0;
    while j < n
      invariant 0 <= j <= n && out.Valid()
      invariant out.data == old(out.data) + Repeat(c, j)
    {
      out.Append(c);
      j := j + 1;
    }
  }

  /** str_expand_tabs. */
  method StrExpandTabs(s: seq<char>, tabSize: nat) returns (r: seq<char>)
    ensures r == ExpandTabs(s, tabSize)
  {
    var out := new String.WithCapacity(|s|);
    var i := 0;
    while i < |s|
      invariant 0 <= i <= |s| && out.Valid()
      invariant out.data == ExpandTabs(s[..i], tabSize)
    {
      assert s[..i + 1] == s[..i] + [s[i]];
      ExpandTabsAppend(s[..i], [s[i]], tabSize);
      if s[i] == '\t' {
        AppendCopies(out, ' ', tabSize);
      } else {
        out.Append(s[i]);
      }
      i := i + 1;
    }
    assert s[..|s|] == s;
    return out.data;
  }

  /** Expansion distributes over concatenation. */
  lemma {:induction false} ExpandTabsAppend(s: seq<char>, t: seq<char>, tabSize: nat)
    ensures ExpandTabs(s + t, tabSize) == ExpandTabs(s, tabSize) + ExpandTabs(t, tabSize)
  {
    if s != [] {
      assert (s + t)[1..] == s[1..] + t;
      ExpandTabsAppend(s[1..], t, tabSize);
    } else {
      assert s + t == t;
    }
  }

  /** The number of tabs in s. */
  function TabCount(s: seq<char>): nat
  {
    if s == [] then 0 else (if s[0] == '\t' then 1 else 0) + TabCount(s[1..])
  }

  /** No tab survives expansion. */
  lemma {:induction false} ExpandTabsRemovesTabs(s: seq<char>, tabSize: nat)
    ensures forall k :: 0 <= k < |ExpandTabs(s, tabSize)| ==> ExpandTabs(s, tabSize)[k] != '\t'
  {
    if s != [] {
      ExpandTabsRemovesTabs(s[1..], tabSize);
    }
  }

  /** Text without tabs is unchanged. */
  lemma {:induction false} ExpandTabsIdentity(s: seq<char>, tabSize: nat)
    requires forall k :: 0 <= k < |s| ==> s[k] != '\t'
    ensures ExpandTabs(s, tabSize) == s
  {
    if s != [] {
      ExpandTabsIdentity(s[1..], tabSize);
    }
  }

  /** Each tab adds tabSize - 1 bytes. */
  lemma {:induction false} ExpandTabsLength(s: seq<char>, tabSize: nat)
    ensures |ExpandTabs(s, tabSize)| + TabCount(s) == |s| + tabSize * TabCount(s)
  {
    if s != [] {
      ExpandTabsLength(s[1..], tabSize);
      if s[0] == '\t' {
        MulSucc(tabSize, TabCount(s[1..]));
      }
    }
  }

  /** Multiplication by a successor. */
  lemma MulSucc(a: nat, n: nat)
    ensures a * (n + 1) == a * n + a
  {
  }

  // -------------------------------------------------------- decimal numbers

  /** The number of decimal digits of x; 0 has one digit. */
  function NumDigits(x: nat): (n: nat)
    ensures n >= 1
  {
    if x < 10 then 1 else 1 + NumDigits(x / 10)
  }

  function Pow10(k: nat): (p: nat)
    ensures p >= 1
  {
    if k == 0 then 1 else 10 * Pow10(k - 1)
  }

  /** NumDigits(x) is the k with 10^(k-1) <= x < 10^k (or 1 for 0). */
  lemma {:induction false} NumDigitsBounds(x: nat)
    ensures x < Pow10(NumDigits(x))
    ensures x >= 10 ==> Pow10(NumDigits(x) - 1) <= x
  {
    if x >= 10 {
      NumDigitsBounds(x / 10);
    }
  }

  /** count_digits: a do-while over x /= 10. */
  method CountDigits(x: nat) returns (n: nat)
    requires x < U64_LIMIT
    ensures n == NumDigits(x)
  {
    var y := x;
    n := 0;
    y := y / 10;
    n := n + 1;
    while y != 0
      invariant n >= 1 && NumDigits(x) == n + (if y == 0 then 0 else NumDigits(y))
    {
      y := y / 10;
      n := n + 1;
    }
  }

  function DigitChar(d: nat): char
    requires d < 10
  {
    ('0' as int + d) as char
  }

  predicate IsDigit(c: char) { '0' <= c <= '9' }

  /** The decimal rendering of a natural number. */
  function Decimal(n: nat): (s: seq<char>)
    ensures |s| == NumDigits(n)
    ensures forall k :: 0 <= k < |s| ==> IsDigit(s[k])
  {
    if n < 10 then [DigitChar(n)] else Decimal(n / 10) + [DigitChar(n % 10)]
  }

  /** No leading zeros, except for zero itself. */
  lemma {:induction false} DecimalNoLeadingZero(n: nat)
    ensures Decimal(n)[0] == '0' <==> n == 0
  {
    if n >= 10 {
      DecimalNoLeadingZero(n / 10);
    }
  }

  /** u64_to_str: fills count_digits(n) bytes from the right, last digit first. */
  method U64ToStr(n: nat) returns (s: seq<char>)
    requires n < U64_LIMIT
    ensures s == Decimal(n)
  {
    var nDigits := CountDigits(n);
    var buf := new char[nDigits];
    var m := n;
    var k := nDigits;
    while m >= 10
      invariant 1 <= k <= nDigits && k == NumDigits(m)
      invariant Decimal(n) == Decimal(m) + buf[k..]
    {
      ghost var tail := buf[k..];
      var digit := m % 10;
      assert Decimal(m) == Decimal(m / 10) + [DigitChar(digit)];
      m := m / 10;
      buf[k - 1] := DigitChar(digit);
      assert buf[k - 1..] == [DigitChar(digit)] + tail;
      assert Decimal(n) == Decimal(m) + ([DigitChar(digit)] + tail);
      k := k - 1;
    }
    buf[k - 1] := DigitChar(m);
    assert buf[..] == buf[0..];
    s := buf[..];
  }

  /** The byte string a leading run of digits reads as, modulo 2^64. */
  function DigitsValue(s: seq<char>): (n: nat)
    requires forall k :: 0 <= k < |s| ==> IsDigit(s[k])
    ensures n < U64_LIMIT
  {
    if s == [] then 0
    else (DigitsValue(s[..|s| - 1]) * 10 + (s[|s| - 1] as int - '0' as int)) % U64_LIMIT
  }

  /** The longest prefix made of digits. */
  function LeadingDigits(s: seq<char>): (r: seq<char>)
    ensures |r| <= |s| && r == s[..|r|]
    ensures forall k :: 0 <= k < |r| ==> IsDigit(r[k])
    ensures |r| < |s| ==> !IsDigit(s[|r|])
  {
    if s == [] || !IsDigit(s[0]) then [] else [s[0]] + LeadingDigits(s[1..])
  }

  /** The value sv_to_u64 computes. */
  function ParseU64(s: seq<char>): (n: nat)
    ensures n < U64_LIMIT
  {
    DigitsValue(LeadingDigits(s))
  }

  /** sv_to_u64: digits up to the first non-digit, with 64-bit wrap-around. */
  method SvToU64(s: seq<char>) returns (n: nat)
    ensures n == ParseU64(s)
  {
    n := 0;
    var i := 0;
    while i < |s|
      invariant 0 <= i <= |s|
      invariant forall k :: 0 <= k < i ==> IsDigit(s[k])
      invariant n == DigitsValue(s[..i])
    {
      if !IsDigit(s[i]) {
        break;
      }
      var d := s[i] as int - '0' as int;
      DigitsValueStep(s, i);
      WrapTwice(n, d);
      n := (n * 10) % U64_LIMIT;
      n := (n + d) % U64_LIMIT;
      i := i + 1;
    }
    LeadingDigitsIsPrefix(s, i);
  }

  lemma DigitsValueStep(s: seq<char>, i: nat)
    requires i < |s| && forall k :: 0 <= k <= i ==> IsDigit(s[k])
    ensures DigitsValue(s[..i + 1]) == (DigitsValue(s[..i]) * 10 + (s[i] as int - '0' as int)) % U64_LIMIT
  {
    assert s[..i + 1][..i] == s[..i];
  }

  /** The remainder of x modulo 2^64 is the r of any division x == q * 2^64 + r with r in range. */
  lemma {:induction false} ModUnique(x: int, q: int, r: int)
    requires 0 <= r < U64_LIMIT && x == q * U64_LIMIT + r
    ensures x % U64_LIMIT == r
  {
    var q' := x / U64_LIMIT;
    assert (q - q') * U64_LIMIT == x % U64_LIMIT - r;
  }

  /** Wrapping after the multiply and again after the add equals wrapping once. */
  lemma {:induction false} WrapTwice(a: nat, d: nat)
    requires d < U64_LIMIT
    ensures ((a * 10) % U64_LIMIT + d) % U64_LIMIT == (a * 10 + d) % U64_LIMIT
  {
    var t := a * 10;
    var q, r := t / U64_LIMIT, t % U64_LIMIT;
    if r + d < U64_LIMIT {
      ModUnique(r + d, 0, r + d);
      ModUnique(t + d, q, r + d);
    } else {
      ModUnique(r + d, 1, r + d - U64_LIMIT);
      ModUnique(t + d, q + 1, r + d - U64_LIMIT);
    }
  }

  lemma {:induction false} LeadingDigitsIsPrefix(s: seq<char>, i: nat)
    requires i <= |s|
    requires forall k :: 0 <= k < i ==> IsDigit(s[k])
    requires i == |s| || !IsDigit(s[i])
    ensures LeadingDigits(s) == s[..i]
  {
    if i > 0 {
      LeadingDigitsIsPrefix(s[1..], i - 1);
      assert s[..i] == [s[0]] + s[1..][..i - 1];
    }
  }

  /** Reading back a rendered number gives the number. */
  lemma {:induction false} DecimalRoundTrip(n: nat)
    requires n < U64_LIMIT
    ensures ParseU64(Decimal(n)) == n
  {
    LeadingDigitsIsPrefix(Decimal(n), |Decimal(n)|);
    assert Decimal(n)[..|Decimal(n)|] == Decimal(n);
    DigitsOfDecimal(n);
  }

  lemma {:induction false} DigitsOfDecimal(n: nat)
    requires n < U64_LIMIT
    ensures DigitsValue(Decimal(n)) == n
  {
    var s := Decimal(n);
    if n < 10 {
      assert s[..0] == [];
    } else {
      assert s[..|s| - 1] == Decimal(n / 10);
      DigitsOfDecimal(n / 10);
      assert (n / 10) * 10 + n % 10 == n;
    }
  }

  /** The signed reading of a 64-bit pattern. */
  function AsI64(u: int): (r: int)
    ensures -(I64_HALF as int) <= r < I64_HALF
  {
    var m := u % U64_LIMIT;
    if m >= I64_HALF then m - U64_LIMIT else m
  }

  /** Negating twice through 64-bit patterns, starting from a negative 64-bit value. */
  lemma NegateAsI64(n: int)
    requires -(I64_HALF as int) <= n < 0
    ensures AsI64(-AsI64(-n)) == n
  {
    if -n == I64_HALF {
      assert (-n) % U64_LIMIT == I64_HALF;
      assert AsI64(-n) == n;
      assert (-n) % U64_LIMIT == I64_HALF;
    } else {
      assert (-n) % U64_LIMIT == -n;
      assert n % U64_LIMIT == n + U64_LIMIT;
    }
  }

  /** sv_to_i64: a leading '-' negates the unsigned reading of the rest (64-bit wrap-around). */
  function SvToI64(s: seq<char>): (r: int)
    ensures -(I64_HALF as int) <= r < I64_HALF
    ensures s == [] ==> r == 0
    ensures s != [] && s[0] != '-' ==> r == AsI64(ParseU64(s))
    ensures s != [] && s[0] == '-' ==> r == AsI64(-AsI64(ParseU64(s[1..])))
  {
    if |s| == 0 then 0
    else if s[0] == '-' then AsI64(-AsI64(ParseU64(s[1..])))
    else AsI64(ParseU64(s))
  }

  /** i64_to_str (and i32_to_str, which widens first). */
  function I64ToStr(n: int): (s: seq<char>)
    requires -(I64_HALF as int) <= n < I64_HALF
    ensures n < 0 ==> s == ['-'] + Decimal(-n)
    ensures n >= 0 ==> s == Decimal(n)
  {
    if n < 0 then ['-'] + Decimal(-n) else Decimal(n)
  }

  /** Rendering a signed 64-bit number and reading it back gives the number. */
  lemma SignedRoundTrip(n: int)
    requires -(I64_HALF as int) <= n < I64_HALF
    ensures SvToI64(I64ToStr(n)) == n
  {
    var s := I64ToStr(n);
    if n < 0 {
      assert s[0] == '-' && s[1..] == Decimal(-n);
      DecimalRoundTrip(-n);
      assert SvToI64(s) == AsI64(-AsI64(-n));
      NegateAsI64(n);
    } else {
      assert s[0] != '-' by {
        assert IsDigit(Decimal(n)[0]);
      }
      DecimalRoundTrip(n);
      assert SvToI64(s) == AsI64(n);
      assert AsI64(n) == n by {
        assert n % U64_LIMIT == n;
      }
    }
  }

  // --------------------------------------------------------------------- hex

  /** get_hex_digit: 0-9 then upper-case A-F. */
  function HexDigit(d: nat): (c: char)
    requires d < 16
    ensures IsHexUpper(c)
  {
    if d <= 9 then ('0' as int + d) as char else ('A' as int + d - 10) as char
  }

  predicate IsHexUpper(c: char) { '0' <= c <= '9' || 'A' <= c <= 'F' }

  function HexValue(c: char): nat
  {
    if '0' <= c <= '9' then c as int - '0' as int
    else if 'A' <= c <= 'F' then c as int - 'A' as int + 10
    else 0
  }

  function Pow256(k: nat): (p: nat)
    ensures p >= 1
  {
    if k == 0 then 1 else 256 * Pow256(k - 1)
  }

  /** The two hex digits of each of the low `nBytes` bytes of n, most significant first. */
  function HexBytes(n: nat, nBytes: nat): (s: seq<char>)
    ensures |s| == 2 * nBytes
    ensures forall k :: 0 <= k < |s| ==> IsHexUpper(s[k])
  {
    if nBytes == 0 then []
    else
      var b := (n / Pow256(nBytes - 1)) % 256;
      [HexDigit(b / 16), HexDigit(b % 16)] + HexBytes(n, nBytes - 1)
  }

  /** uint_to_hex: appends 2·nBytes hex digits. */
  method UintToHex(n: nat, nBytes: nat, out: String)
    requires out.Valid()
    modifies out
    ensures out.Valid() && out.data == old(out.data) + HexBytes(n, nBytes)
  {
    var i := nBytes;
    while i > 0
      invariant 0 <= i <= nBytes && out.Valid()
      invariant out.data + HexBytes(n, i) == old(out.data) + HexBytes(n, nBytes)
    {
      var exposed := (n / Pow256(i - 1)) % 256;
      out.Append(HexDigit(exposed / 16));
      out.Append(HexDigit(exposed % 16));
      i := i - 1;
    }
  }

  /** Digits 2j and 2j+1 spell byte nBytes-1-j of n (the most significant byte first). */
  lemma {:induction false} HexBytesSpellBytes(n: nat, nBytes: nat, j: nat)
    requires j < nBytes
    ensures HexValue(HexBytes(n, nBytes)[2 * j]) * 16 + HexValue(HexBytes(n, nBytes)[2 * j + 1])
         == (n / Pow256(nBytes - 1 - j)) % 256
  {
    var s := HexBytes(n, nBytes);
    if j > 0 {
      HexBytesSpellBytes(n, nBytes - 1, j - 1);
      assert s[2 * j] == HexBytes(n, nBytes - 1)[2 * (j - 1)];
      assert s[2 * j + 1] == HexBytes(n, nBytes - 1)[2 * (j - 1) + 1];
    } else {
      var b := (n / Pow256(nBytes - 1)) % 256;
      HexDigitValue(b / 16);
      HexDigitValue(b % 16);
    }
  }

  lemma HexDigitValue(d: nat)
    requires d < 16
    ensures HexValue(HexDigit(d)) == d
  {
  }

  // ------------------------------------------------------------------ format

  /** A variadic argument of the formatter, tagged with its C type. */
  datatype FmtArg =
    | ArgChar(c: char)
    | ArgStr(s: seq<char>)
    | ArgI32(i: int)
    | ArgU32(u: nat)
    | ArgU64(ul: nat)

  /** The argument holds a value of its C type. */
  predicate ArgInRange(a: FmtArg)
  {
    match a
    case ArgI32(i) => -0x8000_0000 <= i < 0x8000_0000
    case ArgU32(u) => u < U32_LIMIT
    case ArgU64(ul) => ul < U64_LIMIT
    case _ => true
  }

  /** What one `{spec}` contributes. */
  datatype Rendered = Text(text: seq<char>) | BadArg | Unsupported | UnknownSpec

  /** A C string argument ends at its first NUL. */
  function CStr(s: seq<char>): (r: seq<char>)
    ensures |r| <= |s| && r == s[..|r|] && '\0' !in r
  {
    if s == [] || s[0] == '\0' then [] else [s[0]] + CStr(s[1..])
  }

  /** The specs that take an argument of each kind. */
  predicate TakesString(spec: seq<char>)
  {
    spec == "s" || spec == "so" || spec == "sv" || spec == "svo" || spec == "cstr"
  }

  predicate KnownSpec(spec: seq<char>)
  {
    spec == "c" || TakesString(spec) || spec == "i32" || spec == "u32" || spec == "i64"
      || spec == "u64" || spec == "x32" || spec == "x64" || spec == "f32" || spec == "f64"
      || spec == "cpf"
  }

  /**
   * Floating point, `cpf` (a C printf format) and `i64`/`u64` (which fetch a
   * 32-bit argument for a 64-bit one) are not modelled.
   */
  predicate Unmodelled(spec: seq<char>)
  {
    spec == "f32" || spec == "f64" || spec == "cpf" || spec == "i64" || spec == "u64"
  }

  /**
   * The text a known spec produces from its argument; an argument that is
   * missing or of another C type is BadArg.
   */
  function RenderSpec(spec: seq<char>, arg: Option<FmtArg>): (r: Rendered)
    requires arg.Some? ==> ArgInRange(arg.value)
    ensures r == UnknownSpec <==> !KnownSpec(spec)
    ensures r == Unsupported <==> Unmodelled(spec)
    ensures spec == "c" && arg.Some? && arg.value.ArgChar? ==> r == Text([arg.value.c])
    ensures TakesString(spec) && spec != "cstr" && arg.Some? && arg.value.ArgStr? ==> r == Text(arg.value.s)
  {
    if !KnownSpec(spec) then UnknownSpec
    else if Unmodelled(spec) then Unsupported
    else if arg.None? then BadArg
    else
      var a := arg.value;
      if spec == "c" then (if a.ArgChar? then Text([a.c]) else BadArg)
      else if spec == "cstr" then (if a.ArgStr? then Text(CStr(a.s)) else BadArg)
      else if TakesString(spec) then (if a.ArgStr? then Text(a.s) else BadArg)
      else if spec == "i32" then (if a.ArgI32? then Text(I64ToStr(a.i)) else BadArg)
      else if spec == "u32" then (if a.ArgU32? then Text(Decimal(a.u)) else BadArg)
      else if spec == "x32" then (if a.ArgU32? then Text("0x" + HexBytes(a.u, 4)) else BadArg)
      else (if a.ArgU64? then Text("0x" + HexBytes(a.ul, 8)) else BadArg)
  }

  /** The result of formatting. */
  datatype Formatted =
    | FmtOk(out: seq<char>)
    | FmtAbort        // sv_slice's assertion fails: the spec window ends before it starts
    | FmtUndefined    // an argument is missing or of another C type
    | FmtUnsupported  // a spec of Unmodelled

  /** The scanning state: output so far, pending backslashes, open spec and precision. */
  datatype FmtState = FmtState(
    out: seq<char>,
    bsCount: nat,
    specStart: Option<nat>,
    precStart: Option<nat>,
    nextArg: nat)

  /** Open spec and precision positions never lie past the byte being scanned. */
  predicate StateAt(st: FmtState, i: nat)
  {
    (st.specStart.Some? ==> st.specStart.value <= i)
    && (st.precStart.Some? ==> 1 <= st.precStart.value <= i)
  }

  predicate ArgsInRange(args: seq<FmtArg>)
  {
    forall k :: 0 <= k < |args| ==> ArgInRange(args[k])
  }

  function ArgAt(args: seq<FmtArg>, k: nat): (r: Option<FmtArg>)
    ensures r.Some? <==> k < |args|
  {
    if k < |args| then Some(args[k]) else None
  }

  datatype StepResult = Next(st: FmtState) | Stop(result: Formatted)

  /** The effect of the byte at index i on the scanning state. */
  function Step(fmt: seq<char>, args: seq<FmtArg>, i: nat, st: FmtState): (r: StepResult)
    requires i < |fmt| && ArgsInRange(args) && StateAt(st, i)
    ensures r.Next? ==> StateAt(r.st, i + 1)
  {
    var c := fmt[i];
    if c == '{' && st.bsCount % 2 == 0 then Next(st.(specStart := Some(i + 1)))
    else if c == ':' && st.specStart.Some? then Next(st.(precStart := Some(i + 1)))
    else if c == '\\' then Next(st.(bsCount := st.bsCount + 1))
    else
      var out := if c != '{' then st.out + Repeat('\\', st.bsCount) else st.out;
      var st := st.(out := out, bsCount := 0);
      if c == '}' then
        if st.specStart.None? then Next(st.(out := st.out + ['}'])) else CloseSpec(fmt, args, i, st)
      else if st.specStart.None? then Next(st.(out := st.out + [c]))
      else Next(st)
  }

  /** A '}' closing the spec opened in st (whose pending backslashes are flushed). */
  function CloseSpec(fmt: seq<char>, args: seq<FmtArg>, i: nat, st: FmtState): (r: StepResult)
    requires i < |fmt| && ArgsInRange(args) && StateAt(st, i) && st.specStart.Some?
    ensures r.Next? ==> StateAt(r.st, i + 1) && r.st.specStart.None? && r.st.precStart.None?
    ensures r.Next? ==> r.st.nextArg == st.nextArg + 1
  {
    var start := st.specStart.value;
    var end := if st.precStart.None? then i else st.precStart.value - 1;
    if start > end then Stop(FmtAbort)
    else
      match RenderSpec(fmt[start..end], ArgAt(args, st.nextArg))
      case UnknownSpec => Stop(FmtOk([]))
      case Unsupported => Stop(FmtUnsupported)
      case BadArg => Stop(FmtUndefined)
      case Text(t) =>
        Next(st.(out := st.out + t, specStart := None, precStart := None, nextArg := st.nextArg + 1))
  }

  /** Scanning fmt from index i in state st. */
  function FormatFrom(fmt: seq<char>, args: seq<FmtArg>, i: nat, st: FmtState): Formatted
    requires i <= |fmt| && ArgsInRange(args) && StateAt(st, i)
    decreases |fmt| - i
  {
    if i == |fmt| then FmtOk(st.out)
    else
      match Step(fmt, args, i, st)
      case Stop(r) => r
      case Next(st') => FormatFrom(fmt, args, i + 1, st')
  }

  const Start: FmtState := FmtState([], 0, None, None, 0)

  /** str_fmt / str_cfmt: the result of formatting fmt with args. */
  function Format(fmt: seq<char>, args: seq<FmtArg>): Formatted
    requires ArgsInRange(args)
  {
    FormatFrom(fmt, args, 0, Start)
  }

  /** format: one pass over fmt, appending to a growing String. */
  method Formatter(fmt: seq<char>, args: seq<FmtArg>) returns (r: Formatted)
    requires ArgsInRange(args)
    ensures r == Format(fmt, args)
  {
    var out := new String.WithCapacity(0);
    var bsCount: nat := 0;
    var specStart: Option<nat> := None;
    var precStart: Option<nat> := None;
    var nextArg: nat := 0;
    var i := 0;
    while i < |fmt|
      invariant 0 <= i <= |fmt| && out.Valid()
      invariant StateAt(FmtState(out.data, bsCount, specStart, precStart, nextArg), i)
      invariant FormatFrom(fmt, args, i, FmtState(out.data, bsCount, specStart, precStart, nextArg))
             == Format(fmt, args)
    {
      var stop;
      stop, bsCount, specStart, precStart, nextArg := ScanByte(fmt, args, i, out, bsCount, specStart, precStart, nextArg);
      if stop.Some? {
        return stop.value;
      }
      i := i + 1;
    }
    return FmtOk(out.data);
  }

  /** One iteration of format's loop: the byte at index i. */
  method ScanByte(fmt: seq<char>, args: seq<FmtArg>, i: nat, out: String,
                  bsCount: nat, specStart: Option<nat>, precStart: Option<nat>, nextArg: nat)
    returns (stop: Option<Formatted>, bs': nat, spec': Option<nat>, prec': Option<nat>, next': nat)
    requires i < |fmt| && ArgsInRange(args) && out.Valid()
    requires StateAt(FmtState(out.data, bsCount, specStart, precStart, nextArg), i)
    modifies out
    ensures out.Valid()
    ensures stop.Some? ==> Step(fmt, args, i, FmtState(old(out.data), bsCount, specStart, precStart, nextArg))
                           == Stop(stop.value)
    ensures stop.None? ==> Step(fmt, args, i, FmtState(old(out.data), bsCount, specStart, precStart, nextArg))
                           == Next(FmtState(out.data, bs', spec', prec', next'))
  {
    stop, bs', spec', prec', next' := None, bsCount, specStart, precStart, nextArg;
    var c := fmt[i];
    if c == '{' && bsCount % 2 == 0 {
      spec' := Some(i + 1);
      return;
    }
    if c == ':' && specStart.Some? {
      prec' := Some(i + 1);
      return;
    }
    if c == '\\' {
      bs' := bsCount + 1;
      return;
    }
    if c != '{' {
      AppendCopies(out, '\\', bsCount);
    }
    bs' := 0;
    if c == '}' {
      if specStart.None? {
        out.Append('}');
        return;
      }
      stop, spec', prec', next' := CloseSpecAt(fmt, args, i, out, specStart.value, precStart, nextArg);
      return;
    }
    if specStart.None? {
      out.Append(c);
    }
  }

  /** The '}' that closes the spec opened at specStart: the argument is rendered or formatting stops. */
  method CloseSpecAt(fmt: seq<char>, args: seq<FmtArg>, i: nat, out: String, specStart: nat, precStart: Option<nat>, nextArg: nat)
    returns (stop: Option<Formatted>, spec': Option<nat>, prec': Option<nat>, next': nat)
    requires i < |fmt| && ArgsInRange(args) && out.Valid()
    requires StateAt(FmtState(out.data, 0, Some(specStart), precStart, nextArg), i)
    modifies out
    ensures out.Valid()
    ensures stop.Some? ==> CloseSpec(fmt, args, i, FmtState(old(out.data), 0, Some(specStart), precStart, nextArg)) == Stop(stop.value)
    ensures stop.None? ==> CloseSpec(fmt, args, i, FmtState(old(out.data), 0, Some(specStart), precStart, nextArg))
                           == Next(FmtState(out.data, 0, spec', prec', next'))
  {
    stop, spec', prec', next' := None, Some(specStart), precStart, nextArg;
    var end := if precStart.None? then i else precStart.value - 1;
    if specStart > end {
      return Some(FmtAbort), spec', prec', next';
    }
    var rendered := RenderSpec(fmt[specStart..end], ArgAt(args, nextArg));
    match rendered
    case UnknownSpec => stop := Some(FmtOk([]));
    case Unsupported => stop := Some(FmtUnsupported);
    case BadArg => stop := Some(FmtUndefined);
    case Text(t) =>
      out.CatSv(t);
      next' := nextArg + 1;
      spec' := None;
      prec' := None;
  }

  /** Text with no brace and no backslash is copied unchanged. */
  lemma PlainTextIsCopied(fmt: seq<char>, args: seq<FmtArg>)
    requires ArgsInRange(args)
    requires forall k :: 0 <= k < |fmt| ==> fmt[k] != '{' && fmt[k] != '\\'
    ensures Format(fmt, args) == FmtOk(fmt)
  {
    PlainFrom(fmt, args, 0, []);
  }

  lemma {:induction false} PlainFrom(fmt: seq<char>, args: seq<FmtArg>, i: nat, out: seq<char>)
    requires ArgsInRange(args) && i <= |fmt|
    requires forall k :: 0 <= k < |fmt| ==> fmt[k] != '{' && fmt[k] != '\\'
    ensures FormatFrom(fmt, args, i, FmtState(out, 0, None, None, 0)) == FmtOk(out + fmt[i..])
    decreases |fmt| - i
  {
    if i < |fmt| {
      assert Step(fmt, args, i, FmtState(out, 0, None, None, 0))
          == Next(FmtState(out + [fmt[i]], 0, None, None, 0));
      PlainFrom(fmt, args, i + 1, out + [fmt[i]]);
      assert out + [fmt[i]] + fmt[i + 1..] == out + fmt[i..];
    } else {
      assert fmt[i..] == [];
    }
  }

  /** `{x32}` renders its argument as 0x and eight upper-case hex digits. */
  lemma Hex32Spec(n: nat)
    requires n < U32_LIMIT
    ensures Format("{x32}", [ArgU32(n)]) == FmtOk("0x" + HexBytes(n, 4))
  {
    var fmt := "{x32}";
    var args := [ArgU32(n)];
    assert fmt[1..4] == "x32";
    var st1 := FmtState([], 0, Some(1), None, 0);
    assert Step(fmt, args, 0, Start) == Next(st1);
    assert Step(fmt, args, 1, st1) == Next(st1);
    assert Step(fmt, args, 2, st1) == Next(st1);
    assert Step(fmt, args, 3, st1) == Next(st1);
    var st5 := FmtState("0x" + HexBytes(n, 4), 0, None, None, 1);
    assert Step(fmt, args, 4, st1) == Next(st5);
    assert FormatFrom(fmt, args, 4, st1) == FmtOk(st5.out);
    assert FormatFrom(fmt, args, 2, st1) == FormatFrom(fmt, args, 4, st1);
  }

  /** An unknown spec discards all output. */
  lemma UnknownSpecEmpties(spec: seq<char>, args: seq<FmtArg>)
    requires ArgsInRange(args) && !KnownSpec(spec)
    requires forall k :: 0 <= k < |spec| ==> spec[k] != '{' && spec[k] != ':' && spec[k] != '\\' && spec[k] != '}'
    ensures Format("{" + spec + "}", args) == FmtOk([])
  {
    var fmt := "{" + spec + "}";
    var st1 := FmtState([], 0, Some(1), None, 0);
    assert Step(fmt, args, 0, Start) == Next(st1);
    assert forall k :: 1 <= k < |fmt| - 1 ==> fmt[k] == spec[k - 1];
    InsideSpec(fmt, args, 1, st1, |fmt| - 1);
    assert fmt[1..|fmt| - 1] == spec;
  }

  /** Bytes other than '{', ':', '\\' and '}' inside an open spec change nothing. */
  lemma {:induction false} InsideSpec(fmt: seq<char>, args: seq<FmtArg>, i: nat, st: FmtState, j: nat)
    requires ArgsInRange(args) && i <= j < |fmt| && st.specStart.Some? && st.bsCount == 0
    requires StateAt(st, i)
    requires forall k :: i <= k < j ==> fmt[k] != '{' && fmt[k] != ':' && fmt[k] != '\\' && fmt[k] != '}'
    ensures FormatFrom(fmt, args, i, st) == FormatFrom(fmt, args, j, st)
    decreases j - i
  {
    if i < j {
      assert Step(fmt, args, i, st) == Next(st);
      InsideSpec(fmt, args, i + 1, st, j);
    }
  }

  /** A backslash before '{' makes it a literal brace. */
  lemma EscapedBrace(args: seq<FmtArg>)
    requires ArgsInRange(args)
    ensures Format("\\{", args) == FmtOk("{")
  {
    var fmt := "\\{";
    var st1 := FmtState([], 1, None, None, 0);
    assert Step(fmt, args, 0, Start) == Next(st1);
    assert Step(fmt, args, 1, st1) == Next(FmtState("{", 0, None, None, 0));
  }

  /** `{a:{b}` closes a spec whose window ends before it starts: sv_slice aborts. */
  lemma NestedOpenBraceAborts(args: seq<FmtArg>)
    requires ArgsInRange(args)
    ensures Format("{a:{b}", args) == FmtAbort
  {
    var fmt := "{a:{b}";
    var st1 := FmtState([], 0, Some(1), None, 0);
    var st3 := FmtState([], 0, Some(1), Some(3), 0);
    var st4 := FmtState([], 0, Some(4), Some(3), 0);
    assert Step(fmt, args, 0, Start) == Next(st1);
    assert Step(fmt, args, 1, st1) == Next(st1);
    assert Step(fmt, args, 2, st1) == Next(st3);
    assert Step(fmt, args, 3, st3) == Next(st4);
    assert Step(fmt, args, 4, st4) == Next(st4);
    assert Step(fmt, args, 5, st4) == Stop(FmtAbort);
  }
}

/**
 * What the lexer of src/parser/lexer.c reads, as functions of the input
 * that is still pending. Each reader returns how many bytes it consumed
 * (`used`) and how far into the input it looked (`seen`): the lexer's
 * stream position, and with it the line and column it reports, is the
 * furthest byte it has looked at, while bytes it has looked at but not
 * consumed wait in its one-byte peek and push-back slots.
 *
 * The input is a byte sequence that ends only when exhausted.
 */
module LexSpec {
  import opened Wrappers
  import opened Token
  import Str

  function Max(a: int, b: int): int { if a >= b then a else b }

  /* ---------------------------------------------------------------- */
  /* Character classes of the C locale (bytes above 0x7F are in none). */

  predicate IsSpace(c: char) { c == ' ' || c == '\t' || c == '\n' || c == 0x0B as char || c == 0x0C as char || c == '\r' }
  predicate IsDigit(c: char) { '0' <= c <= '9' }
  predicate IsAlpha(c: char) { 'a' <= c <= 'z' || 'A' <= c <= 'Z' }
  predicate IsWordStart(c: char) { IsAlpha(c) || c == '_' }
  predicate IsWordChar(c: char) { IsAlpha(c) || IsDigit(c) || c == '_' }
  predicate IsHexDigit(c: char) { IsDigit(c) || 'a' <= c <= 'f' || 'A' <= c <= 'F' }
  predicate IsOctDigit(c: char) { '0' <= c <= '7' }

  function Lower(c: char): char { if 'A' <= c <= 'Z' then (c as int + 32) as char else c }
  function Upper(c: char): char { if 'a' <= c <= 'z' then (c as int - 32) as char else c }

  /** convert_hex_digit. */
  function HexValue(c: char): (v: nat)
    requires IsHexDigit(c)
    ensures v < 16
  {
    if IsDigit(c) then c as int - '0' as int
    else if 'a' <= c <= 'f' then 10 + c as int - 'a' as int
    else 10 + c as int - 'A' as int
  }

  /** The slots use NUL for "empty", so the model reads NUL-free input. */
  predicate NulFree(s: seq<char>) { forall k :: 0 <= k < |s| ==> s[k] != 0 as char }

  /* ---------------------------------------------------------------- */
  /* Positions (read_ch). */

  const START: Position := Position(1, 0, 0)

  /** The position after reading one more byte: a CR or LF starts a new line. */
  function StepPos(p: Position, c: char): (q: Position)
    ensures q.depth == p.depth + 1
    ensures c == '\r' || c == '\n' ==> q.line == p.line + 1 && q.column == 0
    ensures c != '\r' && c != '\n' ==> q.line == p.line && q.column == p.column + 1
  {
    if c == '\r' || c == '\n' then Position(p.line + 1, 0, p.depth + 1)
    else Position(p.line, p.column + 1, p.depth + 1)
  }

  /** The position after reading the bytes s from the start of the input. */
  function PosAfter(s: seq<char>): (p: Position)
    ensures p.depth == |s| && p.line >= 1
    decreases |s|
  {
    if s == [] then START else StepPos(PosAfter(s[..|s| - 1]), s[|s| - 1])
  }

  /** Reading one more byte steps the position by that byte. */
  lemma {:induction false} PosAfterSnoc(s: seq<char>, c: char)
    ensures PosAfter(s + [c]) == StepPos(PosAfter(s), c)
  {
    assert (s + [c])[..|s|] == s;
  }

  /* ---------------------------------------------------------------- */
  /* Status codes and messages. */

  /** enum gramina_lex_error_code. */
  datatype Status = ErrNone | ErrEof | ErrNoTok | ErrBadTok | ErrUnknownChar | ErrOccupied | DontPushTok

  /** The messages put_err records, with the byte they mention. */
  datatype Message =
    | ExpectedHexDigit(found: char)
    | ExpectedOctalDigit(found: char)
    | InvalidEscape(found: char)
    | ExpectedQuote(quote: char, found: char)
    | ExpectedPipe(found: char)
    | ExpectedWordStart(found: char)
    | ExpectedDigit(found: char)
    | ExcessL
    | UnsignedFloat
    | UnsignedWithF
    | ExcessF
    | MultibyteChar

  /** readable_char: a newline is shown as `\n`. */
  function Readable(c: char): seq<char> { if c == '\n' then "\\n" else [c] }

  /** The text of each message. */
  function MessageText(m: Message): seq<char>
  {
    match m
    case ExpectedHexDigit(c) => "expected hex digit, found '" + Readable(c) + "'"
    case ExpectedOctalDigit(c) => "expected octal digit, found '" + Readable(c) + "'"
    case InvalidEscape(c) => "invalid escape '\\" + Readable(c) + "'"
    case ExpectedQuote(q, c) => "expected '" + Readable(q) + "', found '" + Readable(c) + "'"
    case ExpectedPipe(c) => "expected '|', found '" + Readable(c) + "'"
    case ExpectedWordStart(c) => "expected 'A-Za-z_', found '" + Readable(c) + "'"
    case ExpectedDigit(c) => "expected '0-9', found '" + Readable(c) + "'"
    case ExcessL => "found excess 'L' suffix"
    case UnsignedFloat => "found 'U' suffix with floating point literal"
    case UnsignedWithF => "found 'F' suffix with unsigned literal"
    case ExcessF => "found excess 'F' suffix"
    case MultibyteChar => "multibyte char literal"
  }

  /**
   * The outcome of one reader on the pending input: its status, its value,
   * the bytes it consumed, how far it looked, and the message it recorded.
   */
  datatype Read<T> = Read(status: Status, value: T, used: nat, seen: nat, err: Option<Message>)
  {
    ghost predicate Within(n: nat) { used <= seen <= n }
  }

  /* ---------------------------------------------------------------- */
  /* Escapes (read_escape). */

  /** How many digits \x and \o take. */
  function Width(octal: bool): nat { if octal then 3 else 2 }

  /** The weight of the j-th digit of an escape, and 0 once all have been read. */
  function Weight(octal: bool, j: nat): nat
  {
    if octal then (if j == 1 then 64 else if j == 2 then 8 else if j == 3 then 1 else 0)
    else (if j == 1 then 16 else if j == 2 then 1 else 0)
  }

  predicate IsDigitIn(octal: bool, c: char) { if octal then IsOctDigit(c) else IsHexDigit(c) }

  function DigitValue(octal: bool, c: char): nat
    requires IsDigitIn(octal, c)
  {
    if octal then c as int - '0' as int else HexValue(c)
  }

  /** The message for a byte that is not a digit of the escape's base. */
  function DigitError(octal: bool, c: char): Message
  {
    if octal then ExpectedOctalDigit(c) else ExpectedHexDigit(c)
  }

  /**
   * The digits of a \x or \o escape. s[0] is the letter; bytes s[..j] are
   * consumed and acc is the weighted sum of the digits among them. The
   * value is a byte, so an octal escape wraps modulo 256.
   */
  function EscapeDigits(s: seq<char>, octal: bool, j: nat, acc: int): (r: Read<char>)
    requires 1 <= j <= Width(octal) + 1 && j <= |s|
    decreases Width(octal) + 1 - j
  {
    if j > Width(octal) then Read(ErrNone, (acc % 256) as char, j, j, None)
    else if j >= |s| then Read(ErrEof, 0 as char, j, j, None)
    else if !IsDigitIn(octal, s[j]) then
      Read(ErrBadTok, 0 as char, j, j + 1, Some(DigitError(octal, s[j])))
    else EscapeDigits(s, octal, j + 1, acc + DigitValue(octal, s[j]) * Weight(octal, j))
  }

  /** What the digit loop can end with, and how far it gets. */
  lemma {:induction false} EscapeDigitsShape(s: seq<char>, octal: bool, j: nat, acc: int)
    requires 1 <= j <= Width(octal) + 1 && j <= |s|
    ensures var r := EscapeDigits(s, octal, j, acc);
            && r.Within(|s|) && r.used >= j
            && (r.status == ErrNone || r.status == ErrEof || r.status == ErrBadTok)
            && (r.status == ErrNone ==> r.used == r.seen == Width(octal) + 1 <= |s|)
            && (r.status == ErrBadTok <==> r.err.Some?)
    decreases Width(octal) + 1 - j
  {
    if j <= Width(octal) && j < |s| && IsDigitIn(octal, s[j]) {
      EscapeDigitsShape(s, octal, j + 1, acc + DigitValue(octal, s[j]) * Weight(octal, j));
    }
  }

  /** The byte a single-letter escape stands for, if the letter is one. */
  function SimpleEscape(c: char): Option<char>
  {
    if c == '\\' then Some('\\')
    else if c == 'n' then Some('\n')
    else if c == 't' then Some('\t')
    else if c == 'f' then Some(0x0C as char)
    else if c == 'v' then Some(0x0B as char)
    else if c == 'e' then Some(0x1B as char)
    else if c == '0' then Some(0 as char)
    else None
  }

  /** read_escape: s is the input after the backslash; quote is the enclosing quote. */
  function Escape(s: seq<char>, quote: char): (r: Read<char>)
    ensures r.Within(|s|)
    ensures (r.status == ErrNone || r.status == ErrEof || r.status == ErrBadTok)
    ensures r.status == ErrNone ==> r.used == r.seen >= 1
    ensures r.status == ErrBadTok <==> r.err.Some?
  {
    if |s| == 0 then Read(ErrEof, 0 as char, 0, 0, None)
    else if s[0] == quote then Read(ErrNone, quote, 1, 1, None)
    else if SimpleEscape(s[0]).Some? then Read(ErrNone, SimpleEscape(s[0]).value, 1, 1, None)
    else if s[0] == 'x' then EscapeDigitsShape(s, false, 1, 0); EscapeDigits(s, false, 1, 0)
    else if s[0] == 'o' then EscapeDigitsShape(s, true, 1, 0); EscapeDigits(s, true, 1, 0)
    else Read(ErrBadTok, 0 as char, 0, 1, Some(InvalidEscape(s[0])))
  }

  /* ---------------------------------------------------------------- */
  /* String and char literals (read_stringlike). */

  /** The body of a literal from index i on; acc holds the bytes decoded so far. */
  function StringFrom(s: seq<char>, quote: char, i: nat, acc: seq<char>): (r: Read<seq<char>>)
    requires 1 <= i <= |s|
    ensures r.Within(|s|) && r.used >= i
    ensures (r.status == ErrNone || r.status == ErrEof || r.status == ErrBadTok)
    ensures r.status == ErrBadTok <==> r.err.Some?
    decreases |s| - i
  {
    if i == |s| then Read(ErrEof, acc, i, i, None)
    else if s[i] == '\\' then
      var e := Escape(s[i + 1..], quote);
      if e.status != ErrNone then Read(e.status, acc, i + 1 + e.used, i + 1 + e.seen, e.err)
      else StringFrom(s, quote, i + 1 + e.used, acc + [e.value])
    else if s[i] == quote then Read(ErrNone, acc, i + 1, i + 1, None)
    else StringFrom(s, quote, i + 1, acc + [s[i]])
  }

  /** A quoted literal: the opening quote, then the body up to the closing quote. */
  function Stringlike(s: seq<char>, quote: char): (r: Read<seq<char>>)
    ensures r.Within(|s|)
    ensures (r.status == ErrNone || r.status == ErrEof || r.status == ErrNoTok || r.status == ErrBadTok)
    ensures r.status == ErrNone ==> r.used >= 2
    ensures (r.status == ErrBadTok || r.status == ErrNoTok) <==> r.err.Some?
  {
    if |s| == 0 then Read(ErrEof, [], 0, 0, None)
    else if s[0] != quote then Read(ErrNoTok, [], 0, 1, Some(ExpectedQuote(quote, s[0])))
    else StringFrom(s, quote, 1, [])
  }

  /* ---------------------------------------------------------------- */
  /* Comments (read_comment, read_bounded_comment, read_line_comment). */

  /** There is no closing pair "*" "/" ending at any index in [a, b). */
  ghost predicate Unclosed(s: seq<char>, a: nat, b: nat)
    requires 1 <= a && b <= |s|
  {
    forall m :: a <= m < b ==> !(s[m - 1] == '*' && s[m] == '/')
  }

  /**
   * The slash that closes a block comment: the first k >= j with "*" at k - 1
   * and "/" at k. The search starts at 3, so the opener's own "*" never counts.
   */
  function BlockEnd(s: seq<char>, j: nat): (r: Option<nat>)
    requires j >= 3
    ensures r.Some? ==> j <= r.value < |s| && s[r.value - 1] == '*' && s[r.value] == '/'
    ensures r.Some? ==> forall k :: j <= k < r.value ==> !(s[k - 1] == '*' && s[k] == '/')
    ensures r.None? ==> forall k :: j <= k < |s| ==> !(s[k - 1] == '*' && s[k] == '/')
    decreases |s| - j
  {
    if j >= |s| then None
    else if s[j - 1] == '*' && s[j] == '/' then Some(j)
    else BlockEnd(s, j + 1)
  }

  /** BlockEnd is the one index from j on where the first closing pair ends. */
  lemma {:induction false} BlockEndAt(s: seq<char>, j: nat, k: nat)
    requires 3 <= j <= k <= |s| && Unclosed(s, j, k)
    requires k < |s| ==> s[k - 1] == '*' && s[k] == '/'
    ensures BlockEnd(s, j) == if k < |s| then Some(k) else None
    decreases k - j
  {
    if j < k {
      BlockEndAt(s, j + 1, k);
    }
  }

  /** The first newline at or after j, or the end of the input. */
  function LineEnd(s: seq<char>, j: nat): (k: nat)
    requires j <= |s|
    ensures j <= k <= |s| && (k < |s| ==> s[k] == '\n')
    ensures forall m :: j <= m < k ==> s[m] != '\n'
    decreases |s| - j
  {
    if j == |s| || s[j] == '\n' then j else LineEnd(s, j + 1)
  }

  /** LineEnd is the one index from j on where the first newline is. */
  lemma {:induction false} LineEndAt(s: seq<char>, j: nat, k: nat)
    requires j <= k <= |s| && (forall m :: j <= m < k ==> s[m] != '\n')
    requires k < |s| ==> s[k] == '\n'
    ensures LineEnd(s, j) == k
    decreases k - j
  {
    if j < k {
      LineEndAt(s, j + 1, k);
    }
  }

  /**
   * read_comment at a byte that may start a comment. A block comment is
   * consumed through its closing slash, a line comment up to (not
   * including) its newline. A slash that starts no comment is pushed back.
   */
  function Comment(s: seq<char>): (r: Read<()>)
    ensures r.Within(|s|) && r.err.None?
    ensures (r.status == ErrNone || r.status == ErrEof || r.status == ErrNoTok)
    ensures r.status == ErrNone ==> r.used >= 2
    ensures r.status == ErrNoTok ==> r.used == 0
    ensures r.status == ErrEof ==> r.used == |s|
  {
    if |s| == 0 then Read(ErrEof, (), 0, 0, None)
    else if s[0] != '/' then Read(ErrNoTok, (), 0, 1, None)
    else if |s| == 1 then Read(ErrEof, (), 1, 1, None)
    else if s[1] == '*' then
      match BlockEnd(s, 3)
      case Some(k) => Read(ErrNone, (), k + 1, k + 1, None)
      case None => Read(ErrEof, (), |s|, |s|, None)
    else if s[1] == '/' then
      var k := LineEnd(s, 2);
      if k == |s| then Read(ErrEof, (), k, k, None) else Read(ErrNone, (), k, k + 1, None)
    else Read(ErrNoTok, (), 0, 2, None)
  }

  /* ---------------------------------------------------------------- */
  /* Operators (read_operator). */

  /** An operator byte that one optional byte may extend: `next` turns `one` into `two`. */
  function Extend(s: seq<char>, next: char, one: TokenType, two: TokenType): (r: Read<TokenType>)
    requires |s| >= 1
  {
    if |s| < 2 then Read(ErrEof, NoneTok, 1, 1, None)
    else if s[1] == next then Read(ErrNone, two, 2, 2, None)
    else Read(ErrNone, one, 1, 2, None)
  }

  /** `&&`, `||` and `\\` may take a trailing backquote. */
  function Doubled(s: seq<char>, two: TokenType, alternate: TokenType): (r: Read<TokenType>)
    requires |s| >= 2
  {
    if |s| < 3 then Read(ErrEof, NoneTok, 2, 2, None)
    else if s[2] == '`' then Read(ErrNone, alternate, 3, 3, None)
    else Read(ErrNone, two, 2, 3, None)
  }

  /** read_operator: the longest operator of the table that starts the input. */
  function Operator(s: seq<char>): (r: Read<TokenType>)
    ensures r.Within(|s|)
    ensures (r.status == ErrNone || r.status == ErrEof || r.status == ErrNoTok || r.status == ErrBadTok)
    ensures r.status == ErrNone ==> r.used >= 1
    ensures r.status == ErrBadTok <==> r.err.Some?
    ensures r.status == ErrNoTok ==> r.used == 0
  {
    if |s| == 0 then Read(ErrEof, NoneTok, 0, 0, None)
    else
      var c := s[0];
      if c == ':' then Extend(s, ':', Colon, StaticMember)
      else if c == '.' then Extend(s, '.', Dot, DoubleDot)
      else if c == '+' then Extend(s, '=', Plus, AssignAdd)
      else if c == '-' then Extend(s, '=', Minus, AssignSub)
      else if c == '*' then Extend(s, '=', Asterisk, AssignMul)
      else if c == '/' then Extend(s, '=', ForwardSlash, AssignDiv)
      else if c == '%' then Extend(s, '=', Percent, AssignRem)
      else if c == '=' then Extend(s, '=', Assign, Equality)
      else if c == '?' then Extend(s, '?', Question, Fallback)
      else if c == '&' then
        if |s| < 2 then Read(ErrEof, NoneTok, 1, 1, None)
        else if s[1] != '&' then Read(ErrNone, Ampersand, 1, 2, None)
        else Doubled(s, And, AlternateAnd)
      else if c == '|' then
        if |s| < 2 then Read(ErrEof, NoneTok, 1, 1, None)
        else if s[1] != '|' then Read(ErrBadTok, NoneTok, 1, 2, Some(ExpectedPipe(s[1])))
        else Doubled(s, Or, AlternateOr)
      else if c == '\\' then
        if |s| < 2 then Read(ErrEof, NoneTok, 1, 1, None)
        else if s[1] != '\\' then Read(ErrNone, Backslash, 1, 2, None)
        else Doubled(s, Xor, AlternateXor)
      else if c == '<' then
        if |s| < 2 then Read(ErrEof, NoneTok, 1, 1, None)
        else if s[1] == '~' then Read(ErrNone, Insert, 2, 2, None)
        else if s[1] == '=' then Read(ErrNone, LessThanEq, 2, 2, None)
        else if s[1] == '<' then Read(ErrNone, LShift, 2, 2, None)
        else Read(ErrNone, LessThan, 1, 2, None)
      else if c == '>' then
        if |s| < 2 then Read(ErrEof, NoneTok, 1, 1, None)
        else if s[1] == '=' then Read(ErrNone, GreaterThanEq, 2, 2, None)
        else if s[1] == '>' then Read(ErrNone, RShift, 2, 2, None)
        else Read(ErrNone, GreaterThan, 1, 2, None)
      else if c == '!' then
        if |s| < 2 then Read(ErrEof, NoneTok, 1, 1, None)
        else if s[1] == '`' then Read(ErrNone, AlternateNot, 2, 2, None)
        else if s[1] == '=' then Read(ErrNone, Inequality, 2, 2, None)
        else Read(ErrNone, Exclamation, 1, 2, None)
      else if c == '~' then
        if |s| < 2 then Read(ErrEof, NoneTok, 1, 1, None)
        else if s[1] == '>' then Read(ErrNone, Extract, 2, 2, None)
        else if s[1] == '=' then Read(ErrNone, AssignCat, 2, 2, None)
        else Read(ErrNone, Tilde, 1, 2, None)
      else if c == '@' then Read(ErrNone, At, 1, 1, None)
      else if c == '^' then Read(ErrNone, Caret, 1, 1, None)
      else Read(ErrNoTok, NoneTok, 0, 1, None)
  }

  /**
   * How the switch of read_operator treats a first byte: a byte that one
   * of several second bytes (each with its own type) may extend; a byte that may be doubled and then
   * take a backquote (`single` is what it means alone, None when it must be
   * doubled); a byte that is an operator alone; or no operator at all.
   */
  datatype OperatorShape =
    | Extensible(options: map<char, TokenType>, other: TokenType)
    | Doublable(single: Option<TokenType>, two: TokenType, alternate: TokenType)
    | Lone(typ: TokenType)
    | NotOperator

  /** The case of read_operator's switch for first byte c. */
  function ShapeOf(c: char): OperatorShape
  {
    if c == ':' then Extensible(map[':' := StaticMember], Colon)
    else if c == '.' then Extensible(map['.' := DoubleDot], Dot)
    else if c == '+' then Extensible(map['=' := AssignAdd], Plus)
    else if c == '-' then Extensible(map['=' := AssignSub], Minus)
    else if c == '*' then Extensible(map['=' := AssignMul], Asterisk)
    else if c == '/' then Extensible(map['=' := AssignDiv], ForwardSlash)
    else if c == '%' then Extensible(map['=' := AssignRem], Percent)
    else if c == '&' then Doublable(Some(Ampersand), And, AlternateAnd)
    else if c == '|' then Doublable(None, Or, AlternateOr)
    else if c == '\\' then Doublable(Some(Backslash), Xor, AlternateXor)
    else if c == '<' then Extensible(map['~' := Insert, '=' := LessThanEq, '<' := LShift], LessThan)
    else if c == '>' then Extensible(map['=' := GreaterThanEq, '>' := RShift], GreaterThan)
    else if c == '=' then Extensible(map['=' := Equality], Assign)
    else if c == '!' then Extensible(map['`' := AlternateNot, '=' := Inequality], Exclamation)
    else if c == '~' then Extensible(map['>' := Extract, '=' := AssignCat], Tilde)
    else if c == '@' then Lone(At)
    else if c == '?' then Extensible(map['?' := Fallback], Question)
    else if c == '^' then Lone(Caret)
    else NotOperator
  }

  /** What read_operator reads from s, whose first byte has the given shape. */
  function ShapeRead(s: seq<char>, shape: OperatorShape): (r: Read<TokenType>)
    requires |s| >= 1
  {
    match shape
    case Extensible(options, other) =>
      if |s| < 2 then Read(ErrEof, NoneTok, 1, 1, None)
      else if s[1] in options then Read(ErrNone, options[s[1]], 2, 2, None)
      else Read(ErrNone, other, 1, 2, None)
    case Doublable(single, two, alternate) =>
      if |s| < 2 then Read(ErrEof, NoneTok, 1, 1, None)
      else if s[1] != s[0] then
        if single.Some? then Read(ErrNone, single.value, 1, 2, None)
        else Read(ErrBadTok, NoneTok, 1, 2, Some(ExpectedPipe(s[1])))
      else Doubled(s, two, alternate)
    case Lone(t) => Read(ErrNone, t, 1, 1, None)
    case NotOperator => Read(ErrNoTok, NoneTok, 0, 1, None)
  }

  /** The switch of read_operator, case by case, is the operator table above. */
  lemma {:induction false} OperatorByShape(s: seq<char>)
    requires |s| >= 1
    ensures Operator(s) == ShapeRead(s, ShapeOf(s[0]))
  {
  }

  /** read_token hands read_operator exactly the bytes its switch has a case for. */
  lemma {:induction false} OperatorStartShape(c: char)
    ensures IsOperatorStart(c) <==> !ShapeOf(c).NotOperator?
  {
  }

  /* ---------------------------------------------------------------- */
  /* Words (read_wordlike). */

  /** The end of the run of word bytes that starts at i. */
  function WordEnd(s: seq<char>, i: nat): (k: nat)
    requires i <= |s|
    ensures i <= k <= |s| && (k < |s| ==> !IsWordChar(s[k]))
    ensures forall m :: i <= m < k ==> IsWordChar(s[m])
    decreases |s| - i
  {
    if i == |s| || !IsWordChar(s[i]) then i else WordEnd(s, i + 1)
  }

  /** WordEnd is the one index from i on where the run of word bytes ends. */
  lemma {:induction false} WordEndAt(s: seq<char>, i: nat, k: nat)
    requires i <= k <= |s| && (forall m :: i <= m < k ==> IsWordChar(s[m]))
    requires k < |s| ==> !IsWordChar(s[k])
    ensures WordEnd(s, i) == k
    decreases k - i
  {
    if i < k {
      WordEndAt(s, i + 1, k);
    }
  }

  /** read_wordlike: letters, digits and underscores after a letter or underscore. */
  function Wordlike(s: seq<char>): (r: Read<seq<char>>)
    ensures r.Within(|s|)
    ensures (r.status == ErrNone || r.status == ErrEof || r.status == ErrNoTok)
    ensures r.status == ErrNone ==> r.used >= 1
    ensures r.status == ErrNoTok <==> r.err.Some?
  {
    if |s| == 0 then Read(ErrEof, [], 0, 0, None)
    else if !IsWordStart(s[0]) then Read(ErrNoTok, [], 0, 1, Some(ExpectedWordStart(s[0])))
    else
      var k := WordEnd(s, 0);
      if k == |s| then Read(ErrEof, s, k, k, None) else Read(ErrNone, s[..k], k, k + 1, None)
  }

  /* ---------------------------------------------------------------- */
  /* Numbers (read_number, mk_number_literal_type). */

  /** The numeral part of a number literal: its text, whether it is floating, and the reader's progress. */
  datatype Numeral = Numeral(status: Status, text: seq<char>, decimal: bool, used: nat, seen: nat)

  /**
   * The digit loop of read_number from index i, having looked as far as
   * `seen`. A `.` is kept only when a digit follows it (otherwise it is
   * pushed back); an `e` followed by `-` adds `e-` to the text but leaves
   * the `-` in the input; a second `.` or `e` ends the numeral.
   */
  function NumeralFrom(s: seq<char>, i: nat, seen: nat, decimal: bool, text: seq<char>): (r: Numeral)
    requires i <= seen <= |s|
    ensures r.used <= r.seen <= |s| && seen <= r.seen && i <= r.used
    ensures (r.status == ErrNone || r.status == ErrEof)
    ensures r.status == ErrNone ==> r.used < r.seen
    decreases |s| - i
  {
    if i == |s| then Numeral(ErrEof, text, decimal, i, seen)
    else
      var ch := s[i];
      if !IsDigit(ch) && ch != '.' && Lower(ch) != 'e' then Numeral(ErrNone, text, decimal, i, Max(seen, i + 1))
      else if ch == '.' || Lower(ch) == 'e' then
        if decimal then Numeral(ErrNone, text, decimal, i, Max(seen, i + 1))
        else if i + 1 == |s| then Numeral(ErrEof, text, decimal, i + 1, i + 1)
        else if Lower(ch) == 'e' then
          NumeralFrom(s, i + 1, Max(seen, i + 2), true, text + (if s[i + 1] == '-' then "e-" else [ch]))
        else if !IsDigit(s[i + 1]) then Numeral(ErrNone, text, decimal, i, Max(seen, i + 2))
        else NumeralFrom(s, i + 1, Max(seen, i + 2), true, text + ['.'])
      else NumeralFrom(s, i + 1, Max(seen, i + 1), decimal, text + [ch])
  }

  /** A suffix letter of a number literal, once upper-cased. */
  predicate IsSuffixLetter(c: char)
  {
    c == 'L' || c == 'U' || c == 'F'
  }

  /** The suffix letters (L, U, F in either case) from index i, in upper case. */
  function SuffixRun(s: seq<char>, i: nat): (suf: seq<char>)
    requires i <= |s|
    ensures i + |suf| <= |s|
    ensures forall k :: 0 <= k < |suf| ==> suf[k] == Upper(s[i + k]) && IsSuffixLetter(suf[k])
    ensures i + |suf| < |s| ==> !IsSuffixLetter(Upper(s[i + |suf|]))
    decreases |s| - i
  {
    if i == |s| || !IsSuffixLetter(Upper(s[i])) then [] else [Upper(s[i])] + SuffixRun(s, i + 1)
  }

  /** The verdict on a suffix string: a message, or which of L, U and F it holds. */
  datatype Suffixes = Illegal(msg: Message) | Counts(long: bool, unsigned: bool, float: bool)

  /**
   * The suffix check of read_number over suf, with l, u and f recording the
   * letters already met: a second L, a U after a decimal point or a second
   * U, and an F after a U or a second F are each illegal.
   */
  function CheckSuffixes(suf: seq<char>, decimal: bool, l: bool, u: bool, f: bool): (r: Suffixes)
    requires forall k :: 0 <= k < |suf| ==> IsSuffixLetter(suf[k])
    decreases |suf|
  {
    if suf == [] then Counts(l, u, f)
    else if suf[0] == 'L' then
      if l then Illegal(ExcessL) else CheckSuffixes(suf[1..], decimal, true, u, f)
    else if suf[0] == 'U' then
      if decimal || u then Illegal(UnsignedFloat) else CheckSuffixes(suf[1..], decimal, l, true, f)
    else
      if u then Illegal(UnsignedWithF)
      else if f then Illegal(ExcessF)
      else CheckSuffixes(suf[1..], decimal, l, u, true)
  }

  /** mk_number_literal_type: unsigned and floating together is NONE. */
  function NumberType(long: bool, unsigned: bool, floating: bool): (t: TokenType)
    ensures t == NoneTok <==> unsigned && floating
  {
    if unsigned && floating then NoneTok
    else if floating then (if long then LitF64 else LitF32)
    else if long then (if unsigned then LitU64 else LitI64)
    else if unsigned then LitU32 else LitI32
  }

  /** A number literal: its type and the text its value is read from. */
  datatype NumLit = NumLit(typ: TokenType, text: seq<char>)

  /** read_number. */
  function Number(s: seq<char>): (r: Read<NumLit>)
    ensures r.Within(|s|)
    ensures (r.status == ErrNone || r.status == ErrEof || r.status == ErrNoTok || r.status == ErrBadTok)
    ensures r.status == ErrNone ==> r.used >= 1 && r.value.typ != NoneTok
    ensures r.status == ErrNoTok ==> r.err.Some?
    ensures r.err.Some? ==> (r.status == ErrNoTok || r.status == ErrBadTok)
  {
    if |s| == 0 then Read(ErrEof, NumLit(NoneTok, []), 0, 0, None)
    else if !IsDigit(s[0]) then Read(ErrNoTok, NumLit(NoneTok, []), 0, 1, Some(ExpectedDigit(s[0])))
    else
      var n := NumeralFrom(s, 0, 1, false, []);
      if n.status != ErrNone then Read(n.status, NumLit(NoneTok, n.text), n.used, n.seen, None)
      else NumberTail(s, n)
  }

  /** The rest of read_number after a numeral n: the suffix letters, their check, and the literal's type. */
  function NumberTail(s: seq<char>, n: Numeral): (r: Read<NumLit>)
    requires n.used <= n.seen <= |s|
    ensures n.seen <= r.seen <= |s| && n.used <= r.used <= r.seen
    ensures r.status == ErrNone || r.status == ErrBadTok
    ensures r.status == ErrNone ==> r.value.typ != NoneTok
    ensures r.err.Some? ==> r.status == ErrBadTok
  {
    var suf := SuffixRun(s, n.used);
    var used := n.used + |suf|;
    Judgement(CheckSuffixes(suf, n.decimal, false, false, false), n.decimal, n.text, used, Max(n.seen, if used < |s| then used + 1 else used))
  }

  /** The end of read_number: BAD_TOK for an illegal suffix or a NONE type, else the literal with its type. */
  function Judgement(verdict: Suffixes, decimal: bool, text: seq<char>, used: nat, seen: nat): (r: Read<NumLit>)
    ensures r.used == used && r.seen == seen
    ensures r.status == ErrNone || r.status == ErrBadTok
    ensures r.status == ErrNone ==> r.value.typ != NoneTok && r.value.text == text
    ensures r.err.Some? ==> verdict.Illegal? && r.status == ErrBadTok
  {
    match verdict
    case Illegal(m) => Read(ErrBadTok, NumLit(NoneTok, text), used, seen, Some(m))
    case Counts(l, u, f) =>
      var t := NumberType(l, u, f || decimal);
      if t == NoneTok then Read(ErrBadTok, NumLit(NoneTok, text), used, seen, None)
      else Read(ErrNone, NumLit(t, text), used, seen, None)
  }

  const I32_HALF: nat := 0x8000_0000

  /** A conversion to int32_t (modulo 2^32). */
  function AsI32(x: int): (r: int)
    ensures -(I32_HALF as int) <= r < I32_HALF
  {
    var m := x % Str.U32_LIMIT;
    if m >= I32_HALF then m - Str.U32_LIMIT else m
  }

  /** The member of the token's data union read_number sets (floating values are not modelled). */
  function LiteralData(t: TokenType, text: seq<char>): (d: int)
  {
    match t
    case LitI32 => AsI32(Str.SvToI64(text))
    case LitI64 => Str.SvToI64(text)
    case LitU32 => Str.ParseU64(text) % Str.U32_LIMIT
    case LitU64 => Str.ParseU64(text)
    case _ => 0
  }

  /* ---------------------------------------------------------------- */
  /* One token (read_token). */

  /** The length of the run of white space that starts the input. */
  function SpaceRun(s: seq<char>): (k: nat)
    ensures k <= |s| && (k < |s| ==> !IsSpace(s[k]))
    ensures forall m :: 0 <= m < k ==> IsSpace(s[m])
  {
    if s == [] || !IsSpace(s[0]) then 0 else 1 + SpaceRun(s[1..])
  }

  /** The single-byte punctuation read_token handles itself. */
  function Punctuation(c: char): Option<TokenType>
  {
    if c == ';' then Some(Semicolon)
    else if c == '(' then Some(ParenLeft)
    else if c == ')' then Some(ParenRight)
    else if c == '[' then Some(SubscriptLeft)
    else if c == ']' then Some(SubscriptRight)
    else if c == '{' then Some(BraceLeft)
    else if c == '}' then Some(BraceRight)
    else if c == '$' then Some(Dollar)
    else if c == '#' then Some(Hash)
    else if c == ',' then Some(Comma)
    else None
  }

  /** The bytes read_token hands to read_operator. */
  predicate IsOperatorStart(c: char)
  {
    || c == ':' || c == '.' || c == '+' || c == '-' || c == '*' || c == '/' || c == '%' || c == '&' || c == '|'
    || c == '\\' || c == '<' || c == '>' || c == '=' || c == '!' || c == '~' || c == '@' || c == '^' || c == '?'
  }

  /**
   * The outcome of read_token: status, token fields, progress, and `start`,
   * how far the lexer had looked when it took the token's position.
   */
  datatype Scan = Scan(status: Status, typ: TokenType, contents: seq<char>, data: int,
                       used: nat, seen: nat, start: nat, err: Option<Message>)

  /** A reader's outcome as read_token's, for a reader started at p. */
  function Lifted<T>(r: Read<T>, p: nat, start: nat, typ: TokenType, contents: seq<char>, data: int): (o: Scan)
  {
    Scan(r.status, typ, contents, data, p + r.used, Max(start, p + r.seen), start, r.err)
  }

  /** A word: a keyword or an identifier, with the word as its contents. */
  function WordToken(s: seq<char>, p: nat, start: nat): (r: Scan)
    requires p <= start <= |s|
    ensures r.used <= r.seen <= |s| && p <= r.used && r.start <= r.seen
    ensures r.status == ErrNone ==> r.used > p && (r.typ == Identifier || r.typ.IsKeyword())
    ensures r.err.Some? ==> (r.status == ErrNoTok || r.status == ErrBadTok)
  {
    var w := Wordlike(s[p..]);
    if w.status != ErrNone then Lifted(w, p, start, NoneTok, [], 0)
    else Lifted(w, p, start, ClassifyWordlike(w.value), w.value, 0)
  }

  /** A number literal, with its value in the data member. */
  function NumberToken(s: seq<char>, p: nat, start: nat): (r: Scan)
    requires p <= start <= |s|
    ensures r.used <= r.seen <= |s| && p <= r.used && r.start <= r.seen
    ensures r.status == ErrNone ==> r.used > p && r.typ != Eof && r.typ != NoneTok
    ensures r.err.Some? ==> (r.status == ErrNoTok || r.status == ErrBadTok)
  {
    var n := Number(s[p..]);
    if n.status != ErrNone then Lifted(n, p, start, NoneTok, [], 0)
    else Lifted(n, p, start, n.value.typ, [], LiteralData(n.value.typ, n.value.text))
  }

  /** A string or char literal; a char literal of more than one byte is BAD_TOK. */
  function StringToken(s: seq<char>, p: nat, start: nat, quote: char): (r: Scan)
    requires p <= start <= |s|
    ensures r.used <= r.seen <= |s| && p <= r.used && r.start <= r.seen
    ensures r.status == ErrNone ==> r.used > p && (r.typ == LitStrDouble || r.typ == LitStrSingle)
    ensures r.err.Some? ==> (r.status == ErrNoTok || r.status == ErrBadTok)
  {
    var q := Stringlike(s[p..], quote);
    if q.status != ErrNone then Lifted(q, p, start, NoneTok, [], 0)
    else if quote == '\'' && |q.value| > 1 then
      Scan(ErrBadTok, NoneTok, [], 0, p + q.used, Max(start, p + q.seen), start, Some(MultibyteChar))
    else Lifted(q, p, start, if quote == '"' then LitStrDouble else LitStrSingle, q.value, 0)
  }

  /** An operator. */
  function OperatorToken(s: seq<char>, p: nat, start: nat): (r: Scan)
    requires p <= start <= |s|
    ensures r.used <= r.seen <= |s| && p <= r.used && r.start <= r.seen
    ensures r.status == ErrNone ==> r.used > p && r.typ != Eof && r.typ != NoneTok
    ensures r.err.Some? ==> (r.status == ErrNoTok || r.status == ErrBadTok)
  {
    var o := Operator(s[p..]);
    Lifted(o, p, start, if o.status == ErrNone then o.value else NoneTok, [], 0)
  }

  /**
   * The token that read_token reads at p, dispatching on its first byte c,
   * with the position taken once the lexer had looked `start` bytes far.
   */
  function Dispatch(s: seq<char>, p: nat, start: nat, c: char): (r: Scan)
    requires p <= start <= |s|
    ensures r.used <= r.seen <= |s| && p <= r.used && r.start == start <= r.seen
    ensures r.status == ErrNone ==> r.used > p && r.typ != Eof && r.typ != NoneTok
    ensures r.err.Some? ==> (r.status == ErrNoTok || r.status == ErrBadTok)
    ensures p == |s| || s[p] == c ==> (r.status == ErrNone || r.status == ErrEof || r.status == ErrBadTok || r.status == ErrUnknownChar)
  {
    if IsWordStart(c) then WordToken(s, p, start)
    else if IsDigit(c) then NumberToken(s, p, start)
    else if Punctuation(c).Some? then
      if p == |s| then Scan(ErrEof, NoneTok, [], 0, p, start, start, None)
      else Scan(ErrNone, Punctuation(c).value, [], 0, p + 1, Max(start, p + 1), start, None)
    else if c == '"' || c == '\'' then StringToken(s, p, start, c)
    else if IsOperatorStart(c) then OperatorToken(s, p, start)
    else Scan(ErrUnknownChar, NoneTok, [], 0, p, start, start, None)
  }

  /**
   * read_token: white space is skipped; a comment is consumed and yields no
   * token; otherwise the token's position is taken after its first byte
   * has been looked at.
   */
  function TokenAt(s: seq<char>): (r: Scan)
    ensures r.used <= r.seen <= |s| && r.start <= r.seen
    ensures (r.status == ErrNone || r.status == DontPushTok) ==> r.used > 0
    ensures r.status == ErrNone ==> r.typ != Eof && r.typ != NoneTok
    ensures (r.status == ErrNone || r.status == DontPushTok || r.status == ErrEof || r.status == ErrBadTok || r.status == ErrUnknownChar)
    ensures r.err.Some? ==> r.status == ErrBadTok
  {
    var k := SpaceRun(s);
    if k == |s| then Scan(ErrEof, NoneTok, [], 0, k, k, k, None)
    else if s[k] == '/' then
      var cm := Comment(s[k..]);
      if cm.status == ErrNone then
        var u := k + cm.used;
        Scan(DontPushTok, NoneTok, [], 0, u, if u < |s| then u + 1 else u, u, None)
      else
        // The switch still sees the slash and hands it to read_operator where read_comment stopped.
        OperatorToken(s, k + cm.used, k + cm.seen)
    else Dispatch(s, k, k + 1, s[k])
  }

  /* ---------------------------------------------------------------- */
  /* The whole input (gramina_lex). */

  /** Where the token loop stops: the tokens so far, the stopping status, the stream index and the message. */
  datatype Outcome = Outcome(tokens: seq<Token>, status: Status, idx: nat, err: Option<Message>)

  /** put_err: a message is recorded only while none is pending. */
  function Kept(pending: Option<Message>, m: Option<Message>): (r: Option<Message>)
    ensures pending.Some? ==> r == pending
    ensures pending.None? ==> r == m
  {
    if pending.None? then m else pending
  }

  /** One turn of the token loop: go on from a new cursor, or stop with an outcome. */
  datatype Step =
    | Continue(c: nat, idx: nat, tokens: seq<Token>, err: Option<Message>)
    | Stop(outcome: Outcome)

  /**
   * One turn of the token loop at cursor c with the stream at idx: a token
   * read is appended, a comment is skipped, and any other status stops the
   * loop. put_err keeps only the first message.
   */
  function LexStep(src: seq<char>, c: nat, idx: nat, tokens: seq<Token>, err: Option<Message>): (st: Step)
    requires c <= idx <= |src|
    ensures st.Continue? ==> c < st.c <= st.idx <= |src| && st.err == err
    ensures st.Stop? ==> st.outcome.tokens == tokens && st.outcome.idx <= |src|
    ensures st.Stop? ==> st.outcome.status == ErrEof || st.outcome.status == ErrBadTok || st.outcome.status == ErrUnknownChar
    ensures st.Stop? && err.Some? ==> st.outcome.err == err
    ensures st.Stop? && err.None? && st.outcome.err.Some? ==> st.outcome.status == ErrBadTok
  {
    StepOn(src, c, idx, tokens, err, TokenAt(src[c..]))
  }

  /** The turn of LexStep once the token at the cursor has been scanned as r. */
  function StepOn(src: seq<char>, c: nat, idx: nat, tokens: seq<Token>, err: Option<Message>, r: Scan): Step
    requires c <= idx <= |src| && c + r.seen <= |src| && r.start <= r.seen
  {
    var idx' := Max(idx, c + r.seen);
    var err' := Kept(err, r.err);
    if r.status == ErrNone then
      var tok := Token(r.typ, r.contents, r.data, 0, PosAfter(src[..Max(idx, c + r.start)]));
      Continue(c + r.used, idx', tokens + [tok], err')
    else if r.status == DontPushTok then Continue(c + r.used, idx', tokens, err')
    else Stop(Outcome(tokens, r.status, idx', err'))
  }

  /** The token loop from cursor c with the stream at idx, until a turn stops it. */
  function LexFrom(src: seq<char>, c: nat, idx: nat, tokens: seq<Token>, err: Option<Message>): (o: Outcome)
    requires c <= idx <= |src|
    ensures o.status == ErrEof || o.status == ErrBadTok || o.status == ErrUnknownChar
    ensures o.idx <= |src|
    decreases |src| - c
  {
    match LexStep(src, c, idx, tokens, err)
    case Stop(o) => o
    case Continue(c', idx', tokens', err') => LexFrom(src, c', idx', tokens', err')
  }

  /** struct gramina_lex_result. */
  datatype LexResult = LexResult(tokens: seq<Token>, status: Status, errorPosition: Position, errorDescription: Option<Message>)

  /** The position of the closing EOF token: one column past the last token, or 1:1 when there is none. */
  function EofPosition(tokens: seq<Token>): Position
  {
    if |tokens| > 0 then
      var p := tokens[|tokens| - 1].pos;
      Position(p.line, p.column + 1, p.depth + 1)
    else Position(1, 1, 0)
  }

  /**
   * gramina_lex: the tokens read, then an EOF token; running out of input
   * is not an error.
   */
  function Lex(src: seq<char>): (r: LexResult)
  {
    var o := LexFrom(src, 0, 0, [], None);
    LexResult(o.tokens + [Token(Eof, [], 0, 0, EofPosition(o.tokens))],
              if o.status == ErrEof then ErrNone else o.status,
              PosAfter(src[..o.idx]), o.err)
  }
}

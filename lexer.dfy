/**
 * The lexer of src/parser/lexer.c as a state machine over its input. The
 * state is the stream index, the position, the one-byte push-back (`put`)
 * and peek (`peeked`) slots, the pending error message and the token list.
 * Every reader is proved to do what the matching function of LexSpec says
 * about the input that is still pending.
 */
module Lexer {
  import opened Wrappers
  import opened Token
  import opened LexSpec
  import Str
  import opened LexStream
  import LexProps

  lemma {:induction false} DropDrop(s: seq<char>, a: nat, b: nat)
    requires a + b <= |s|
    ensures s[a..][b..] == s[a + b..]
  {
  }

  /** A reader with outcome r ended with this status and value, and moved the state accordingly. */
  ghost predicate Did<T>(r: Read<T>, status: Status, value: T, c0: nat, i0: nat, e0: Option<Message>, c: nat, i: nat, e: Option<Message>)
  {
    && status == r.status && (status == ErrNone ==> value == r.value)
    && c == c0 + r.used && i == Max(i0, c0 + r.seen)
    && e == Kept(e0, r.err)
  }

  /** The weighted sum of the escape digits s[1..j]. */
  function DigitSum(s: seq<char>, octal: bool, j: nat): int
    requires 1 <= j <= |s| && forall m :: 1 <= m < j ==> IsDigitIn(octal, s[m])
  {
    if j == 1 then 0 else DigitSum(s, octal, j - 1) + DigitValue(octal, s[j - 1]) * Weight(octal, j - 1)
  }

  /**
   * The digit loop of an escape, stated by how many digits n it accepted:
   * all of them, or the input ended, or the byte after them is no digit.
   */
  ghost predicate DigitsRead(s: seq<char>, octal: bool, n: nat, status: Status, value: char)
  {
    && n <= Width(octal) && n + 1 <= |s| && (forall m :: 1 <= m <= n ==> IsDigitIn(octal, s[m]))
    && (status == ErrNone || status == ErrEof || status == ErrBadTok)
    && (status == ErrNone ==> n == Width(octal) && value == (DigitSum(s, octal, n + 1) % 256) as char)
    && (status == ErrEof ==> n < Width(octal) && n + 1 == |s|)
    && (status == ErrBadTok ==> n < Width(octal) && n + 1 < |s| && !IsDigitIn(octal, s[n + 1]))
  }

  /** EscapeDigits says what DigitsRead says. */
  lemma {:induction false} DigitsReadSpec(s: seq<char>, octal: bool, n: nat, status: Status, value: char, j: nat)
    requires DigitsRead(s, octal, n, status, value)
    requires 1 <= j <= n + 1
    ensures var r := EscapeDigits(s, octal, j, DigitSum(s, octal, j));
            && r.status == status && (status == ErrNone ==> r.value == value)
            && r.used == n + 1 && r.seen == (if status == ErrBadTok then n + 2 else n + 1)
            && r.err == (if status == ErrBadTok then Some(DigitError(octal, s[n + 1])) else None)
    decreases n + 1 - j
  {
    if j <= n {
      DigitsReadSpec(s, octal, n, status, value, j + 1);
    }
  }


  /**
   * A turn of read_stringlike at a backslash at index c0 + i: whatever
   * read_escape did after it is the step StringFrom takes there.
   */
  lemma {:induction false} StringEscapeStep(src: seq<char>, c0: nat, quote: char, i: nat, acc: seq<char>, status: Status, value: char,
                         c: nat, idx0: nat, idx: nat, e0: Option<Message>, e: Option<Message>)
    requires 1 <= i && c0 + i < |src| && c0 + i < idx0 && src[c0 + i] == '\\'
    requires Did(Escape(src[c0 + i + 1..], quote), status, value, c0 + i + 1, Max(idx0, c0 + i + 1), e0, c, idx, e)
    ensures status != ErrNone ==> Did(StringFrom(src[c0..], quote, i, acc), status, acc, c0, idx0, e0, c, idx, e)
    ensures status == ErrNone ==> && c0 + i + 1 < c <= |src| && idx == Max(idx0, c) && e == e0
                                  && StringFrom(src[c0..], quote, c - c0, acc + [value]) == StringFrom(src[c0..], quote, i, acc)
  {
    DropDrop(src, c0, i + 1);
  }

  /** The step StringFrom takes at any other byte, at index c0 + i of the stream. */
  lemma {:induction false} StringFromPlain(src: seq<char>, c0: nat, quote: char, i: nat, acc: seq<char>)
    requires 1 <= i && c0 + i < |src| && src[c0 + i] != '\\'
    ensures StringFrom(src[c0..], quote, i, acc)
            == if src[c0 + i] == quote then Read(ErrNone, acc, i + 1, i + 1, None)
               else StringFrom(src[c0..], quote, i + 1, acc + [src[c0 + i]])
  {
  }

  /** SuffixRun read from index c0 + u of the stream is SuffixRun read from u of what follows c0. */
  lemma {:induction false} SuffixRunShift(src: seq<char>, c0: nat, u: nat)
    requires c0 + u <= |src|
    ensures SuffixRun(src[c0..], u) == SuffixRun(src, c0 + u)
    decreases |src| - c0 - u
  {
    if c0 + u < |src| && IsSuffixLetter(Upper(src[c0 + u])) {
      SuffixRunShift(src, c0, u + 1);
    }
  }

  /** The steps NumeralFrom takes at index c0 + i of the stream, except at a first `.` or `e`. */
  lemma {:induction false} NumeralPlain(src: seq<char>, c0: nat, i: nat, seen: nat, decimal: bool, text: seq<char>)
    requires i <= seen <= |src| - c0
    ensures var r := NumeralFrom(src[c0..], i, seen, decimal, text);
            && (c0 + i == |src| ==> r == Numeral(ErrEof, text, decimal, i, seen))
            && (c0 + i < |src| && IsDigit(src[c0 + i]) ==> r == NumeralFrom(src[c0..], i + 1, Max(seen, i + 1), decimal, text + [src[c0 + i]]))
            && (c0 + i < |src| && !IsDigit(src[c0 + i]) && (decimal || (src[c0 + i] != '.' && Lower(src[c0 + i]) != 'e'))
                ==> r == Numeral(ErrNone, text, decimal, i, Max(seen, i + 1)))
  {
  }

  /** The steps NumeralFrom takes at a first `.` or `e`, at index c0 + i of the stream. */
  lemma {:induction false} NumeralMarkStep(src: seq<char>, c0: nat, i: nat, seen: nat, text: seq<char>)
    requires i <= seen <= |src| - c0 && c0 + i < |src| && (src[c0 + i] == '.' || Lower(src[c0 + i]) == 'e')
    ensures var r := NumeralFrom(src[c0..], i, seen, false, text);
            var ch := src[c0 + i];
            && (c0 + i + 1 == |src| ==> r == Numeral(ErrEof, text, false, i + 1, i + 1))
            && (c0 + i + 1 < |src| && Lower(ch) == 'e'
                ==> r == NumeralFrom(src[c0..], i + 1, Max(seen, i + 2), true, text + (if src[c0 + i + 1] == '-' then "e-" else [ch])))
            && (c0 + i + 1 < |src| && Lower(ch) != 'e' && !IsDigit(src[c0 + i + 1]) ==> r == Numeral(ErrNone, text, false, i, Max(seen, i + 2)))
            && (c0 + i + 1 < |src| && Lower(ch) != 'e' && IsDigit(src[c0 + i + 1])
                ==> r == NumeralFrom(src[c0..], i + 1, Max(seen, i + 2), true, text + ['.']))
  {
  }

  /** The suffix letters from index c0 on, told apart by the byte that ends them. */
  lemma {:induction false} SuffixRunIs(src: seq<char>, c0: nat, suffixes: seq<char>)
    requires c0 + |suffixes| <= |src|
    requires forall k :: c0 <= k < c0 + |suffixes| ==> IsSuffixLetter(Upper(src[k])) && suffixes[k - c0] == Upper(src[k])
    requires c0 + |suffixes| == |src| || !IsSuffixLetter(Upper(src[c0 + |suffixes|]))
    ensures suffixes == SuffixRun(src, c0)
    decreases |suffixes|
  {
    if suffixes != [] {
      assert IsSuffixLetter(Upper(src[c0])) && suffixes[0] == Upper(src[c0]);
      SuffixRunIs(src, c0 + 1, suffixes[1..]);
    }
  }

  /** NumberTail at c0 in terms of the suffix letters and the verdict on them. */
  lemma {:induction false} NumberTailOf(src: seq<char>, c0: nat, c1: nat, n: Numeral, suffixes: seq<char>, verdict: Suffixes)
    requires n.used <= n.seen <= |src| - c0 && c1 == c0 + n.used && suffixes == SuffixRun(src, c1)
    requires verdict == CheckSuffixes(suffixes, n.decimal, false, false, false)
    ensures var s, used := src[c0..], n.used + |suffixes|;
            NumberTail(s, n) == Judgement(verdict, n.decimal, n.text, used, Max(n.seen, if used < |s| then used + 1 else used))
  {
    var s := src[c0..];
    SuffixRunShift(src, c0, n.used);
    assert SuffixRun(s, n.used) == suffixes;
  }

  /** What read_number's tail did: Judge's outcome, with the reads the suffix loop made. */
  predicate Judged(verdict: Suffixes, decimal: bool, text: seq<char>, status: Status, lit: NumLit)
  {
    var r := Judgement(verdict, decimal, text, 0, 0);
    status == r.status && (status == ErrNone ==> lit == r.value)
  }

  /** What read_number's tail did, stated as Did of NumberTail. */
  lemma {:induction false} NumberTailDid(src: seq<char>, c0: nat, c1: nat, n: Numeral, suffixes: seq<char>, verdict: Suffixes,
                                         status: Status, lit: NumLit, i0: nat, e0: Option<Message>, c: nat, i: nat, e: Option<Message>)
    requires n.used <= n.seen <= |src| - c0 && c1 == c0 + n.used && suffixes == SuffixRun(src, c1) && c0 + n.seen <= i0
    requires verdict == CheckSuffixes(suffixes, n.decimal, false, false, false)
    requires c == c1 + |suffixes| && i == Max(i0, if c < |src| then c + 1 else c)
    requires Judged(verdict, n.decimal, n.text, status, lit)
    requires e == Kept(e0, if verdict.Illegal? then Some(verdict.msg) else None)
    ensures Did(NumberTail(src[c0..], n), status, lit, c0, i0, e0, c, i, e)
  {
    NumberTailOf(src, c0, c1, n, suffixes, verdict);
  }

  /**
   * The suffix check of read_number: counts of L, U and F over the suffix
   * letters, with the first excess or clash ending the check.
   */
  method CheckSuffixLetters(suffixes: seq<char>, decimal: bool) returns (r: Suffixes)
    requires forall k :: 0 <= k < |suffixes| ==> IsSuffixLetter(suffixes[k])
    ensures r == CheckSuffixes(suffixes, decimal, false, false, false)
  {
    var lCount, uCount, fCount := 0, 0, 0;
    var k := 0;
    while k < |suffixes|
      invariant 0 <= k <= |suffixes| && lCount <= 1 && uCount <= 1 && fCount <= 1
      invariant CheckSuffixes(suffixes[k..], decimal, lCount > 0, uCount > 0, fCount > 0)
                == CheckSuffixes(suffixes, decimal, false, false, false)
    {
      assert suffixes[k..][1..] == suffixes[k + 1..];
      var c := suffixes[k];
      if c == 'L' {
        lCount := lCount + 1;
        if lCount > 1 {
          return Illegal(ExcessL);
        }
      } else if c == 'U' {
        uCount := uCount + 1;
        if decimal || uCount > 1 {
          return Illegal(UnsignedFloat);
        }
      } else {
        fCount := fCount + 1;
        if uCount > 0 {
          return Illegal(UnsignedWithF);
        }
        if fCount > 1 {
          return Illegal(ExcessF);
        }
      }
      k := k + 1;
    }
    assert suffixes[k..] == [];
    return Counts(lCount > 0, uCount > 0, fCount > 0);
  }

  /** read_token ended with this status and token fields, and moved the state as the scan r says. */
  ghost predicate Scanned(r: Scan, status: Status, typ: TokenType, contents: seq<char>, data: int,
                          c0: nat, i0: nat, e0: Option<Message>, c: nat, i: nat, e: Option<Message>)
  {
    && status == r.status && (status == ErrNone ==> typ == r.typ && contents == r.contents && data == r.data)
    && c == c0 + r.used && i == Max(i0, c0 + r.seen)
    && e == Kept(e0, r.err)
  }

  /** A reader started at index p of the input from c0, which had been looked at up to start. */
  lemma {:induction false} LiftedScanned<T>(r: Read<T>, p: nat, start: nat, typ: TokenType, contents: seq<char>, data: int,
                                            status: Status, value: T, c0: nat, i0: nat, e0: Option<Message>, c: nat, i: nat, e: Option<Message>)
    requires Did(r, status, value, c0 + p, i0, e0, c, i, e) && p <= start && c0 + start <= i0
    ensures Scanned(Lifted(r, p, start, typ, contents, data), status, typ, contents, data, c0, i0, e0, c, i, e)
  {
  }

  /** One more byte of white space. */
  lemma {:induction false} SpaceRunStep(src: seq<char>, c0: nat, c: nat)
    requires c0 <= c < |src| && IsSpace(src[c])
    requires SpaceRun(src[c0..]) == (c - c0) + SpaceRun(src[c..])
    ensures SpaceRun(src[c0..]) == (c + 1 - c0) + SpaceRun(src[c + 1..])
  {
    assert src[c..][1..] == src[c + 1..];
  }

  /** The end of the white space. */
  lemma {:induction false} SpaceRunStop(src: seq<char>, c0: nat, c: nat)
    requires c0 <= c <= |src| && (c < |src| ==> !IsSpace(src[c]))
    requires SpaceRun(src[c0..]) == (c - c0) + SpaceRun(src[c..])
    ensures SpaceRun(src[c0..]) == c - c0
  {
  }

  /** Input that is all white space ends read_token with EOF. */
  lemma {:induction false} TokenAtBlank(s: seq<char>)
    requires SpaceRun(s) == |s|
    ensures TokenAt(s) == Scan(ErrEof, NoneTok, [], 0, |s|, |s|, |s|, None)
  {
  }

  /** A whole comment after the white space is consumed and yields no token. */
  lemma {:induction false} TokenAtComment(s: seq<char>, k: nat, cm: Read<()>)
    requires k == SpaceRun(s) && k < |s| && s[k] == '/' && cm == Comment(s[k..]) && cm.status == ErrNone
    ensures TokenAt(s) == Scan(DontPushTok, NoneTok, [], 0, k + cm.used, if k + cm.used < |s| then k + cm.used + 1 else k + cm.used, k + cm.used, None)
  {
  }

  /** A slash that starts no whole comment goes to read_operator where the comment reader stopped. */
  lemma {:induction false} TokenAtSlash(s: seq<char>, k: nat, cm: Read<()>)
    requires k == SpaceRun(s) && k < |s| && s[k] == '/' && cm == Comment(s[k..]) && cm.status != ErrNone
    ensures TokenAt(s) == OperatorToken(s, k + cm.used, k + cm.seen) && 1 <= cm.seen
    ensures TokenAt(s).start == k + cm.seen
  {
  }

  /**
   * read_token, started at cursor c0 with the stream at i0 and the pending
   * message e0, ended with this status and token and left the state at
   * cursor c, stream index i and pending message e.
   */
  ghost predicate TokenRead(src: seq<char>, c0: nat, i0: nat, e0: Option<Message>, status: Status, tok: Token, c: nat, i: nat, e: Option<Message>)
    requires c0 <= |src| && i0 <= |src|
  {
    var r := TokenAt(src[c0..]);
    && Scanned(r, status, tok.typ, tok.contents, tok.data, c0, i0, e0, c, i, e)
    && (status == ErrNone ==> tok.flags == 0 && tok.pos == PosAfter(src[..Max(i0, c0 + r.start)]))
  }

  /** read_token at index c0 that found only white space up to the end. */
  lemma {:induction false} ReadTokenEnd(src: seq<char>, c0: nat, i0: nat, e0: Option<Message>, status: Status, tok: Token, c: nat, i: nat)
    requires i0 <= |src| && c0 <= |src| && c == c0 + SpaceRun(src[c0..]) && c == |src| && status == ErrEof && i == Max(i0, c)
    ensures TokenRead(src, c0, i0, e0, status, tok, c, i, e0)
  {
    TokenAtBlank(src[c0..]);
  }

  /** read_token at index c0 that consumed a comment after the white space ending at c0 + k. */
  lemma {:induction false} ReadTokenComment(src: seq<char>, c0: nat, i0: nat, e0: Option<Message>, tok: Token,
                                            k: nat, im: nat, c: nat, i: nat, e: Option<Message>)
    requires i0 <= |src| && c0 <= |src| && k == SpaceRun(src[c0..]) && c0 + k < |src| && src[c0 + k] == '/'
    requires Did(Comment(src[c0 + k..]), ErrNone, (), c0 + k, Max(i0, c0 + k + 1), e0, c, im, e)
    requires c < |src| ==> i == Max(im, c + 1)
    requires c >= |src| ==> i == Max(im, c)
    ensures TokenRead(src, c0, i0, e0, DontPushTok, tok, c, i, e)
  {
    DropDrop(src, c0, k);
    TokenAtComment(src[c0..], k, Comment(src[c0 + k..]));
  }

  /** read_token at index c0 that reached its switch on the byte after the white space ending at c0 + k. */
  lemma {:induction false} ReadTokenPlain(src: seq<char>, c0: nat, i0: nat, e0: Option<Message>, k: nat, ch: char,
                                          status: Status, tok: Token, im: nat, c: nat, i: nat, e: Option<Message>)
    requires i0 <= |src| && c0 <= |src| && k == SpaceRun(src[c0..]) && c0 + k < |src| && ch == src[c0 + k] && ch != '/'
    requires im == Max(i0, c0 + k + 1)
    requires Scanned(Dispatch(src[c0..], k, k + 1, ch), status, tok.typ, tok.contents, tok.data, c0, im, e0, c, i, e)
    requires tok.flags == 0 && tok.pos == PosAfter(src[..im])
    ensures TokenRead(src, c0, i0, e0, status, tok, c, i, e)
  {
    assert src[c0..][k] == ch;
    LexProps.TokenAtDispatch(src[c0..], k);
    assert TokenAt(src[c0..]) == Dispatch(src[c0..], k, k + 1, ch);
    assert Max(i0, c0 + TokenAt(src[c0..]).start) == im;
  }

  /** read_token at index c0 that reached its switch after a slash that starts no complete comment. */
  lemma {:induction false} ReadTokenSlash(src: seq<char>, c0: nat, i0: nat, e0: Option<Message>, k: nat, cm: Read<()>,
                                          status: Status, tok: Token, im: nat, c: nat, i: nat, e: Option<Message>)
    requires i0 <= |src| && c0 <= |src| && k == SpaceRun(src[c0..]) && c0 + k < |src| && src[c0 + k] == '/'
    requires cm == Comment(src[c0 + k..]) && cm.status != ErrNone && im == Max(Max(i0, c0 + k + 1), c0 + k + cm.seen)
    requires Scanned(OperatorToken(src[c0..], k + cm.used, k + cm.seen), status, tok.typ, tok.contents, tok.data, c0, im, e0, c, i, e)
    requires tok.flags == 0 && tok.pos == PosAfter(src[..im])
    ensures TokenRead(src, c0, i0, e0, status, tok, c, i, e)
  {
    DropDrop(src, c0, k);
    TokenAtSlash(src[c0..], k, cm);
    assert Max(i0, c0 + TokenAt(src[c0..]).start) == im;
  }

  /** struct tagged_lexer_state, with the source as the bytes it will deliver. */
  class LexerState {
    const src: seq<char>
    var idx: nat
    var pos: Position
    var put: char
    var peeked: char
    var pendingError: Option<Message>
    var tokens: seq<Token>
    /** How many bytes have been consumed. */
    ghost var cursor: nat
    /** positions[k] is the position after k bytes of the stream. */
    ghost const positions: seq<Position>

    /** The class invariant. */
    ghost predicate Valid()
      reads this
    {
      Consistent(src, positions, idx, pos, put, peeked, cursor)
    }

    /** A reader that started at cursor c0 with the stream at i0 consumed `used` bytes and looked `seen` bytes far. */
    ghost predicate Moved(c0: int, i0: nat, used: nat, seen: nat)
      reads this
    {
      cursor == c0 + used && idx == Max(i0, c0 + seen)
    }

    /** The state gramina_lex starts from. */
    constructor (src: seq<char>)
      requires NulFree(src)
      ensures Valid() && this.src == src && cursor == 0 && idx == 0
      ensures pendingError == None && tokens == [] && put == NUL
    {
      this.src := src;
      idx := 0;
      pos := START;
      put := NUL;
      peeked := NUL;
      pendingError := None;
      tokens := [];
      cursor := 0;
      positions := Trace(src);
    }

    lemma {:induction false} CursorInRange()
      requires Valid()
      ensures 0 <= cursor <= idx <= |src|
      ensures cursor < idx ==> src[cursor] == (if put != NUL then put else peeked)
    {
    }

    /** put_err: only the first message is kept; a second one reports OCCUPIED. */
    method PutErr(m: Message) returns (status: Status)
      requires Valid()
      modifies this
      ensures Valid() && pendingError == Kept(old(pendingError), Some(m))
      ensures status == (if old(pendingError).Some? then ErrOccupied else ErrNone)
      ensures cursor == old(cursor) && idx == old(idx) && pos == old(pos) && put == old(put) && peeked == old(peeked) && tokens == old(tokens)
    {
      if pendingError.Some? {
        return ErrOccupied;
      }
      pendingError := Some(m);
      return ErrNone;
    }

    /**
     * unread_ch: the byte goes into the push-back slot, unless that is
     * occupied. Callers only push back the byte they consumed last.
     */
    method UnreadCh(ch: char) returns (status: Status)
      requires Valid()
      requires put == NUL ==> cursor > 0 && src[cursor - 1] == ch
      modifies this
      ensures Valid()
      ensures old(put) != NUL ==> status == ErrOccupied && put == old(put) && cursor == old(cursor)
      ensures old(put) == NUL ==> status == ErrNone && put == ch && cursor == old(cursor) - 1
      ensures idx == old(idx) && pos == old(pos) && peeked == old(peeked)
      ensures pendingError == old(pendingError) && tokens == old(tokens)
    {
      if put != NUL {
        return ErrOccupied;
      }
      put := ch;
      cursor := cursor - 1;
      return ErrNone;
    }

    /**
     * read_ch: one byte from the stream, which moves the position; at the
     * end of the input the stream reports EOF and nothing changes.
     */
    method ReadCh() returns (status: Status, ch: char)
      requires Valid() && put == NUL && peeked == NUL
      modifies this
      ensures idx <= |src| && pos == positions[idx] && cursor == old(cursor)
      ensures old(idx) < |src| ==> status == ErrNone && ch == src[old(idx)] && idx == old(idx) + 1
      ensures old(idx) == |src| ==> status == ErrEof && idx == old(idx)
      ensures put == NUL && peeked == NUL && pendingError == old(pendingError) && tokens == old(tokens)
    {
      if idx == |src| {
        return ErrEof, NUL;
      }
      ch := src[idx];
      pos := StepPos(pos, ch);
      idx := idx + 1;
      status := ErrNone;
    }

    /**
     * peek_ch: the push-back slot first, then the peek slot, and otherwise
     * a byte read from the stream, which stays in the peek slot.
     */
    method PeekCh() returns (status: Status, ch: char)
      requires Valid()
      modifies this
      ensures Valid() && put == old(put) && pendingError == old(pendingError) && tokens == old(tokens)
      ensures old(cursor) < |src| ==> status == ErrNone && ch == src[old(cursor)] && Moved(old(cursor), old(idx), 0, 1)
      ensures old(cursor) >= |src| ==> status == ErrEof && Moved(old(cursor), old(idx), 0, 0)
    {
      CursorInRange();
      if put != NUL {
        return ErrNone, put;
      }
      if peeked != NUL {
        return ErrNone, peeked;
      }
      status, ch := ReadCh();
      if status == ErrNone {
        peeked := ch;
      }
    }

    /**
     * consume_ch: empties the push-back slot, else the peek slot, else reads
     * and drops a byte from the stream. The push-back slot is empty afterwards.
     */
    method ConsumeCh() returns (status: Status)
      requires Valid()
      modifies this
      ensures Valid() && put == NUL && pendingError == old(pendingError) && tokens == old(tokens)
      ensures old(cursor) < |src| ==> status == ErrNone && Moved(old(cursor), old(idx), 1, 1)
      ensures old(cursor) >= |src| ==> status == ErrEof && Moved(old(cursor), old(idx), 0, 0)
    {
      CursorInRange();
      if put != NUL {
        put := NUL;
        cursor := cursor + 1;
        return ErrNone;
      }
      if peeked != NUL {
        peeked := NUL;
        cursor := cursor + 1;
        return ErrNone;
      }
      var ch;
      status, ch := ReadCh();
      if status == ErrNone {
        cursor := cursor + 1;
      }
    }

    /** consume_ch, then peek_ch: the byte after the one looked at last. */
    method Advance() returns (status: Status, ch: char)
      requires Valid() && cursor < idx
      modifies this
      ensures Valid() && put == NUL && pendingError == old(pendingError) && tokens == old(tokens)
      ensures old(cursor) + 1 < |src| ==> status == ErrNone && ch == src[old(cursor) + 1] && Moved(old(cursor), old(idx), 1, 2)
      ensures old(cursor) + 1 >= |src| ==> status == ErrEof && Moved(old(cursor), old(idx), 1, 1)
    {
      var _ := ConsumeCh();
      status, ch := PeekCh();
    }

    /**
     * One turn of the digit loops of read_escape: consume the byte looked
     * at, look at the next, and report a byte that is no digit of the base.
     */
    method NextDigit(octal: bool) returns (status: Status, digit: nat)
      requires Valid() && cursor < idx
      modifies this
      ensures Valid() && tokens == old(tokens)
      ensures var c := old(cursor) + 1;
              && (c < |src| && IsDigitIn(octal, src[c]) ==> status == ErrNone && digit == DigitValue(octal, src[c]))
              && (c < |src| && !IsDigitIn(octal, src[c]) ==> status == ErrBadTok)
              && (c < |src| ==> Moved(old(cursor), old(idx), 1, 2))
              && (c >= |src| ==> status == ErrEof && Moved(old(cursor), old(idx), 1, 1))
              && pendingError == (if status == ErrBadTok then Kept(old(pendingError), Some(DigitError(octal, src[c]))) else old(pendingError))
    {
      var ch;
      digit := 0;
      status, ch := Advance();
      if status == ErrNone && !IsDigitIn(octal, ch) {
        var _ := PutErr(DigitError(octal, ch));
        status := ErrBadTok;
      } else if status == ErrNone {
        digit := DigitValue(octal, ch);
      }
    }

    /**
     * The \\x and \\o loops of read_escape, which differ only in the base:
     * each turn consumes the byte looked at last and looks at the next,
     * which must be a digit; mul runs through the digit weights (16, 1 or
     * 64, 8, 1). It stops looking at the last digit, or at the byte that
     * ended the loop early: n digits were accepted.
     */
    method DigitLoop(octal: bool) returns (status: Status, acc: int, ghost n: nat)
      requires Valid() && cursor < idx
      modifies this
      ensures Valid() && tokens == old(tokens)
      ensures var s := src[old(cursor)..];
              && n <= Width(octal) && n + 1 <= |s| && (forall m :: 1 <= m <= n ==> IsDigitIn(octal, s[m]))
              && (status == ErrNone || status == ErrEof || status == ErrBadTok)
              && (status == ErrNone ==> n == Width(octal) && acc == DigitSum(s, octal, n + 1) && Moved(old(cursor), old(idx), n, n + 1))
              && (status == ErrEof ==> n < Width(octal) && n + 1 == |s| && Moved(old(cursor), old(idx), n + 1, n + 1))
              && (status == ErrBadTok ==> n < Width(octal) && n + 1 < |s| && !IsDigitIn(octal, s[n + 1]) && Moved(old(cursor), old(idx), n + 1, n + 2))
              && pendingError == (if status == ErrBadTok then Kept(old(pendingError), Some(DigitError(octal, s[n + 1]))) else old(pendingError))
    {
      ghost var c0, i0, s := cursor, idx, src[cursor..];
      acc := 0;
      var mul: nat := Weight(octal, 1);
      n, status := 0, ErrNone;
      while mul > 0
        invariant Valid() && tokens == old(tokens) && pendingError == old(pendingError)
        invariant status == ErrNone && n <= Width(octal) && n + 1 <= |s| && mul == Weight(octal, n + 1)
        invariant forall m :: 1 <= m <= n ==> IsDigitIn(octal, s[m])
        invariant acc == DigitSum(s, octal, n + 1)
        invariant Moved(c0, i0, n, n + 1)
        decreases mul
      {
        var digit;
        status, digit := NextDigit(octal);
        if status != ErrNone {
          break;
        }
        acc := acc + digit * mul;
        n := n + 1;
        mul := mul / (if octal then 8 else 16);
      }
    }

    /** The \\x and \\o cases of read_escape, with the x or o looked at: the digits and the final consume. */
    method ReadDigitEscape(octal: bool) returns (status: Status, value: char)
      requires Valid() && cursor < idx
      modifies this
      ensures Valid() && tokens == old(tokens)
      ensures Did(EscapeDigits(src[old(cursor)..], octal, 1, 0), status, value, old(cursor), old(idx), old(pendingError), cursor, idx, pendingError)
    {
      ghost var s := src[cursor..];
      var acc;
      ghost var n;
      status, acc, n := DigitLoop(octal);
      value := NUL;
      if status == ErrNone {
        var _ := ConsumeCh();
        value := (acc % 256) as char;
      }
      DigitsReadSpec(s, octal, n, status, value, 1);
    }

    /** read_escape, after the backslash: the byte the escape stands for. */
    method ReadEscape(quote: char) returns (status: Status, value: char)
      requires Valid()
      modifies this
      ensures Valid() && tokens == old(tokens)
      ensures Did(Escape(src[old(cursor)..], quote), status, value, old(cursor), old(idx), old(pendingError), cursor, idx, pendingError)
    {
      ghost var s := src[cursor..];
      var ch;
      status, ch := PeekCh();
      if status != ErrNone {
        return status, NUL;
      }
      if ch == quote {
        var _ := ConsumeCh();
        return ErrNone, quote;
      }
      if SimpleEscape(ch).Some? {
        var _ := ConsumeCh();
        return ErrNone, SimpleEscape(ch).value;
      }
      if ch == 'x' || ch == 'o' {
        status, value := ReadDigitEscape(ch == 'o');
        return;
      }
      var _ := PutErr(InvalidEscape(ch));
      return ErrBadTok, NUL;
    }

    /** read_stringlike: a literal between two quote bytes, with escapes decoded. */
    method ReadStringlike(quote: char) returns (status: Status, contents: seq<char>)
      requires Valid()
      modifies this
      ensures Valid() && tokens == old(tokens)
      ensures Did(Stringlike(src[old(cursor)..], quote), status, contents, old(cursor), old(idx), old(pendingError), cursor, idx, pendingError)
    {
      var ch;
      status, ch := PeekCh();
      if status != ErrNone {
        return status, [];
      }
      if ch != quote {
        var _ := PutErr(ExpectedQuote(quote, ch));
        return ErrNoTok, [];
      }
      var _ := ConsumeCh();
      status, contents := StringBody(quote);
    }

    /** The loop of read_stringlike, after the opening quote. */
    method StringBody(quote: char) returns (status: Status, contents: seq<char>)
      requires Valid() && 1 <= cursor <= idx
      modifies this
      ensures Valid() && tokens == old(tokens)
      ensures Did(StringFrom(src[old(cursor) - 1..], quote, 1, []), status, contents, old(cursor) - 1, old(idx), old(pendingError), cursor, idx, pendingError)
    {
      ghost var c0, i0, s := cursor - 1, idx, src[cursor - 1..];
      ghost var i: nat := 1;
      contents, status := [], ErrNone;
      var done := false;
      while !done
        invariant Valid() && tokens == old(tokens)
        invariant !done ==> 1 <= i <= |s| && cursor == c0 + i && idx == Max(i0, c0 + i) && pendingError == old(pendingError)
        invariant !done ==> StringFrom(s, quote, i, contents) == StringFrom(s, quote, 1, [])
        invariant done ==> Did(StringFrom(s, quote, 1, []), status, contents, c0, i0, old(pendingError), cursor, idx, pendingError)
        decreases !done, |s| - i
      {
        done, status, contents, i := StringTurn(quote, c0, i, contents);
      }
    }

    /**
     * One turn of the loop of read_stringlike, with i bytes of the literal
     * from c0 on consumed: it either ends the literal as StringFrom says, or
     * moves on to a later index with the same outcome ahead.
     */
    method StringTurn(quote: char, ghost c0: nat, ghost i: nat, contents: seq<char>) returns (done: bool, status: Status, contents': seq<char>, ghost i': nat)
      requires Valid() && 1 <= i && c0 + i <= |src| && cursor == c0 + i && c0 + i <= idx
      modifies this
      ensures Valid() && tokens == old(tokens)
      ensures var s := src[c0..];
              && (!done ==> i < i' <= |s| && cursor == c0 + i' && idx == Max(old(idx), c0 + i') && pendingError == old(pendingError)
                            && StringFrom(s, quote, i', contents') == StringFrom(s, quote, i, contents))
              && (done ==> Did(StringFrom(s, quote, i, contents), status, contents', c0, old(idx), old(pendingError), cursor, idx, pendingError))
    {
      ghost var s := src[c0..];
      var ch;
      status, ch := PeekCh();
      contents', i' := contents, i;
      if status != ErrNone {
        done := true;
      } else if ch == '\\' {
        done, status, contents', i' := StringEscape(quote, c0, i, contents);
      } else {
        StringFromPlain(src, c0, quote, i, contents);
        var _ := ConsumeCh();
        done := ch == quote;
        if !done {
          contents', i' := contents + [ch], i + 1;
        }
      }
    }

    /** The escape branch of a turn of read_stringlike, with the backslash looked at. */
    method StringEscape(quote: char, ghost c0: nat, ghost i: nat, contents: seq<char>) returns (done: bool, status: Status, contents': seq<char>, ghost i': nat)
      requires Valid() && 1 <= i && cursor == c0 + i < idx && src[cursor] == '\\'
      modifies this
      ensures Valid() && tokens == old(tokens)
      ensures var s := src[c0..];
              && (!done ==> i < i' <= |s| && cursor == c0 + i' && idx == Max(old(idx), c0 + i') && pendingError == old(pendingError)
                            && StringFrom(s, quote, i', contents') == StringFrom(s, quote, i, contents))
              && (done ==> Did(StringFrom(s, quote, i, contents), status, contents', c0, old(idx), old(pendingError), cursor, idx, pendingError))
    {
      ghost var idx0 := idx;
      var _ := ConsumeCh();
      var value;
      status, value := ReadEscape(quote);
      StringEscapeStep(src, c0, quote, i, contents, status, value, cursor, idx0, idx, old(pendingError), pendingError);
      done := status != ErrNone;
      contents', i' := contents, cursor - c0;
      if !done {
        contents' := contents + [value];
      }
    }

    /**
     * read_bounded_comment, with "/" consumed and "*" looked at: consumes
     * through the first "*" "/" pair that does not use the opener's "*",
     * which ends at index k of the input from the "/" on.
     */
    method BoundedCommentLoop() returns (status: Status, ghost k: nat)
      requires Valid() && 1 <= cursor < idx
      modifies this
      ensures Valid() && tokens == old(tokens) && pendingError == old(pendingError)
      ensures var s := src[old(cursor) - 1..];
              && 2 <= k <= |s| && (k >= 3 ==> Unclosed(s, 3, k))
              && (k < |s| ==> status == ErrNone && k >= 3 && s[k - 1] == '*' && s[k] == '/' && Moved(old(cursor) - 1, old(idx), k + 1, k + 1))
              && (k == |s| ==> status == ErrEof && Moved(old(cursor) - 1, old(idx), k, k))
    {
      ghost var c0, i0, s := cursor - 1, idx, src[cursor - 1..];
      var _ := ConsumeCh();
      var last, ch := NUL, NUL;
      k := 2;
      while true
        invariant Valid() && tokens == old(tokens) && pendingError == old(pendingError)
        invariant 2 <= k <= |s| && Moved(c0, i0, k, k)
        invariant ch == (if k == 2 then NUL else s[k - 1])
        invariant k >= 3 ==> Unclosed(s, 3, k)
        decreases |s| - k
      {
        last := ch;
        status, ch := PeekCh();
        if status != ErrNone {
          return;
        }
        if last == '*' && ch == '/' {
          status := ConsumeCh();
          return;
        }
        status := ConsumeCh();
        k := k + 1;
      }
    }

    /**
     * read_line_comment, with the first "/" consumed and the second looked
     * at: consumes up to, not including, the newline at index k of the
     * input from the first "/" on.
     */
    method LineCommentLoop() returns (status: Status, ghost k: nat)
      requires Valid() && 1 <= cursor < idx
      modifies this
      ensures Valid() && tokens == old(tokens) && pendingError == old(pendingError)
      ensures var s := src[old(cursor) - 1..];
              && 2 <= k <= |s| && (forall m :: 2 <= m < k ==> s[m] != '\n')
              && (k < |s| ==> status == ErrNone && s[k] == '\n' && Moved(old(cursor) - 1, old(idx), k, k + 1))
              && (k == |s| ==> status == ErrEof && Moved(old(cursor) - 1, old(idx), k, k))
    {
      ghost var c0, i0, s := cursor - 1, idx, src[cursor - 1..];
      var _ := ConsumeCh();
      k := 2;
      while true
        invariant Valid() && tokens == old(tokens) && pendingError == old(pendingError)
        invariant 2 <= k <= |s| && Moved(c0, i0, k, k)
        invariant forall m :: 2 <= m < k ==> s[m] != '\n'
        decreases |s| - k
      {
        var ch;
        status, ch := PeekCh();
        if status != ErrNone {
          return;
        }
        if ch == '\n' {
          return ErrNone, k;
        }
        status := ConsumeCh();
        k := k + 1;
      }
    }

    /** read_bounded_comment, as read_comment calls it: after "/" with "*" looked at. */
    method ReadBoundedComment() returns (status: Status)
      requires Valid() && 1 <= cursor < idx && src[cursor - 1] == '/' && src[cursor] == '*'
      modifies this
      ensures Valid() && tokens == old(tokens)
      ensures Did(Comment(src[old(cursor) - 1..]), status, (), old(cursor) - 1, old(idx), old(pendingError), cursor, idx, pendingError)
    {
      ghost var s := src[cursor - 1..];
      ghost var k;
      status, k := BoundedCommentLoop();
      if k >= 3 {
        BlockEndAt(s, 3, k);
      }
    }

    /** read_line_comment, as read_comment calls it: after "/" with "/" looked at. */
    method ReadLineComment() returns (status: Status)
      requires Valid() && 1 <= cursor < idx && src[cursor - 1] == '/' && src[cursor] == '/'
      modifies this
      ensures Valid() && tokens == old(tokens)
      ensures Did(Comment(src[old(cursor) - 1..]), status, (), old(cursor) - 1, old(idx), old(pendingError), cursor, idx, pendingError)
    {
      ghost var s := src[cursor - 1..];
      ghost var k;
      status, k := LineCommentLoop();
      LineEndAt(s, 2, k);
    }

    /** read_comment: a block or line comment, or a slash that is pushed back. */
    method ReadComment() returns (status: Status)
      requires Valid()
      modifies this
      ensures Valid() && tokens == old(tokens)
      ensures Did(Comment(src[old(cursor)..]), status, (), old(cursor), old(idx), old(pendingError), cursor, idx, pendingError)
    {
      ghost var s := src[cursor..];
      var ch;
      status, ch := PeekCh();
      if status == ErrNone && ch != '/' {
        status := ErrNoTok;
      } else if status == ErrNone {
        var _ := ConsumeCh();
        status, ch := PeekCh();
        if status == ErrNone && ch == '*' {
          status := ReadBoundedComment();
        } else if status == ErrNone && ch == '/' {
          status := ReadLineComment();
        } else if status == ErrNone {
          status := UnreadCh('/');
          status := ErrNoTok;
        }
      }
    }

    /** read_operator: the switch on the first byte, by the shape of its case. */
    method ReadOperator() returns (status: Status, typ: TokenType)
      requires Valid()
      modifies this
      ensures Valid() && tokens == old(tokens)
      ensures Did(Operator(src[old(cursor)..]), status, typ, old(cursor), old(idx), old(pendingError), cursor, idx, pendingError)
    {
      ghost var s := src[cursor..];
      var ch;
      status, ch := PeekCh();
      typ := NoneTok;
      if status == ErrNone {
        OperatorByShape(s);
        match ShapeOf(ch)
        case Extensible(options, other) =>
          status, typ := ReadExtensible(options, other);
        case Doublable(single, two, alternate) =>
          status, typ := ReadDoublable(ch, single, two, alternate);
        case Lone(t) =>
          var _ := ConsumeCh();
          typ := t;
        case NotOperator =>
          status := ErrNoTok;
      }
    }

    /** The cases of read_operator where a second byte may extend the first. */
    method ReadExtensible(options: map<char, TokenType>, other: TokenType) returns (status: Status, typ: TokenType)
      requires Valid() && cursor < idx
      modifies this
      ensures Valid() && tokens == old(tokens)
      ensures Did(ShapeRead(src[old(cursor)..], Extensible(options, other)), status, typ, old(cursor), old(idx), old(pendingError), cursor, idx, pendingError)
    {
      var ch;
      status, ch := Advance();
      typ := NoneTok;
      if status == ErrNone && ch in options {
        var _ := ConsumeCh();
        typ := options[ch];
      } else if status == ErrNone {
        typ := other;
      }
    }

    /** The cases of read_operator for `&`, `|` and `\\`, which may be doubled and then take a backquote. */
    method ReadDoublable(first: char, single: Option<TokenType>, two: TokenType, alternate: TokenType) returns (status: Status, typ: TokenType)
      requires Valid() && cursor < idx && src[cursor] == first
      modifies this
      ensures Valid() && tokens == old(tokens)
      ensures Did(ShapeRead(src[old(cursor)..], Doublable(single, two, alternate)), status, typ, old(cursor), old(idx), old(pendingError), cursor, idx, pendingError)
    {
      var ch;
      status, ch := Advance();
      typ := NoneTok;
      if status != ErrNone {
      } else if ch != first {
        if single.Some? {
          typ := single.value;
        } else {
          var _ := PutErr(ExpectedPipe(ch));
          status := ErrBadTok;
        }
      } else {
        status, ch := Advance();
        if status == ErrNone && ch == '`' {
          var _ := ConsumeCh();
          typ := alternate;
        } else if status == ErrNone {
          typ := two;
        }
      }
    }

    /** read_wordlike: a letter or underscore, then letters, digits and underscores. */
    method ReadWordlike() returns (status: Status, contents: seq<char>)
      requires Valid()
      modifies this
      ensures Valid() && tokens == old(tokens)
      ensures Did(Wordlike(src[old(cursor)..]), status, contents, old(cursor), old(idx), old(pendingError), cursor, idx, pendingError)
    {
      ghost var s := src[cursor..];
      var ch;
      status, ch := PeekCh();
      if status != ErrNone {
        return status, [];
      }
      if !IsWordStart(ch) {
        var _ := PutErr(ExpectedWordStart(ch));
        return ErrNoTok, [];
      }
      status, contents := ReadWordRun();
      WordEndAt(s, 0, |contents|);
    }

    /** The loop of read_wordlike, once a word byte has been looked at. */
    method ReadWordRun() returns (status: Status, contents: seq<char>)
      requires Valid() && cursor < idx
      modifies this
      ensures Valid() && tokens == old(tokens) && pendingError == old(pendingError)
      ensures var s := src[old(cursor)..];
              var k := |contents|;
              && k <= |s| && contents == s[..k] && (forall m :: 0 <= m < k ==> IsWordChar(s[m]))
              && (k == |s| ==> status == ErrEof && Moved(old(cursor), old(idx), k, k))
              && (k < |s| ==> status == ErrNone && !IsWordChar(s[k]) && Moved(old(cursor), old(idx), k, k + 1))
    {
      ghost var c0, i0, s := cursor, idx, src[cursor..];
      contents := [];
      while true
        invariant Valid() && tokens == old(tokens) && pendingError == old(pendingError)
        invariant |contents| <= |s| && contents == s[..|contents|] && Moved(c0, i0, |contents|, Max(|contents|, 1))
        invariant forall m :: 0 <= m < |contents| ==> IsWordChar(s[m])
        decreases |s| - |contents|
      {
        var ch;
        status, ch := PeekCh();
        if status != ErrNone {
          return;
        }
        if !IsWordChar(ch) {
          return;
        }
        contents := contents + [ch];
        var _ := ConsumeCh();
      }
    }

    /**
     * read_number: a digit, the numeral, the suffix letters and their
     * check; a literal read in full also carries its integer value.
     */
    method ReadNumber() returns (status: Status, lit: NumLit, data: int)
      requires Valid()
      modifies this
      ensures Valid() && tokens == old(tokens)
      ensures Did(Number(src[old(cursor)..]), status, lit, old(cursor), old(idx), old(pendingError), cursor, idx, pendingError)
      ensures status == ErrNone ==> data == LiteralData(lit.typ, lit.text)
    {
      ghost var c0, s := cursor, src[cursor..];
      var ch;
      status, ch := PeekCh();
      lit, data := NumLit(NoneTok, []), 0;
      if status != ErrNone {
        return;
      }
      if !IsDigit(ch) {
        var _ := PutErr(ExpectedDigit(ch));
        status := ErrNoTok;
        return;
      }
      var text, decimal;
      status, text, decimal := ReadNumeral();
      ghost var n := NumeralFrom(s, 0, 1, false, []);
      if status != ErrNone {
        lit := NumLit(NoneTok, text);
        return;
      }
      status, lit := ReadNumberTail(c0, n, text, decimal);
      if status == ErrNone {
        data := LiteralData(lit.typ, lit.text);
      }
    }

    /** The digit loop of read_number, with its first digit looked at. */
    method ReadNumeral() returns (status: Status, text: seq<char>, decimal: bool)
      requires Valid() && cursor < idx
      modifies this
      ensures Valid() && tokens == old(tokens) && pendingError == old(pendingError)
      ensures var n := NumeralFrom(src[old(cursor)..], 0, 1, false, []);
              && status == n.status && text == n.text && decimal == n.decimal
              && Moved(old(cursor), old(idx), n.used, n.seen)
    {
      ghost var c0, i0, s := cursor, idx, src[cursor..];
      ghost var i: nat, seen: nat := 0, 1;
      status, text, decimal := ErrNone, [], false;
      var done := false;
      while !done
        invariant Valid() && tokens == old(tokens) && pendingError == old(pendingError)
        invariant !done ==> i <= seen <= |s| && cursor == c0 + i && idx == Max(i0, c0 + seen)
        invariant !done ==> NumeralFrom(s, i, seen, decimal, text) == NumeralFrom(s, 0, 1, false, [])
        invariant done ==> var n := NumeralFrom(s, 0, 1, false, []);
                           && status == n.status && text == n.text && decimal == n.decimal
                           && cursor == c0 + n.used && idx == Max(i0, c0 + n.seen)
        decreases !done, |s| - i
      {
        done, status, decimal, text, i, seen := NumeralTurn(c0, i, seen, decimal, text);
      }
    }

    /**
     * One turn of the digit loop of read_number, i bytes of the literal
     * from c0 on consumed and `seen` looked at: it either ends the numeral
     * as NumeralFrom says, or moves on with the same outcome ahead.
     */
    method NumeralTurn(ghost c0: nat, ghost i: nat, ghost seen: nat, decimal: bool, text: seq<char>)
      returns (done: bool, status: Status, decimal': bool, text': seq<char>, ghost i': nat, ghost seen': nat)
      requires Valid() && cursor == c0 + i && i <= seen <= |src| - c0 && c0 + seen <= idx
      modifies this
      ensures Valid() && tokens == old(tokens) && pendingError == old(pendingError)
      ensures var s := src[c0..];
              && (!done ==> i < i' <= seen' <= |s| && seen <= seen' && cursor == c0 + i' && idx == Max(old(idx), c0 + seen')
                            && NumeralFrom(s, i', seen', decimal', text') == NumeralFrom(s, i, seen, decimal, text))
              && (done ==> var n := NumeralFrom(s, i, seen, decimal, text);
                           && status == n.status && text' == n.text && decimal' == n.decimal
                           && cursor == c0 + n.used && idx == Max(old(idx), c0 + n.seen))
    {
      NumeralPlain(src, c0, i, seen, decimal, text);
      var ch;
      status, ch := PeekCh();
      done, decimal', text', i', seen' := true, decimal, text, i, seen;
      if status != ErrNone || (!IsDigit(ch) && ch != '.' && Lower(ch) != 'e') {
        return;
      }
      if ch == '.' || Lower(ch) == 'e' {
        done, status, decimal', text', i', seen' := NumeralMark(c0, i, seen, decimal, text, ch);
      } else {
        var _ := ConsumeCh();
        done, text', i', seen' := false, text + [ch], i + 1, Max(seen, i + 1);
      }
    }

    /** The turn of the digit loop at a `.` or an `e`, which is looked at. */
    method NumeralMark(ghost c0: nat, ghost i: nat, ghost seen: nat, decimal: bool, text: seq<char>, ch: char)
      returns (done: bool, status: Status, decimal': bool, text': seq<char>, ghost i': nat, ghost seen': nat)
      requires Valid() && cursor == c0 + i < idx && i <= seen <= |src| - c0 && c0 + seen <= idx
      requires src[cursor] == ch && (ch == '.' || Lower(ch) == 'e')
      modifies this
      ensures Valid() && tokens == old(tokens) && pendingError == old(pendingError)
      ensures var s := src[c0..];
              && (!done ==> i < i' <= seen' <= |s| && seen <= seen' && cursor == c0 + i' && idx == Max(old(idx), c0 + seen')
                            && NumeralFrom(s, i', seen', decimal', text') == NumeralFrom(s, i, seen, decimal, text))
              && (done ==> var n := NumeralFrom(s, i, seen, decimal, text);
                           && status == n.status && text' == n.text && decimal' == n.decimal
                           && cursor == c0 + n.used && idx == Max(old(idx), c0 + n.seen))
    {
      done, status, decimal', text', i', seen' := true, ErrNone, decimal, text, i, seen;
      if decimal {
        return;
      }
      NumeralMarkStep(src, c0, i, seen, text);
      var _ := ConsumeCh();
      var after;
      status, after := PeekCh();
      if status != ErrNone {
        return;
      }
      if Lower(ch) == 'e' {
        done, decimal', i', seen' := false, true, i + 1, Max(seen, i + 2);
        text' := text + (if after == '-' then "e-" else [ch]);
      } else if !IsDigit(after) {
        var _ := UnreadCh('.');
      } else {
        done, decimal', text', i', seen' := false, true, text + ['.'], i + 1, Max(seen, i + 2);
      }
    }

    /**
     * The rest of read_number once the numeral n has ended on a byte that
     * is looked at: the suffix letters, their check, and the literal's type.
     */
    method ReadNumberTail(ghost c0: nat, ghost n: Numeral, text: seq<char>, decimal: bool) returns (status: Status, lit: NumLit)
      requires Valid() && n.status == ErrNone && n.used <= n.seen <= |src| - c0
      requires cursor == c0 + n.used && c0 + n.seen <= idx && text == n.text && decimal == n.decimal
      modifies this
      ensures Valid() && tokens == old(tokens)
      ensures Did(NumberTail(src[c0..], n), status, lit, c0, old(idx), old(pendingError), cursor, idx, pendingError)
    {
      ghost var c1 := cursor;
      var suffixes := SuffixLoop();
      var verdict := CheckSuffixLetters(suffixes, decimal);
      status, lit := Judge(verdict, text, decimal);
      NumberTailDid(src, c0, c1, n, suffixes, verdict, status, lit, old(idx), old(pendingError), cursor, idx, pendingError);
    }

    /** The end of read_number: a message for an illegal suffix, else the literal's type, which may be NONE. */
    method Judge(verdict: Suffixes, text: seq<char>, decimal: bool) returns (status: Status, lit: NumLit)
      requires Valid()
      modifies this
      ensures Valid() && cursor == old(cursor) && idx == old(idx) && tokens == old(tokens)
      ensures pendingError == Kept(old(pendingError), if verdict.Illegal? then Some(verdict.msg) else None)
      ensures Judged(verdict, decimal, text, status, lit)
    {
      status, lit := ErrBadTok, NumLit(NoneTok, text);
      if verdict.Illegal? {
        var _ := PutErr(verdict.msg);
      } else {
        var t := NumberType(verdict.long, verdict.unsigned, verdict.float || decimal);
        if t != NoneTok {
          status, lit := ErrNone, NumLit(t, text);
        }
      }
    }

    /** The suffix loop of read_number: L, U and F in either case, kept in upper case. */
    method SuffixLoop() returns (suffixes: seq<char>)
      requires Valid()
      modifies this
      ensures Valid() && tokens == old(tokens) && pendingError == old(pendingError)
      ensures suffixes == SuffixRun(src, old(cursor))
      ensures cursor == old(cursor) + |suffixes| && idx == Max(old(idx), if cursor < |src| then cursor + 1 else cursor)
    {
      ghost var c0, i0 := cursor, idx;
      CursorInRange();
      suffixes := [];
      while true
        invariant Valid() && tokens == old(tokens) && pendingError == old(pendingError)
        invariant cursor == c0 + |suffixes| <= |src| && idx == Max(i0, cursor)
        invariant forall k :: c0 <= k < c0 + |suffixes| ==> IsSuffixLetter(Upper(src[k])) && suffixes[k - c0] == Upper(src[k])
        decreases |src| - cursor
      {
        var status, ch := PeekCh();
        if status != ErrNone || !IsSuffixLetter(Upper(ch)) {
          SuffixRunIs(src, c0, suffixes);
          return;
        }
        suffixes := suffixes + [Upper(ch)];
        var _ := ConsumeCh();
      }
    }

    /** The position field is the position after the bytes read from the stream. */
    lemma {:induction false} PosTracked()
      requires Valid()
      ensures pos == PosAfter(src[..idx])
    {
      TrackedPos(src, positions, idx);
    }

    /** The white-space loop of read_token, which stops at the first other byte, looked at. */
    method SkipSpace() returns (status: Status, ch: char)
      requires Valid()
      modifies this
      ensures Valid() && tokens == old(tokens) && pendingError == old(pendingError)
      ensures cursor == old(cursor) + SpaceRun(src[old(cursor)..])
      ensures cursor == |src| ==> status == ErrEof && idx == Max(old(idx), cursor)
      ensures cursor < |src| ==> status == ErrNone && ch == src[cursor] && idx == Max(old(idx), cursor + 1)
    {
      ghost var c0, i0 := cursor, idx;
      CursorInRange();
      while true
        invariant Valid() && tokens == old(tokens) && pendingError == old(pendingError)
        invariant c0 <= cursor <= |src| && idx == Max(i0, cursor)
        invariant SpaceRun(src[c0..]) == (cursor - c0) + SpaceRun(src[cursor..])
        decreases |src| - cursor
      {
        status, ch := PeekCh();
        if status != ErrNone || !IsSpace(ch) {
          SpaceRunStop(src, c0, cursor);
          return;
        }
        SpaceRunStep(src, c0, cursor);
        var _ := ConsumeCh();
      }
    }

    /**
     * read_token: white space, then a comment (no token) or the token
     * whose first byte was looked at, with the position taken there.
     */
    method ReadToken() returns (status: Status, tok: Token)
      requires Valid()
      modifies this
      ensures Valid() && tokens == old(tokens)
      ensures TokenRead(src, old(cursor), old(idx), old(pendingError), status, tok, cursor, idx, pendingError)
    {
      ghost var c0, i0 := cursor, idx;
      var ch;
      status, ch := SkipSpace();
      tok := Token(NoneTok, [], 0, 0, START);
      if status != ErrNone {
        ReadTokenEnd(src, c0, i0, old(pendingError), status, tok, cursor, idx);
        return;
      }
      status, tok := TokenAfterSpace(ch, c0, i0, cursor - c0);
    }

    /** read_token once the white space up to index c0 + k is consumed and the byte ch after it looked at. */
    method TokenAfterSpace(ch: char, ghost c0: nat, ghost i0: nat, ghost k: nat) returns (status: Status, tok: Token)
      requires Valid() && i0 <= |src| && c0 <= |src| && k == SpaceRun(src[c0..]) && cursor == c0 + k < |src| && ch == src[cursor]
      requires idx == Max(i0, cursor + 1)
      modifies this
      ensures Valid() && tokens == old(tokens)
      ensures TokenRead(src, c0, i0, old(pendingError), status, tok, cursor, idx, pendingError)
    {
      if ch != '/' {
        status, tok := PlainToken(ch, c0, i0, k);
      } else {
        status, tok := SlashToken(c0, i0, k);
      }
    }

    /** read_token at any other character after the white space: straight to the switch. */
    method PlainToken(ch: char, ghost c0: nat, ghost i0: nat, ghost k: nat) returns (status: Status, tok: Token)
      requires Valid() && i0 <= |src| && c0 <= |src| && k == SpaceRun(src[c0..]) && cursor == c0 + k < |src| && ch == src[cursor] && ch != '/'
      requires idx == Max(i0, cursor + 1)
      modifies this
      ensures Valid() && tokens == old(tokens)
      ensures TokenRead(src, c0, i0, old(pendingError), status, tok, cursor, idx, pendingError)
    {
      status, tok := DispatchToken(ch, c0, k, k + 1);
      ReadTokenPlain(src, c0, i0, old(pendingError), k, ch, status, tok, old(idx), cursor, idx, pendingError);
    }

    /** read_token at a slash after the white space: a comment, or the operator path. */
    method SlashToken(ghost c0: nat, ghost i0: nat, ghost k: nat) returns (status: Status, tok: Token)
      requires Valid() && i0 <= |src| && c0 <= |src| && k == SpaceRun(src[c0..]) && cursor == c0 + k < |src| && src[cursor] == '/'
      requires idx == Max(i0, cursor + 1)
      modifies this
      ensures Valid() && tokens == old(tokens)
      ensures TokenRead(src, c0, i0, old(pendingError), status, tok, cursor, idx, pendingError)
    {
      ghost var cm := Comment(src[c0 + k..]);
      status := ReadComment();
      if status == ErrNone {
        status, tok := CommentToken(c0, i0, k, old(pendingError));
      } else {
        status, tok := SlashOperator(c0, i0, k, cm);
      }
    }

    /** read_token after a whole comment: the byte after it is looked at, and no token is pushed. */
    method CommentToken(ghost c0: nat, ghost i0: nat, ghost k: nat, ghost e0: Option<Message>) returns (status: Status, tok: Token)
      requires Valid() && i0 <= |src| && c0 <= |src| && k == SpaceRun(src[c0..]) && c0 + k < |src| && src[c0 + k] == '/'
      requires Did(Comment(src[c0 + k..]), ErrNone, (), c0 + k, Max(i0, c0 + k + 1), e0, cursor, idx, pendingError)
      modifies this
      ensures Valid() && tokens == old(tokens) && status == DontPushTok
      ensures TokenRead(src, c0, i0, e0, status, tok, cursor, idx, pendingError)
    {
      tok := Token(NoneTok, [], 0, 0, START);
      ghost var im := idx;
      var _, _ := PeekCh();
      ReadTokenComment(src, c0, i0, e0, tok, k, im, cursor, idx, pendingError);
      status := DontPushTok;
    }

    /** read_token at a slash that starts no complete comment: the operator path from where read_comment stopped. */
    method SlashOperator(ghost c0: nat, ghost i0: nat, ghost k: nat, ghost cm: Read<()>) returns (status: Status, tok: Token)
      requires Valid() && i0 <= |src| && c0 <= |src| && k == SpaceRun(src[c0..]) && c0 + k < |src| && src[c0 + k] == '/'
      requires cm == Comment(src[c0 + k..]) && cm.status != ErrNone && cursor == c0 + k + cm.used
      requires idx == Max(Max(i0, c0 + k + 1), c0 + k + cm.seen)
      modifies this
      ensures Valid() && tokens == old(tokens)
      ensures TokenRead(src, c0, i0, old(pendingError), status, tok, cursor, idx, pendingError)
    {
      PosTracked();
      var startPos := pos;
      var typ;
      status, typ := OperatorBranch(c0, k + cm.used, k + cm.seen);
      tok := Token(typ, [], 0, 0, startPos);
      ReadTokenSlash(src, c0, i0, old(pendingError), k, cm, status, tok, old(idx), cursor, idx, pendingError);
    }

    /**
     * The switch of read_token on the byte ch found at index p of the
     * input from c0, with the stream looked at up to start.
     */
    method DispatchToken(ch: char, ghost c0: nat, ghost p: nat, ghost start: nat) returns (status: Status, tok: Token)
      requires Valid() && cursor == c0 + p && p <= start && c0 + start <= idx
      requires (c0 + p < |src| && src[c0 + p] == ch) || (c0 + p == |src| && ch == '/')
      modifies this
      ensures Valid() && tokens == old(tokens)
      ensures Scanned(Dispatch(src[c0..], p, start, ch), status, tok.typ, tok.contents, tok.data, c0, old(idx), old(pendingError), cursor, idx, pendingError)
      ensures tok.flags == 0 && tok.pos == PosAfter(src[..old(idx)])
    {
      PosTracked();
      var startPos := pos;
      var typ, contents, data := NoneTok, [], 0;
      if IsWordStart(ch) {
        status, typ, contents := WordBranch(c0, p, start);
      } else if IsDigit(ch) {
        status, typ, data := NumberBranch(c0, p, start);
      } else if Punctuation(ch).Some? {
        var _ := ConsumeCh();
        status, typ := ErrNone, Punctuation(ch).value;
      } else if ch == '"' || ch == '\'' {
        status, typ, contents := StringBranch(ch, c0, p, start);
      } else if IsOperatorStart(ch) {
        status, typ := OperatorBranch(c0, p, start);
      } else {
        status := ErrUnknownChar;
      }
      tok := Token(typ, contents, data, 0, startPos);
    }

    /** A keyword or an identifier. */
    method WordBranch(ghost c0: nat, ghost p: nat, ghost start: nat) returns (status: Status, typ: TokenType, contents: seq<char>)
      requires Valid() && cursor == c0 + p && p <= start && c0 + start <= idx
      modifies this
      ensures Valid() && tokens == old(tokens)
      ensures Scanned(WordToken(src[c0..], p, start), status, typ, contents, 0, c0, old(idx), old(pendingError), cursor, idx, pendingError)
    {
      DropDrop(src, c0, p);
      ghost var w := Wordlike(src[c0 + p..]);
      status, contents := ReadWordlike();
      typ := if status == ErrNone then ClassifyWordlike(contents) else NoneTok;
      LiftedScanned(w, p, start, typ, contents, 0, status, contents, c0, old(idx), old(pendingError), cursor, idx, pendingError);
    }

    /** A number literal and its value. */
    method NumberBranch(ghost c0: nat, ghost p: nat, ghost start: nat) returns (status: Status, typ: TokenType, data: int)
      requires Valid() && cursor == c0 + p && p <= start && c0 + start <= idx
      modifies this
      ensures Valid() && tokens == old(tokens)
      ensures Scanned(NumberToken(src[c0..], p, start), status, typ, [], data, c0, old(idx), old(pendingError), cursor, idx, pendingError)
    {
      DropDrop(src, c0, p);
      ghost var n := Number(src[c0 + p..]);
      var lit;
      status, lit, data := ReadNumber();
      typ := lit.typ;
      LiftedScanned(n, p, start, typ, [], data, status, lit, c0, old(idx), old(pendingError), cursor, idx, pendingError);
    }

    /** A string or char literal; a char literal holds one byte at most. */
    method StringBranch(quote: char, ghost c0: nat, ghost p: nat, ghost start: nat) returns (status: Status, typ: TokenType, contents: seq<char>)
      requires Valid() && cursor == c0 + p && p <= start && c0 + start <= idx
      modifies this
      ensures Valid() && tokens == old(tokens)
      ensures Scanned(StringToken(src[c0..], p, start, quote), status, typ, contents, 0, c0, old(idx), old(pendingError), cursor, idx, pendingError)
    {
      DropDrop(src, c0, p);
      ghost var q := Stringlike(src[c0 + p..], quote);
      typ := if quote == '"' then LitStrDouble else LitStrSingle;
      status, contents := ReadStringlike(quote);
      LiftedScanned(q, p, start, typ, contents, 0, status, contents, c0, old(idx), old(pendingError), cursor, idx, pendingError);
      if status == ErrNone && quote == '\'' && |contents| > 1 {
        var _ := PutErr(MultibyteChar);
        status := ErrBadTok;
      }
    }

    /** An operator. */
    method OperatorBranch(ghost c0: nat, ghost p: nat, ghost start: nat) returns (status: Status, typ: TokenType)
      requires Valid() && cursor == c0 + p && p <= start && c0 + start <= idx
      modifies this
      ensures Valid() && tokens == old(tokens)
      ensures Scanned(OperatorToken(src[c0..], p, start), status, typ, [], 0, c0, old(idx), old(pendingError), cursor, idx, pendingError)
    {
      DropDrop(src, c0, p);
      ghost var o := Operator(src[c0 + p..]);
      status, typ := ReadOperator();
      if status != ErrNone {
        typ := NoneTok;
      }
      LiftedScanned(o, p, start, typ, [], 0, status, typ, c0, old(idx), old(pendingError), cursor, idx, pendingError);
    }

    /** The loop of gramina_lex: each token read is appended, a comment is skipped, any other status ends it. */
    method TokenLoop() returns (status: Status)
      requires Valid()
      modifies this
      ensures Valid()
      ensures LexFrom(src, old(cursor), old(idx), old(tokens), old(pendingError)) == Outcome(tokens, status, idx, pendingError)
    {
      ghost var goal := LexFrom(src, cursor, idx, tokens, pendingError);
      while true
        invariant Valid()
        invariant goal == LexFrom(src, cursor, idx, tokens, pendingError)
        decreases |src| - cursor
      {
        ghost var c0, i0, e0, tokens0 := cursor, idx, pendingError, tokens;
        CursorInRange();
        var tok;
        status, tok := ReadToken();
        LexTurn(src, c0, i0, e0, tokens0, status, tok, cursor, idx, pendingError);
        if status != ErrNone && status != DontPushTok {
          return;
        }
        if status != DontPushTok {
          tokens := tokens + [tok];
        }
      }
    }
  }

  /** What one read_token did, as one turn of the token loop. */
  lemma {:induction false} LexTurn(src: seq<char>, c0: nat, i0: nat, e0: Option<Message>, tokens: seq<Token>,
                                   status: Status, tok: Token, c: nat, i: nat, e: Option<Message>)
    requires c0 <= i0 <= |src|
    requires TokenRead(src, c0, i0, e0, status, tok, c, i, e)
    ensures status == ErrNone ==> c <= i <= |src| && LexFrom(src, c0, i0, tokens, e0) == LexFrom(src, c, i, tokens + [tok], e)
    ensures status == DontPushTok ==> c <= i <= |src| && LexFrom(src, c0, i0, tokens, e0) == LexFrom(src, c, i, tokens, e)
    ensures status == ErrNone || status == DontPushTok ==> c0 < c
    ensures status != ErrNone && status != DontPushTok ==> LexFrom(src, c0, i0, tokens, e0) == Outcome(tokens, status, i, e)
  {
    var r := TokenAt(src[c0..]);
    assert LexStep(src, c0, i0, tokens, e0) == StepOn(src, c0, i0, tokens, e0, r);
    StepOnScanned(src, c0, i0, e0, tokens, r, status, tok, c, i, e);
  }

  /** The turn LexStep takes on the scan r, for a read_token that moved the state as r says. */
  lemma {:induction false} StepOnScanned(src: seq<char>, c0: nat, i0: nat, e0: Option<Message>, tokens: seq<Token>,
                                         r: Scan, status: Status, tok: Token, c: nat, i: nat, e: Option<Message>)
    requires c0 <= i0 <= |src| && c0 + r.seen <= |src| && r.start <= r.seen
    requires Scanned(r, status, tok.typ, tok.contents, tok.data, c0, i0, e0, c, i, e)
    requires status == ErrNone ==> tok.flags == 0 && tok.pos == PosAfter(src[..Max(i0, c0 + r.start)])
    ensures status == ErrNone ==> StepOn(src, c0, i0, tokens, e0, r) == Continue(c, i, tokens + [tok], e)
    ensures status == DontPushTok ==> StepOn(src, c0, i0, tokens, e0, r) == Continue(c, i, tokens, e)
    ensures status != ErrNone && status != DontPushTok ==> StepOn(src, c0, i0, tokens, e0, r) == Stop(Outcome(tokens, status, i, e))
  {
    if status == ErrNone {
      assert tok == Token(r.typ, r.contents, r.data, 0, PosAfter(src[..Max(i0, c0 + r.start)]));
    }
  }

  /** The result of gramina_lex in terms of where its token loop stopped. */
  lemma {:induction false} LexOf(src: seq<char>, o: Outcome)
    requires o == LexFrom(src, 0, 0, [], None)
    ensures LexSpec.Lex(src).tokens == o.tokens + [Token(Eof, [], 0, 0, EofPosition(o.tokens))]
    ensures LexSpec.Lex(src).status == (if o.status == ErrEof then ErrNone else o.status)
    ensures LexSpec.Lex(src).errorPosition == PosAfter(src[..o.idx]) && LexSpec.Lex(src).errorDescription == o.err
  {
  }

  /**
   * gramina_lex: read_token until it reports neither NONE nor DONT_PUSH_TOK,
   * appending each token read, then close the list with an EOF token one
   * column past the last one. Running out of input is not an error.
   */
  method Lex(src: seq<char>) returns (r: LexResult)
    requires NulFree(src)
    ensures r == LexSpec.Lex(src)
  {
    var st := new LexerState(src);
    var status := st.TokenLoop();
    ghost var o := Outcome(st.tokens, status, st.idx, st.pendingError);
    LexOf(src, o);
    if status == ErrEof {
      status := ErrNone;
    }
    var lastPos := if |st.tokens| > 0 then st.tokens[|st.tokens| - 1].pos else Position(1, 1, 0);
    if |st.tokens| > 0 {
      lastPos := Position(lastPos.line, lastPos.column + 1, lastPos.depth + 1);
    }
    st.tokens := st.tokens + [Token(Eof, [], 0, 0, lastPos)];
    assert lastPos == EofPosition(o.tokens);
    st.PosTracked();
    r := LexResult(st.tokens, status, st.pos, st.pendingError);
  }
}

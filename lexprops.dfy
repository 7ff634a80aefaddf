/**
 * Properties of the lexer specification: positions, escapes, literals,
 * comments, operators, numbers and the token loop.
 */
module LexProps {
  import opened Wrappers
  import opened Token
  import opened LexSpec

  /* ---------------------------------------------------------------- */
  /* Positions. */

  predicate NoLineBreak(t: seq<char>) { forall k :: 0 <= k < |t| ==> t[k] != '\r' && t[k] != '\n' }

  /** Bytes other than CR and LF advance the column by one each and keep the line. */
  lemma {:induction false} ColumnAdvance(s: seq<char>, t: seq<char>)
    requires NoLineBreak(t)
    ensures PosAfter(s + t) == Position(PosAfter(s).line, PosAfter(s).column + |t|, |s| + |t|)
    decreases |t|
  {
    if t == [] {
      assert s + t == s;
    } else {
      var t' := t[..|t| - 1];
      assert (s + t)[..|s + t| - 1] == s + t';
      ColumnAdvance(s, t');
    }
  }

  /** A CR or LF ends the line: the next byte is in column 1 of the following line. */
  lemma {:induction false} LineBreakRestartsColumn(s: seq<char>, b: char, c: char)
    requires (b == '\r' || b == '\n') && c != '\r' && c != '\n'
    ensures PosAfter(s + [b, c]) == Position(PosAfter(s).line + 1, 1, |s| + 2)
  {
    var sb := s + [b];
    PosAfterSnoc(s, b);
    PosAfterSnoc(sb, c);
    assert sb + [c] == s + [b, c];
  }

  /* ---------------------------------------------------------------- */
  /* Escapes. */

  /** The escapes read_escape accepts. */
  predicate EscapeForm(s: seq<char>, quote: char)
  {
    |s| > 0 &&
    (|| s[0] == quote
     || SimpleEscape(s[0]).Some?
     || (s[0] == 'x' && |s| >= 3 && IsHexDigit(s[1]) && IsHexDigit(s[2]))
     || (s[0] == 'o' && |s| >= 4 && IsOctDigit(s[1]) && IsOctDigit(s[2]) && IsOctDigit(s[3])))
  }

  /** The byte an accepted escape stands for and how many bytes it takes. */
  function EscapeMeaning(s: seq<char>, quote: char): (char, nat)
    requires EscapeForm(s, quote)
  {
    if s[0] == quote then (quote, 1)
    else if SimpleEscape(s[0]).Some? then (SimpleEscape(s[0]).value, 1)
    else if s[0] == 'x' then ((16 * HexValue(s[1]) + HexValue(s[2])) as char, 3)
    else (((64 * (s[1] as int - '0' as int) + 8 * (s[2] as int - '0' as int) + (s[3] as int - '0' as int)) % 256) as char, 4)
  }

  /**
   * After a backslash exactly these are accepted: the enclosing quote, one
   * of \\ n t f v e 0, x with two hex digits, and o with three octal digits
   * (taken modulo 256). Anything else is BAD_TOK or, at the end of the
   * input, EOF.
   */
  lemma {:induction false} EscapeAcceptsExactly(s: seq<char>, quote: char)
    ensures Escape(s, quote).status == ErrNone <==> EscapeForm(s, quote)
    ensures EscapeForm(s, quote) ==>
              (Escape(s, quote).value, Escape(s, quote).used) == EscapeMeaning(s, quote)
    ensures !EscapeForm(s, quote) && |s| > 0 && s[0] != 'x' && s[0] != 'o' ==>
              Escape(s, quote) == Read(ErrBadTok, 0 as char, 0, 1, Some(InvalidEscape(s[0])))
  {
    if |s| > 0 && s[0] != quote && SimpleEscape(s[0]).None? {
      if s[0] == 'x' {
        HexEscape(s, quote);
      } else if s[0] == 'o' {
        OctalEscape(s, quote);
      }
    }
  }

  /** \x takes exactly two hex digits. */
  lemma {:induction false} HexEscape(s: seq<char>, quote: char)
    requires |s| > 0 && s[0] == 'x' && quote != 'x'
    ensures Escape(s, quote).status == ErrNone <==> |s| >= 3 && IsHexDigit(s[1]) && IsHexDigit(s[2])
    ensures Escape(s, quote).status == ErrNone ==>
              Escape(s, quote).value == (16 * HexValue(s[1]) + HexValue(s[2])) as char && Escape(s, quote).used == 3
  {
    assert Escape(s, quote) == EscapeDigits(s, false, 1, 0);
    HexDigits(s);
  }

  lemma {:induction false} HexDigits(s: seq<char>)
    requires |s| > 0
    ensures var r := EscapeDigits(s, false, 1, 0);
            && (r.status == ErrNone <==> |s| >= 3 && IsHexDigit(s[1]) && IsHexDigit(s[2]))
            && (r.status == ErrNone ==> r.value == (16 * HexValue(s[1]) + HexValue(s[2])) as char && r.used == 3)
  {
    if |s| >= 2 && IsHexDigit(s[1]) {
      var a := 16 * HexValue(s[1]);
      EscapeDigitStep(s, false, 1, 0, a);
      if |s| >= 3 && IsHexDigit(s[2]) {
        EscapeDigitStep(s, false, 2, a, a + HexValue(s[2]));
      }
    }
  }

  /** One digit of an escape: it is weighed and added, and the next byte is looked at. */
  lemma {:induction false} EscapeDigitStep(s: seq<char>, octal: bool, j: nat, acc: int, acc': int)
    requires 1 <= j <= Width(octal) && j < |s| && IsDigitIn(octal, s[j])
    requires acc' == acc + DigitValue(octal, s[j]) * Weight(octal, j)
    ensures EscapeDigits(s, octal, j, acc) == EscapeDigits(s, octal, j + 1, acc')
  {
  }

  /** \o takes exactly three octal digits, their value taken modulo 256. */
  lemma {:induction false} OctalEscape(s: seq<char>, quote: char)
    requires |s| > 0 && s[0] == 'o' && quote != 'o'
    ensures Escape(s, quote).status == ErrNone <==> |s| >= 4 && IsOctDigit(s[1]) && IsOctDigit(s[2]) && IsOctDigit(s[3])
    ensures Escape(s, quote).status == ErrNone ==>
              Escape(s, quote).used == 4 &&
              Escape(s, quote).value ==
                ((64 * (s[1] as int - '0' as int) + 8 * (s[2] as int - '0' as int) + (s[3] as int - '0' as int)) % 256) as char
  {
    assert Escape(s, quote) == EscapeDigits(s, true, 1, 0);
    OctalDigits(s);
  }

  lemma {:induction false} OctalDigits(s: seq<char>)
    requires |s| > 0
    ensures var r := EscapeDigits(s, true, 1, 0);
            && (r.status == ErrNone <==> |s| >= 4 && IsOctDigit(s[1]) && IsOctDigit(s[2]) && IsOctDigit(s[3]))
            && (r.status == ErrNone ==>
                  r.used == 4 &&
                  r.value == ((64 * (s[1] as int - '0' as int) + 8 * (s[2] as int - '0' as int) + (s[3] as int - '0' as int)) % 256) as char)
  {
    if |s| >= 2 && IsOctDigit(s[1]) {
      var a := 64 * (s[1] as int - '0' as int);
      EscapeDigitStep(s, true, 1, 0, a);
      if |s| >= 3 && IsOctDigit(s[2]) {
        var b := a + 8 * (s[2] as int - '0' as int);
        EscapeDigitStep(s, true, 2, a, b);
        if |s| >= 4 && IsOctDigit(s[3]) {
          EscapeDigitStep(s, true, 3, b, b + (s[3] as int - '0' as int));
        }
      }
    }
  }

  /* ---------------------------------------------------------------- */
  /* String literals. */

  /** Bytes that stand for themselves inside a literal. */
  predicate Plain(t: seq<char>, quote: char) { forall k :: 0 <= k < |t| ==> t[k] != quote && t[k] != '\\' }

  lemma {:induction false} PlainBody(s: seq<char>, quote: char, i: nat, k: nat, acc: seq<char>)
    requires 1 <= i <= k < |s| && s[k] == quote && quote != '\\' && Plain(s[i..k], quote)
    ensures StringFrom(s, quote, i, acc) == Read(ErrNone, acc + s[i..k], k + 1, k + 1, None)
    decreases k - i
  {
    if i == k {
      assert s[i..k] == [];
      assert acc + [] == acc;
    } else {
      assert s[i] == s[i..k][0];
      assert s[i + 1..k] == s[i..k][1..];
      PlainBody(s, quote, i + 1, k, acc + [s[i]]);
      assert acc + [s[i]] + s[i + 1..k] == acc + s[i..k];
    }
  }

  /** A literal without escapes holds exactly the bytes between its quotes. */
  lemma {:induction false} PlainLiteral(s: seq<char>, quote: char, k: nat)
    requires 1 <= k < |s| && s[0] == quote && s[k] == quote && quote != '\\' && Plain(s[1..k], quote)
    ensures Stringlike(s, quote) == Read(ErrNone, s[1..k], k + 1, k + 1, None)
  {
    PlainBody(s, quote, 1, k, []);
    assert [] + s[1..k] == s[1..k];
  }

  /** `"a\tb\x41c"` decodes to a, TAB, b, A, c. */
  lemma {:induction false} EscapesInALiteral(s: seq<char>)
    requires s == "\"a\\tb\\x41c\""
    ensures Stringlike(s, '"') == Read(ErrNone, ['a', '\t', 'b', 'A', 'c'], 11, 11, None)
  {
    assert s[1] == 'a' && s[2] == '\\' && s[4] == 'b' && s[5] == '\\' && s[9] == 'c' && s[10] == '"';
    var e := s[6..];
    assert s[3..][0] == 't' && e[0] == 'x' && e[1] == '4' && e[2] == '1';
    EscapeAcceptsExactly(e, '"');
    calc {
      StringFrom(s, '"', 1, []);
      StringFrom(s, '"', 2, [] + ['a']);
      StringFrom(s, '"', 4, [] + ['a'] + ['\t']);
      StringFrom(s, '"', 5, [] + ['a'] + ['\t'] + ['b']);
      StringFrom(s, '"', 9, [] + ['a'] + ['\t'] + ['b'] + ['A']);
      StringFrom(s, '"', 10, [] + ['a'] + ['\t'] + ['b'] + ['A'] + ['c']);
    }
    assert [] + ['a'] + ['\t'] + ['b'] + ['A'] + ['c'] == ['a', '\t', 'b', 'A', 'c'];
  }

  /* ---------------------------------------------------------------- */
  /* Comments. */

  /**
   * A block comment ends at the first `*` `/` pair whose slash is at index 3
   * or later, and runs to the end of the input when there is none.
   */
  lemma {:induction false} BlockCommentExtent(s: seq<char>)
    requires |s| >= 2 && s[0] == '/' && s[1] == '*'
    ensures Comment(s).status == ErrNone <==> exists k :: 3 <= k < |s| && s[k - 1] == '*' && s[k] == '/'
    ensures Comment(s).status == ErrNone ==>
              var k := Comment(s).used - 1;
              3 <= k < |s| && s[k - 1] == '*' && s[k] == '/' &&
              forall j :: 3 <= j < k ==> !(s[j - 1] == '*' && s[j] == '/')
    ensures Comment(s).status != ErrNone ==> Comment(s) == Read(ErrEof, (), |s|, |s|, None)
  {
    if BlockEnd(s, 3).None? {
      assert forall k :: 3 <= k < |s| ==> !(s[k - 1] == '*' && s[k] == '/');
    }
  }

  /** The opener's own star never closes the comment: `/` `*` `/` leaves it open. */
  lemma {:induction false} OpenerStarNeverCloses(t: seq<char>)
    ensures Comment("/*/" + t).status == ErrNone ==> Comment("/*/" + t).used >= 5
    ensures Comment("/*/") == Read(ErrEof, (), 3, 3, None)
  {
    var s := "/*/" + t;
    assert s[0] == '/' && s[1] == '*' && s[2] == '/';
    BlockCommentExtent(s);
    if Comment(s).status == ErrNone {
      var k := Comment(s).used - 1;
      assert k != 3 by { assert s[2] != '*'; }
    }
    var e := "/*/";
    assert e[0] == '/' && e[1] == '*' && |e| == 3;
    assert BlockEnd(e, 3) == None;
  }

  /** A line comment runs up to, and not including, the first newline; without one it runs to the end. */
  lemma {:induction false} LineCommentExtent(s: seq<char>)
    requires |s| >= 2 && s[0] == '/' && s[1] == '/'
    ensures Comment(s).status == ErrNone <==> '\n' in s[2..]
    ensures Comment(s).status == ErrNone ==>
              var k := Comment(s).used;
              2 <= k < |s| && s[k] == '\n' && '\n' !in s[2..k] && Comment(s).seen == k + 1
    ensures Comment(s).status != ErrNone ==> Comment(s) == Read(ErrEof, (), |s|, |s|, None)
  {
    var k := LineEnd(s, 2);
    if k < |s| {
      assert s[2..][k - 2] == '\n';
    } else {
      assert forall m :: 0 <= m < |s[2..]| ==> s[2..][m] == s[m + 2];
    }
  }

  /* ---------------------------------------------------------------- */
  /* Operators. */

  /** The token type a one-byte spelling stands for. */
  function OneByte(a: char): Option<TokenType>
  {
    match a
    case ';' => Some(Semicolon)     case '|' => Some(Pipe)        case '$' => Some(Dollar)
    case '#' => Some(Hash)          case '\\' => Some(Backslash)  case ',' => Some(Comma)
    case ':' => Some(Colon)         case '.' => Some(Dot)         case '+' => Some(Plus)
    case '-' => Some(Minus)         case '*' => Some(Asterisk)    case '/' => Some(ForwardSlash)
    case '%' => Some(Percent)       case '~' => Some(Tilde)       case '@' => Some(At)
    case '&' => Some(Ampersand)     case '!' => Some(Exclamation) case '<' => Some(LessThan)
    case '>' => Some(GreaterThan)   case '^' => Some(Caret)       case '?' => Some(Question)
    case '=' => Some(Assign)        case '{' => Some(BraceLeft)   case '}' => Some(BraceRight)
    case '(' => Some(ParenLeft)     case ')' => Some(ParenRight)  case '[' => Some(SubscriptLeft)
    case ']' => Some(SubscriptRight)
    case _ => None
  }

  /** The token type a two-byte spelling stands for. */
  function TwoBytes(a: char, b: char): Option<TokenType>
  {
    match a
    case '.' => if b == '.' then Some(DoubleDot) else None
    case ':' => if b == ':' then Some(StaticMember) else None
    case '&' => if b == '&' then Some(And) else None
    case '|' => if b == '|' then Some(Or) else None
    case '\\' => if b == '\\' then Some(Xor) else None
    case '?' => if b == '?' then Some(Fallback) else None
    case '+' => if b == '=' then Some(AssignAdd) else None
    case '-' => if b == '=' then Some(AssignSub) else None
    case '*' => if b == '=' then Some(AssignMul) else None
    case '/' => if b == '=' then Some(AssignDiv) else None
    case '%' => if b == '=' then Some(AssignRem) else None
    case '=' => if b == '=' then Some(Equality) else None
    case '~' => if b == '>' then Some(Extract) else if b == '=' then Some(AssignCat) else None
    case '<' => if b == '~' then Some(Insert) else if b == '=' then Some(LessThanEq)
                else if b == '<' then Some(LShift) else None
    case '>' => if b == '=' then Some(GreaterThanEq) else if b == '>' then Some(RShift) else None
    case '!' => if b == '=' then Some(Inequality) else if b == '`' then Some(AlternateNot) else None
    case _ => None
  }

  /** The token type a three-byte spelling stands for. */
  function ThreeBytes(a: char, b: char, c: char): Option<TokenType>
  {
    if c != '`' || a != b then None
    else if a == '|' then Some(AlternateOr)
    else if a == '\\' then Some(AlternateXor)
    else if a == '&' then Some(AlternateAnd)
    else None
  }

  /** The token type whose canonical spelling is w, if any: the inverse of Spelling. */
  function SpelledType(w: seq<char>): Option<TokenType>
  {
    if |w| == 1 then OneByte(w[0])
    else if |w| == 2 then TwoBytes(w[0], w[1])
    else if |w| == 3 then ThreeBytes(w[0], w[1], w[2])
    else None
  }

  lemma {:induction false} OneByteSpelled(a: char)
    requires OneByte(a).Some?
    ensures Spelling(OneByte(a).value) == Some([a])
  {
    if a == ';' || a == '|' || a == '$' || a == '#' || a == '\\' || a == ',' || a == ':' ||
        a == '.' || a == '+' || a == '-' || a == '*' || a == '/' || a == '%' || a == '~' {
      OneByteSpelledSeparators(a);
    } else if a == '@' || a == '&' || a == '!' || a == '<' {
      OneByteSpelledLogic(a);
    } else if a == '>' || a == '^' || a == '?' {
      OneByteSpelledComparison(a);
    } else if a == '=' || a == '{' {
      OneByteSpelledAssign(a);
    } else if a == '}' || a == '(' {
      OneByteSpelledBraces(a);
    } else if a == ')' || a == '[' {
      OneByteSpelledParens(a);
    } else {
      OneByteSpelledSubscript(a);
    }
  }

  /* OneByteSpelled for a few bytes at a time, which keeps each proof small. */

  lemma {:induction false} OneByteSpelledSeparators(a: char)
    requires a == ';' || a == '|' || a == '$' || a == '#' || a == '\\' || a == ',' || a == ':' ||
             a == '.' || a == '+' || a == '-' || a == '*' || a == '/' || a == '%' || a == '~'
    ensures OneByte(a).Some? && Spelling(OneByte(a).value) == Some([a])
  {
  }

  lemma {:induction false} OneByteSpelledLogic(a: char)
    requires a == '@' || a == '&' || a == '!' || a == '<'
    ensures OneByte(a).Some? && Spelling(OneByte(a).value) == Some([a])
  {
  }

  lemma {:induction false} OneByteSpelledComparison(a: char)
    requires a == '>' || a == '^' || a == '?'
    ensures OneByte(a).Some? && Spelling(OneByte(a).value) == Some([a])
  {
  }

  lemma {:induction false} OneByteSpelledAssign(a: char)
    requires a == '=' || a == '{'
    ensures OneByte(a).Some? && Spelling(OneByte(a).value) == Some([a])
  {
  }

  lemma {:induction false} OneByteSpelledBraces(a: char)
    requires a == '}' || a == '('
    ensures OneByte(a).Some? && Spelling(OneByte(a).value) == Some([a])
  {
  }

  lemma {:induction false} OneByteSpelledParens(a: char)
    requires a == ')' || a == '['
    ensures OneByte(a).Some? && Spelling(OneByte(a).value) == Some([a])
  {
  }

  lemma {:induction false} OneByteSpelledSubscript(a: char)
    requires a == ']'
    ensures OneByte(a).Some? && Spelling(OneByte(a).value) == Some([a])
  {
  }

  lemma {:induction false} TwoBytesSpelled(a: char, b: char)
    requires TwoBytes(a, b).Some?
    ensures Spelling(TwoBytes(a, b).value) == Some([a, b])
  {
    if a == '.' || a == ':' || a == '&' || a == '|' || a == '\\' || a == '?' {
      TwoBytesSpelledDoubled(a, b);
    } else if a == '+' || a == '-' || a == '*' || a == '/' || a == '%' {
      TwoBytesSpelledCompound(a, b);
    } else if a == '=' || a == '~' || a == '<' {
      TwoBytesSpelledRelations(a, b);
    } else {
      TwoBytesSpelledOthers(a, b);
    }
  }

  lemma {:induction false} TwoBytesSpelledDoubled(a: char, b: char)
    requires TwoBytes(a, b).Some? && (a == '.' || a == ':' || a == '&' || a == '|' || a == '\\' || a == '?')
    ensures Spelling(TwoBytes(a, b).value) == Some([a, b])
  {
  }

  lemma {:induction false} TwoBytesSpelledCompound(a: char, b: char)
    requires TwoBytes(a, b).Some? && (a == '+' || a == '-' || a == '*' || a == '/' || a == '%')
    ensures Spelling(TwoBytes(a, b).value) == Some([a, b])
  {
  }

  lemma {:induction false} TwoBytesSpelledRelations(a: char, b: char)
    requires TwoBytes(a, b).Some? && (a == '=' || a == '~' || a == '<')
    ensures Spelling(TwoBytes(a, b).value) == Some([a, b])
  {
  }

  lemma {:induction false} TwoBytesSpelledOthers(a: char, b: char)
    requires TwoBytes(a, b).Some? && (a == '>' || a == '!')
    ensures Spelling(TwoBytes(a, b).value) == Some([a, b])
  {
  }

  lemma {:induction false} ThreeBytesSpelled(a: char, b: char, c: char)
    requires ThreeBytes(a, b, c).Some?
    ensures Spelling(ThreeBytes(a, b, c).value) == Some([a, b, c])
  {
  }

  /** Each spelling in the table reads back as its own type. */
  lemma {:induction false} SpelledBack(t: TokenType)
    requires Spelling(t).Some?
    ensures SpelledType(Spelling(t).value) == Some(t)
  {
    if t.Semicolon? || t.Pipe? || t.Dollar? || t.Hash? || t.Backslash? || t.Comma? ||
        t.DoubleDot? || t.StaticMember? || t.Colon? || t.Dot? || t.Plus? || t.Minus? ||
        t.Asterisk? || t.ForwardSlash? || t.Percent? || t.Tilde? || t.Extract? || t.Insert? {
      SpelledBackSeparators(t);
    } else if t.At? || t.Ampersand? || t.And? || t.Or? || t.Xor? || t.Exclamation? || t.LessThan? ||
        t.GreaterThan? || t.LessThanEq? {
      SpelledBackLogic(t);
    } else if t.GreaterThanEq? || t.Equality? || t.Inequality? || t.LShift? || t.RShift? ||
        t.Caret? || t.Question? || t.Fallback? || t.Assign? {
      SpelledBackComparison(t);
    } else if t.AssignAdd? || t.AssignSub? || t.AssignMul? || t.AssignDiv? || t.AssignRem? {
      SpelledBackAssignment(t);
    } else if t.AssignCat? || t.AlternateOr? || t.AlternateXor? || t.AlternateAnd? {
      SpelledBackConcatenation(t);
    } else if t.AlternateNot? || t.BraceLeft? || t.BraceRight? || t.ParenLeft? {
      SpelledBackAlternate(t);
    } else {
      SpelledBackBrackets(t);
    }
  }

  /* SpelledBack for one stretch of the spelling table at a time, which keeps each proof small. */

  lemma {:induction false} SpelledBackSeparators(t: TokenType)
    requires t.Semicolon? || t.Pipe? || t.Dollar? || t.Hash? || t.Backslash? || t.Comma? ||
             t.DoubleDot? || t.StaticMember? || t.Colon? || t.Dot? || t.Plus? || t.Minus? ||
             t.Asterisk? || t.ForwardSlash? || t.Percent? || t.Tilde? || t.Extract? || t.Insert?
    ensures Spelling(t).Some? && SpelledType(Spelling(t).value) == Some(t)
  {
  }

  lemma {:induction false} SpelledBackLogic(t: TokenType)
    requires t.At? || t.Ampersand? || t.And? || t.Or? || t.Xor? || t.Exclamation? || t.LessThan? ||
             t.GreaterThan? || t.LessThanEq?
    ensures Spelling(t).Some? && SpelledType(Spelling(t).value) == Some(t)
  {
  }

  lemma {:induction false} SpelledBackComparison(t: TokenType)
    requires t.GreaterThanEq? || t.Equality? || t.Inequality? || t.LShift? || t.RShift? ||
             t.Caret? || t.Question? || t.Fallback? || t.Assign?
    ensures Spelling(t).Some? && SpelledType(Spelling(t).value) == Some(t)
  {
  }

  lemma {:induction false} SpelledBackAssignment(t: TokenType)
    requires t.AssignAdd? || t.AssignSub? || t.AssignMul? || t.AssignDiv? || t.AssignRem?
    ensures Spelling(t).Some? && SpelledType(Spelling(t).value) == Some(t)
  {
  }

  lemma {:induction false} SpelledBackConcatenation(t: TokenType)
    requires t.AssignCat? || t.AlternateOr? || t.AlternateXor? || t.AlternateAnd?
    ensures Spelling(t).Some? && SpelledType(Spelling(t).value) == Some(t)
  {
  }

  lemma {:induction false} SpelledBackAlternate(t: TokenType)
    requires t.AlternateNot? || t.BraceLeft? || t.BraceRight? || t.ParenLeft?
    ensures Spelling(t).Some? && SpelledType(Spelling(t).value) == Some(t)
  {
  }

  lemma {:induction false} SpelledBackBrackets(t: TokenType)
    requires t.ParenRight? || t.SubscriptLeft? || t.SubscriptRight?
    ensures Spelling(t).Some? && SpelledType(Spelling(t).value) == Some(t)
  {
  }

  /** Every spelling SpelledType accepts is the spelling of the type it gives. */
  lemma {:induction false} SpelledTypeSpelled(w: seq<char>, t: TokenType)
    requires SpelledType(w) == Some(t)
    ensures Spelling(t) == Some(w)
  {
    if |w| == 1 {
      assert t == OneByte(w[0]).value && w == [w[0]];
      OneByteSpelled(w[0]);
    } else if |w| == 2 {
      assert t == TwoBytes(w[0], w[1]).value && w == [w[0], w[1]];
      TwoBytesSpelled(w[0], w[1]);
    } else {
      assert t == ThreeBytes(w[0], w[1], w[2]).value && w == [w[0], w[1], w[2]];
      ThreeBytesSpelled(w[0], w[1], w[2]);
    }
  }

  /** SpelledType inverts Spelling: a type has spelling w exactly when w spells that type. */
  lemma {:induction false} SpellingInverse(t: TokenType, w: seq<char>)
    ensures Spelling(t) == Some(w) <==> SpelledType(w) == Some(t)
  {
    if Spelling(t) == Some(w) {
      SpelledBack(t);
    }
    if SpelledType(w) == Some(t) {
      SpelledTypeSpelled(w, t);
    }
  }

  /**
   * read_operator takes the longest spelling in the table: what it reads is
   * the spelling of the type it returns, and no longer prefix of the input
   * spells any token.
   */
  lemma {:induction false} MaximalMunch(s: seq<char>)
    requires Operator(s).status == ErrNone
    ensures SpelledType(s[..Operator(s).used]) == Some(Operator(s).value)
    ensures forall m :: Operator(s).used < m <= |s| ==> SpelledType(s[..m]).None?
  {
    var r := Operator(s);
    assert s[..1] == [s[0]];
    if |s| >= 2 { assert s[..2] == [s[0], s[1]]; }
    if |s| >= 3 { assert s[..3] == [s[0], s[1], s[2]]; }
  }

  /** One-byte operators followed by a space, in three groups to keep each proof small. */
  lemma {:induction false} RelexOneArith(a: char, s: seq<char>)
    requires (a == ':' || a == '.' || a == '+' || a == '-' || a == '*' || a == '/') && s == [a, ' ']
    ensures Operator(s).status == ErrNone && Some(Operator(s).value) == OneByte(a) && Operator(s).used == 1
  {
    assert s[0] == a && s[1] == ' ';
  }

  lemma {:induction false} RelexOneLogic(a: char, s: seq<char>)
    requires (a == '%' || a == '&' || a == '\\' || a == '<' || a == '>' || a == '=') && s == [a, ' ']
    ensures Operator(s).status == ErrNone && Some(Operator(s).value) == OneByte(a) && Operator(s).used == 1
  {
    assert s[0] == a && s[1] == ' ';
  }

  lemma {:induction false} RelexOneOther(a: char, s: seq<char>)
    requires (a == '!' || a == '~' || a == '@' || a == '^' || a == '?') && s == [a, ' ']
    ensures Operator(s).status == ErrNone && Some(Operator(s).value) == OneByte(a) && Operator(s).used == 1
  {
    assert s[0] == a && s[1] == ' ';
  }

  /** A two-byte operator followed by a space. */
  lemma {:induction false} RelexTwo(a: char, b: char, s: seq<char>)
    requires TwoBytes(a, b).Some? && s == [a, b, ' ']
    ensures Operator(s).status == ErrNone && Operator(s).value == TwoBytes(a, b).value && Operator(s).used == 2
  {
    if a == '.' || a == ':' || a == '&' || a == '|' || a == '\\' || a == '?' {
      RelexTwoDoubled(a, b, s);
    } else if a == '+' || a == '-' || a == '*' {
      RelexTwoAdditive(a, b, s);
    } else if a == '/' || a == '%' {
      RelexTwoMultiplicative(a, b, s);
    } else if a == '=' || a == '~' || a == '<' {
      RelexTwoRelations(a, b, s);
    } else {
      RelexTwoOthers(a, b, s);
    }
  }

  /* RelexTwo for a few first bytes at a time, which keeps each proof small. */

  lemma {:induction false} RelexTwoDoubled(a: char, b: char, s: seq<char>)
    requires TwoBytes(a, b).Some? && (a == '.' || a == ':' || a == '&' || a == '|' || a == '\\' || a == '?') && s == [a, b, ' ']
    ensures Operator(s).status == ErrNone && Operator(s).value == TwoBytes(a, b).value && Operator(s).used == 2
  {
    assert s[0] == a && s[1] == b && s[2] == ' ';
  }

  lemma {:induction false} RelexTwoAdditive(a: char, b: char, s: seq<char>)
    requires TwoBytes(a, b).Some? && (a == '+' || a == '-' || a == '*') && s == [a, b, ' ']
    ensures Operator(s).status == ErrNone && Operator(s).value == TwoBytes(a, b).value && Operator(s).used == 2
  {
    assert s[0] == a && s[1] == b && s[2] == ' ';
  }

  lemma {:induction false} RelexTwoMultiplicative(a: char, b: char, s: seq<char>)
    requires TwoBytes(a, b).Some? && (a == '/' || a == '%') && s == [a, b, ' ']
    ensures Operator(s).status == ErrNone && Operator(s).value == TwoBytes(a, b).value && Operator(s).used == 2
  {
    assert s[0] == a && s[1] == b && s[2] == ' ';
  }

  lemma {:induction false} RelexTwoRelations(a: char, b: char, s: seq<char>)
    requires TwoBytes(a, b).Some? && (a == '=' || a == '~' || a == '<') && s == [a, b, ' ']
    ensures Operator(s).status == ErrNone && Operator(s).value == TwoBytes(a, b).value && Operator(s).used == 2
  {
    assert s[0] == a && s[1] == b && s[2] == ' ';
  }

  lemma {:induction false} RelexTwoOthers(a: char, b: char, s: seq<char>)
    requires TwoBytes(a, b).Some? && (a == '>' || a == '!') && s == [a, b, ' ']
    ensures Operator(s).status == ErrNone && Operator(s).value == TwoBytes(a, b).value && Operator(s).used == 2
  {
    assert s[0] == a && s[1] == b && s[2] == ' ';
  }

  /** A three-byte operator followed by a space. */
  lemma {:induction false} RelexThree(a: char, b: char, c: char, s: seq<char>)
    requires ThreeBytes(a, b, c).Some? && s == [a, b, c, ' ']
    ensures Operator(s).status == ErrNone && Operator(s).value == ThreeBytes(a, b, c).value && Operator(s).used == 3
  {
    assert s[0] == a && s[1] == b && s[2] == c && s[3] == ' ';
  }

  /** After the white space that ends at k, a byte other than a slash goes straight to the dispatch on its class. */
  lemma {:induction false} TokenAtDispatch(s: seq<char>, k: nat)
    requires k == SpaceRun(s) && k < |s| && s[k] != '/'
    ensures TokenAt(s) == Dispatch(s, k, k + 1, s[k])
  {
  }

  /** Punctuation is a token of its own. */
  lemma {:induction false} TokenAtPunctuation(s: seq<char>)
    requires |s| >= 1 && Punctuation(s[0]).Some?
    ensures TokenAt(s).status == ErrNone && TokenAt(s).typ == Punctuation(s[0]).value && TokenAt(s).used == 1
  {
    assert SpaceRun(s) == 0;
    TokenAtDispatch(s, 0);
    DispatchPunctuation(s, 0, 1, s[0]);
  }

  /** read_token reads punctuation itself. */
  lemma {:induction false} DispatchPunctuation(s: seq<char>, p: nat, start: nat, c: char)
    requires p < start <= |s| && Punctuation(c).Some?
    ensures Dispatch(s, p, start, c) == Scan(ErrNone, Punctuation(c).value, [], 0, p + 1, start, start, None)
  {
    assert !IsWordStart(c) && !IsDigit(c);
  }

  /** A byte that starts an operator and no comment is read by read_operator. */
  lemma {:induction false} TokenAtOperator(s: seq<char>)
    requires |s| >= 1 && IsOperatorStart(s[0]) && Comment(s).status == ErrNoTok
    ensures TokenAt(s).status == Operator(s).status && TokenAt(s).err == Operator(s).err
    ensures TokenAt(s).used == Operator(s).used
    ensures Operator(s).status == ErrNone ==> TokenAt(s).typ == Operator(s).value
  {
    assert SpaceRun(s) == 0;
    assert s[0..] == s;
    if s[0] == '/' {
      assert TokenAt(s) == OperatorToken(s, 0, Comment(s).seen);
    } else {
      TokenAtDispatch(s, 0);
      DispatchOperator(s, 0, 1, s[0]);
    }
  }

  /** read_token hands an operator byte to read_operator. */
  lemma {:induction false} DispatchOperator(s: seq<char>, p: nat, start: nat, c: char)
    requires p <= start <= |s| && IsOperatorStart(c)
    ensures Dispatch(s, p, start, c) == OperatorToken(s, p, start)
  {
    assert !IsWordStart(c) && !IsDigit(c) && Punctuation(c).None? && c != '"' && c != '\'';
  }

  /** A one-byte spelling followed by a space lexes back to its type. */
  lemma {:induction false} RelexSpelledOne(a: char, s: seq<char>)
    requires OneByte(a).Some? && a != '|' && s == [a, ' ']
    ensures TokenAt(s).status == ErrNone && Some(TokenAt(s).typ) == OneByte(a) && TokenAt(s).used == 1
  {
    if Punctuation(a).Some? {
      RelexPunctuation(a, s);
    } else {
      RelexOperatorOne(a, s);
    }
  }

  lemma {:induction false} RelexPunctuation(a: char, s: seq<char>)
    requires Punctuation(a).Some? && s == [a, ' ']
    ensures TokenAt(s).status == ErrNone && Some(TokenAt(s).typ) == OneByte(a) && TokenAt(s).used == 1
  {
    assert s[0] == a;
    assert OneByte(a) == Punctuation(a);
    TokenAtPunctuation(s);
  }

  lemma {:induction false} RelexOperatorOne(a: char, s: seq<char>)
    requires OneByte(a).Some? && Punctuation(a).None? && a != '|' && s == [a, ' ']
    ensures TokenAt(s).status == ErrNone && Some(TokenAt(s).typ) == OneByte(a) && TokenAt(s).used == 1
  {
    assert s[0] == a && s[1] == ' ';
    if a == ':' || a == '.' || a == '+' || a == '-' || a == '*' || a == '/' {
      RelexOneArith(a, s);
    } else if a == '%' || a == '&' || a == '\\' || a == '<' || a == '>' || a == '=' {
      RelexOneLogic(a, s);
    } else {
      RelexOneOther(a, s);
    }
    TokenAtOperator(s);
  }

  /** A two-byte spelling followed by a space lexes back to its type. */
  lemma {:induction false} RelexSpelledTwo(a: char, b: char, s: seq<char>)
    requires TwoBytes(a, b).Some? && s == [a, b, ' ']
    ensures TokenAt(s).status == ErrNone && Some(TokenAt(s).typ) == TwoBytes(a, b) && TokenAt(s).used == 2
  {
    RelexTwo(a, b, s);
    assert s[0] == a && s[1] == b;
    TokenAtOperator(s);
  }

  /** A three-byte spelling followed by a space lexes back to its type. */
  lemma {:induction false} RelexSpelledThree(a: char, b: char, c: char, s: seq<char>)
    requires ThreeBytes(a, b, c).Some? && s == [a, b, c, ' ']
    ensures TokenAt(s).status == ErrNone && Some(TokenAt(s).typ) == ThreeBytes(a, b, c) && TokenAt(s).used == 3
  {
    RelexThree(a, b, c, s);
    assert s[0] == a && s[1] == b;
    TokenAtOperator(s);
  }

  /**
   * Every operator and punctuation spelling except the lone `|` lexes back
   * to its own type, taking exactly its own bytes, when a space follows it.
   */
  lemma {:induction false} OperatorRoundTrip(t: TokenType)
    requires Spelling(t).Some? && t != Pipe
    ensures var w := Spelling(t).value;
            TokenAt(w + " ").status == ErrNone && TokenAt(w + " ").typ == t && TokenAt(w + " ").used == |w|
  {
    var w := Spelling(t).value;
    SpellingInverse(t, w);
    RelexSpelled(w, t);
  }

  lemma {:induction false} RelexSpelled(w: seq<char>, t: TokenType)
    requires SpelledType(w) == Some(t) && t != Pipe
    ensures TokenAt(w + " ").status == ErrNone && TokenAt(w + " ").typ == t && TokenAt(w + " ").used == |w|
  {
    var s := w + " ";
    if |w| == 1 {
      assert s == [w[0], ' '];
      RelexSpelledOne(w[0], s);
    } else if |w| == 2 {
      assert s == [w[0], w[1], ' '];
      RelexSpelledTwo(w[0], w[1], s);
    } else {
      assert s == [w[0], w[1], w[2], ' '];
      RelexSpelledThree(w[0], w[1], w[2], s);
    }
  }

  /** A `|` not followed by a second `|` is BAD_TOK, with the byte it found in the message. */
  lemma {:induction false} LonePipeIsBad(s: seq<char>)
    requires |s| >= 2 && s[0] == '|' && s[1] != '|'
    ensures TokenAt(s).status == ErrBadTok && TokenAt(s).err == Some(ExpectedPipe(s[1]))
  {
    TokenAtOperator(s);
  }

  /** There is no arrow token: `->` is a minus, and the `>` is left for the next token. */
  lemma {:induction false} NoArrowToken(s: seq<char>)
    requires |s| >= 2 && s[0] == '-' && s[1] == '>'
    ensures TokenAt(s).status == ErrNone && TokenAt(s).typ == Minus && TokenAt(s).used == 1
  {
    TokenAtOperator(s);
  }

  /** A byte that starts no token stops the lexer with UNKNOWN_CHAR and no message. */
  lemma {:induction false} UnknownCharStops(s: seq<char>)
    requires SpaceRun(s) < |s|
    requires var c := s[SpaceRun(s)];
             !IsWordStart(c) && !IsDigit(c) && Punctuation(c).None? && c != '"' && c != '\'' && !IsOperatorStart(c)
    ensures TokenAt(s).status == ErrUnknownChar && TokenAt(s).err.None? && TokenAt(s).used == SpaceRun(s)
  {
  }

  /* ---------------------------------------------------------------- */
  /* Number literals. */

  /** Letter c occurs at most once in suf, counting one more occurrence when `before` holds. */
  predicate Once(before: bool, suf: seq<char>, c: char)
  {
    (if before then 1 else 0) + multiset(suf)[c] <= 1
  }

  /**
   * The suffix check in the middle of the suffix string: l, u and f record the
   * letters already met. It passes exactly when no letter repeats and no U
   * comes with a decimal point or before an F, and then it reports which
   * letters occur.
   */
  lemma {:induction false} CheckSuffixesMeaning(suf: seq<char>, decimal: bool, l: bool, u: bool, f: bool)
    requires forall k :: 0 <= k < |suf| ==> IsSuffixLetter(suf[k])
    requires !(u && decimal)
    ensures var r := CheckSuffixes(suf, decimal, l, u, f);
            r.Counts? ==> r.long == (l || 'L' in suf) && r.unsigned == (u || 'U' in suf) && r.float == (f || 'F' in suf)
    ensures var r := CheckSuffixes(suf, decimal, l, u, f);
            (r.Counts? && !(r.unsigned && (r.float || decimal))) <==>
            (Once(l, suf, 'L') && Once(u, suf, 'U') && Once(f, suf, 'F') &&
             !((u || 'U' in suf) && (f || 'F' in suf || decimal)))
    decreases |suf|
  {
    if suf != [] {
      var rest := suf[1..];
      assert suf == [suf[0]] + rest;
      assert multiset(suf) == multiset{suf[0]} + multiset(rest);
      assert forall c :: c in suf <==> c == suf[0] || c in rest;
      if suf[0] == 'L' {
        if !l { CheckSuffixesMeaning(rest, decimal, true, u, f); }
      } else if suf[0] == 'U' {
        if !decimal && !u { CheckSuffixesMeaning(rest, decimal, l, true, f); }
      } else {
        if !u && !f { CheckSuffixesMeaning(rest, decimal, l, u, true); }
      }
    }
  }

  /**
   * A suffix string is legal exactly when each of L, U and F occurs at most
   * once and U comes with neither a decimal point nor F. The literal is then
   * floating when it has a decimal point or F (F64 with L, F32 without), and
   * otherwise L makes it 64-bit and U unsigned.
   */
  lemma {:induction false} SuffixRule(suf: seq<char>, decimal: bool)
    requires forall k :: 0 <= k < |suf| ==> IsSuffixLetter(suf[k])
    ensures var r := CheckSuffixes(suf, decimal, false, false, false);
            (r.Counts? && NumberType(r.long, r.unsigned, r.float || decimal) != NoneTok) <==>
            (multiset(suf)['L'] <= 1 && multiset(suf)['U'] <= 1 && multiset(suf)['F'] <= 1 &&
             !('U' in suf && ('F' in suf || decimal)))
    ensures var r := CheckSuffixes(suf, decimal, false, false, false);
            r.Counts? ==> NumberType(r.long, r.unsigned, r.float || decimal) == NumberType('L' in suf, 'U' in suf, 'F' in suf || decimal)
  {
    CheckSuffixesMeaning(suf, decimal, false, false, false);
  }

  /** Digits, a space: a plain int. */
  lemma {:induction false} NumeralThenDots(s: seq<char>)
    requires s == "1..5 "
    ensures NumeralFrom(s, 0, 1, false, []) == Numeral(ErrNone, "1", false, 1, 3)
    ensures SuffixRun(s, 1) == []
  {
    assert s[0] == '1' && s[1] == '.' && s[2] == '.';
    assert [] + ['1'] == "1";
    assert NumeralFrom(s, 0, 1, false, []) == NumeralFrom(s, 1, 1, false, "1");
  }

  /**
   * A dot after digits stays only when a digit follows: in `1..5` the
   * number is just 1 and the dots are left for the next token.
   */
  lemma {:induction false} DotNeedsDigit(s: seq<char>)
    requires s == "1..5 "
    ensures Number(s) == Read(ErrNone, NumLit(LitI32, "1"), 1, 3, None)
  {
    NumeralThenDots(s);
  }

  lemma {:induction false} NumeralWithExponentMinus(s: seq<char>)
    requires s == "1e-5 "
    ensures NumeralFrom(s, 0, 1, false, []) == Numeral(ErrNone, "1e-", true, 2, 3)
    ensures SuffixRun(s, 2) == []
  {
    assert s[0] == '1' && s[1] == 'e' && s[2] == '-';
    assert [] + ['1'] == "1";
    assert "1" + "e-" == "1e-";
    assert NumeralFrom(s, 0, 1, false, []) == NumeralFrom(s, 1, 1, false, "1");
    assert NumeralFrom(s, 1, 1, false, "1") == NumeralFrom(s, 2, 3, true, "1e-");
  }

  /** `e-` goes into the numeral's text, but the `-` stays in the input: `1e-5` reads `1e-` and stops at the minus. */
  lemma {:induction false} ExponentMinus(s: seq<char>)
    requires s == "1e-5 "
    ensures Number(s) == Read(ErrNone, NumLit(LitF32, "1e-"), 2, 3, None)
  {
    NumeralWithExponentMinus(s);
  }

  /* ---------------------------------------------------------------- */
  /* Char literals and words. */

  /** A char literal holds at most one byte in its contents, and its data stays 0. */
  lemma {:induction false} CharLiteralShape(s: seq<char>, p: nat, start: nat)
    requires p <= start <= |s|
    ensures var r := StringToken(s, p, start, '\'');
            r.status == ErrNone ==> r.typ == LitStrSingle && |r.contents| <= 1 && r.data == 0
    ensures var r := StringToken(s, p, start, '\'');
            Stringlike(s[p..], '\'').status == ErrNone && |Stringlike(s[p..], '\'').value| > 1 ==>
            r.status == ErrBadTok && r.err == Some(MultibyteChar)
  {
  }

  /** `''` is an empty char literal. */
  lemma {:induction false} EmptyCharLiteral(s: seq<char>)
    requires s == "'' "
    ensures TokenAt(s) == Scan(ErrNone, LitStrSingle, [], 0, 2, 2, 1, None)
  {
    assert s[0] == '\'' && s[1] == '\'' && s[0..] == s;
    assert SpaceRun(s) == 0;
    assert Stringlike(s, '\'') == Read(ErrNone, [], 2, 2, None);
  }

  /** `'ab'` decodes to two bytes, which is BAD_TOK. */
  lemma {:induction false} MultibyteCharRejected(s: seq<char>)
    requires s == "'ab' "
    ensures TokenAt(s).status == ErrBadTok && TokenAt(s).err == Some(MultibyteChar)
  {
    assert s[0] == '\'' && s[1] == 'a' && s[2] == 'b' && s[3] == '\'' && s[0..] == s;
    assert SpaceRun(s) == 0;
    PlainLiteral(s, '\'', 3);
    assert s[1..3] == "ab";
  }

  /** The end of a word run does not depend on where the input is cut before it. */
  lemma {:induction false} WordEndShift(s: seq<char>, k: nat)
    requires k <= |s|
    ensures WordEnd(s[k..], 0) + k == WordEnd(s, k)
  {
    var b := WordEnd(s, k);
    assert forall m :: 0 <= m < |s| - k ==> s[k..][m] == s[k + m];
    WordEndAt(s[k..], 0, b - k);
  }

  /**
   * A word is the longest run of letters, digits and underscores; it is a
   * keyword exactly when classify_wordlike says so, and otherwise an
   * identifier. A word that runs into the end of the input is dropped.
   */
  lemma {:induction false} WordTokens(s: seq<char>)
    requires SpaceRun(s) < |s| && IsWordStart(s[SpaceRun(s)])
    ensures var k := SpaceRun(s); var e := WordEnd(s, k);
            e == |s| ==> TokenAt(s).status == ErrEof
    ensures var k := SpaceRun(s); var e := WordEnd(s, k);
            e < |s| ==> TokenAt(s).status == ErrNone && TokenAt(s).contents == s[k..e] &&
                        TokenAt(s).typ == ClassifyWordlike(s[k..e]) && TokenAt(s).used == e
  {
    var k := SpaceRun(s);
    TokenAtDispatch(s, k);
    DispatchWord(s, k, k + 1, s[k]);
    WordTokenExtent(s, k, k + 1);
  }

  /** read_token hands a letter or underscore to read_wordlike. */
  lemma {:induction false} DispatchWord(s: seq<char>, p: nat, start: nat, c: char)
    requires p <= start <= |s| && IsWordStart(c)
    ensures Dispatch(s, p, start, c) == WordToken(s, p, start)
  {
  }

  /** The word read at p is the run of word bytes there. */
  lemma {:induction false} WordTokenExtent(s: seq<char>, p: nat, start: nat)
    requires p <= start <= |s| && p < |s| && IsWordStart(s[p])
    ensures var e := WordEnd(s, p);
            (e == |s| ==> WordToken(s, p, start).status == ErrEof) &&
            (e < |s| ==> WordToken(s, p, start).status == ErrNone && WordToken(s, p, start).contents == s[p..e] &&
                         WordToken(s, p, start).typ == ClassifyWordlike(s[p..e]) && WordToken(s, p, start).used == e)
  {
    WordEndShift(s, p);
    var e := WordEnd(s, p);
    assert s[p..][..e - p] == s[p..e];
  }

  /* ---------------------------------------------------------------- */
  /* The token loop. */

  /** all is tokens followed by tokens that are neither EOF nor NONE. */
  predicate Extends(all: seq<Token>, tokens: seq<Token>)
  {
    |tokens| <= |all| && all[..|tokens|] == tokens &&
    forall i :: |tokens| <= i < |all| ==> all[i].typ != Eof && all[i].typ != NoneTok
  }

  lemma {:induction false} ExtendsTrans(tokens: seq<Token>, mid: seq<Token>, all: seq<Token>)
    requires Extends(mid, tokens) && Extends(all, mid)
    ensures Extends(all, tokens)
  {
    assert all[..|tokens|] == all[..|mid|][..|tokens|];
    forall i | |tokens| <= i < |all|
      ensures all[i].typ != Eof && all[i].typ != NoneTok
    {
      if i < |mid| {
        assert all[i] == mid[i];
      }
    }
  }

  /** A turn appends at most one token, which is neither EOF nor NONE. */
  lemma {:induction false} LexStepAppends(src: seq<char>, c: nat, idx: nat, tokens: seq<Token>, err: Option<Message>)
    requires c <= idx <= |src|
    ensures var st := LexStep(src, c, idx, tokens, err);
            st.Continue? ==> Extends(st.tokens, tokens) && |st.tokens| <= |tokens| + 1
  {
    var r := TokenAt(src[c..]);
    if r.status == ErrNone {
      LexStepToken(src, c, idx, tokens, err, r);
      var tok := Token(r.typ, r.contents, r.data, 0, PosAfter(src[..Max(idx, c + r.start)]));
      assert (tokens + [tok])[..|tokens|] == tokens;
    } else {
      assert tokens[..|tokens|] == tokens;
    }
  }

  /**
   * The token loop only appends: the tokens so far stay a prefix, and no
   * token it adds is EOF or NONE.
   */
  lemma {:induction false} LexFromAppends(src: seq<char>, c: nat, idx: nat, tokens: seq<Token>, err: Option<Message>)
    requires c <= idx <= |src|
    ensures Extends(LexFrom(src, c, idx, tokens, err).tokens, tokens)
    decreases |src| - c
  {
    var st := LexStep(src, c, idx, tokens, err);
    if st.Stop? {
      assert LexFrom(src, c, idx, tokens, err).tokens == tokens;
      assert tokens[..|tokens|] == tokens;
    } else {
      LexStepAppends(src, c, idx, tokens, err);
      LexFromAppends(src, st.c, st.idx, st.tokens, st.err);
      assert LexFrom(src, c, idx, tokens, err) == LexFrom(src, st.c, st.idx, st.tokens, st.err);
      ExtendsTrans(tokens, st.tokens, LexFrom(src, st.c, st.idx, st.tokens, st.err).tokens);
    }
  }

  /**
   * put_err keeps the first message: once recorded it is never replaced,
   * and the first one comes only with BAD_TOK, which ends the loop.
   */
  lemma {:induction false} LexFromMessage(src: seq<char>, c: nat, idx: nat, tokens: seq<Token>, err: Option<Message>)
    requires c <= idx <= |src|
    ensures err.Some? ==> LexFrom(src, c, idx, tokens, err).err == err
    ensures err.None? && LexFrom(src, c, idx, tokens, err).err.Some? ==> LexFrom(src, c, idx, tokens, err).status == ErrBadTok
    decreases |src| - c
  {
    match LexStep(src, c, idx, tokens, err)
    case Stop(o) =>
    case Continue(c', idx', tokens', err') =>
      LexFromMessage(src, c', idx', tokens', err');
  }

  /**
   * gramina_lex always ends its token list with an EOF token, and with no
   * other; it succeeds or fails with BAD_TOK or UNKNOWN_CHAR, and it records
   * a message only when it fails with BAD_TOK.
   */
  lemma {:induction false} LexShape(src: seq<char>)
    ensures var r := Lex(src);
            |r.tokens| >= 1 && r.tokens[|r.tokens| - 1].typ == Eof &&
            forall i :: 0 <= i < |r.tokens| - 1 ==> r.tokens[i].typ != Eof
    ensures var r := Lex(src);
            r.status == ErrNone || r.status == ErrBadTok || r.status == ErrUnknownChar
    ensures Lex(src).errorDescription.Some? ==> Lex(src).status == ErrBadTok
  {
    LexFromAppends(src, 0, 0, [], None);
    LexFromMessage(src, 0, 0, [], None);
    var o := LexFrom(src, 0, 0, [], None);
    assert forall i :: 0 <= i < |o.tokens| ==> o.tokens[i].typ != Eof;
  }

  /**
   * A string that is never closed is not an error: lexing stops at the end
   * of the input with status NONE and only the EOF token.
   */
  lemma {:induction false} UnterminatedString(s: seq<char>)
    requires s == "\"ab"
    ensures Lex(s) == LexResult([Token(Eof, [], 0, 0, Position(1, 1, 0))], ErrNone, Position(1, 3, 3), None)
  {
    UnterminatedStringTurn(s);
    LexFromTurn(s, 0, 0, [], None);
    assert s[..3] == [] + s;
    ColumnAdvance([], s);
  }

  lemma {:induction false} UnterminatedStringTurn(s: seq<char>)
    requires s == "\"ab"
    ensures LexStep(s, 0, 0, [], None) == Stop(Outcome([], ErrEof, 3, None))
  {
    assert s[0] == '"' && s[0..] == s;
    assert SpaceRun(s) == 0;
    TokenAtDispatch(s, 0);
    UnterminatedStringRead(s);
  }

  lemma {:induction false} UnterminatedStringRead(s: seq<char>)
    requires s == "\"ab"
    ensures Stringlike(s, '"') == Read(ErrEof, "ab", 3, 3, None)
  {
    assert s[0] == '"' && s[1] == 'a' && s[2] == 'b';
    assert StringFrom(s, '"', 1, []) == StringFrom(s, '"', 2, [] + ['a']);
    assert StringFrom(s, '"', 2, [] + ['a']) == StringFrom(s, '"', 3, [] + ['a'] + ['b']);
    assert [] + ['a'] + ['b'] == "ab";
  }

  /** A comment that is never closed is not an error either. */
  lemma {:induction false} UnterminatedComment(s: seq<char>)
    requires s == "/* a"
    ensures Lex(s).status == ErrNone && Lex(s).tokens == [Token(Eof, [], 0, 0, Position(1, 1, 0))]
  {
    assert s[0] == '/' && s[1] == '*' && s[0..] == s;
    assert SpaceRun(s) == 0;
    assert BlockEnd(s, 3) == None;
  }

  lemma {:induction false} WordBeforeNewline(t: seq<char>)
    requires t == "ab\n"
    ensures Wordlike(t) == Read(ErrNone, "ab", 2, 3, None)
  {
    assert t[0] == 'a' && t[1] == 'b' && t[2] == '\n';
    assert WordEnd(t, 0) == 2;
    assert t[..2] == "ab";
  }

  /** The first token of `  ab` and a newline. */
  lemma {:induction false} FirstWordOfLine(s: seq<char>)
    requires s == "  ab\n"
    ensures TokenAt(s) == Scan(ErrNone, Identifier, "ab", 0, 4, 5, 3, None)
  {
    assert s[0] == ' ' && s[1] == ' ' && s[2] == 'a';
    assert SpaceRun(s) == 2 by { assert SpaceRun(s[1..]) == 1 by { assert s[1..][1..] == s[2..]; } }
    TokenAtDispatch(s, 2);
    DispatchWord(s, 2, 3, 'a');
    FirstWord(s);
  }

  lemma {:induction false} FirstWord(s: seq<char>)
    requires s == "  ab\n"
    ensures WordToken(s, 2, 3) == Scan(ErrNone, Identifier, "ab", 0, 4, 5, 3, None)
  {
    WordBeforeNewline(s[2..]);
    assert ClassifyWordlike("ab") == Identifier;
  }

  /**
   * A token's position is taken once its first byte has been looked at, and
   * the EOF token sits one column past the last token: in two spaces, `ab`
   * and a newline, `ab` is at line 1 column 3 and EOF at column 4.
   */
  lemma {:induction false} TokenPositions(s: seq<char>)
    requires s == "  ab\n"
    ensures Lex(s).tokens == [Token(Identifier, "ab", 0, 0, Position(1, 3, 3)), Token(Eof, [], 0, 0, Position(1, 4, 4))]
    ensures Lex(s).status == ErrNone && Lex(s).errorDescription == None
  {
    TwoTurns(s);
  }

  lemma {:induction false} TwoTurns(s: seq<char>)
    requires s == "  ab\n"
    ensures LexFrom(s, 0, 0, [], None) == Outcome([Token(Identifier, "ab", 0, 0, Position(1, 3, 3))], ErrEof, 5, None)
  {
    var tok := Token(Identifier, "ab", 0, 0, Position(1, 3, 3));
    FirstTurn(s);
    LastTurn(s, tok);
    LexFromTurn(s, 0, 0, [], None);
    LexFromTurn(s, 4, 5, [tok], None);
  }

  /** The token loop is its first turn followed by the rest of the loop. */
  lemma {:induction false} LexFromTurn(src: seq<char>, c: nat, idx: nat, tokens: seq<Token>, err: Option<Message>)
    requires c <= idx <= |src|
    ensures var st := LexStep(src, c, idx, tokens, err);
            LexFrom(src, c, idx, tokens, err) == if st.Stop? then st.outcome else LexFrom(src, st.c, st.idx, st.tokens, st.err)
  {
  }

  lemma {:induction false} FirstTurn(s: seq<char>)
    requires s == "  ab\n"
    ensures LexStep(s, 0, 0, [], None) == Continue(4, 5, [Token(Identifier, "ab", 0, 0, Position(1, 3, 3))], None)
  {
    assert s[0..] == s;
    ThirdBytePosition(s);
    FirstWordOfLine(s);
    LexStepToken(s, 0, 0, [], None, TokenAt(s));
  }

  lemma {:induction false} ThirdBytePosition(s: seq<char>)
    requires s == "  ab\n"
    ensures PosAfter(s[..3]) == Position(1, 3, 3)
  {
    ColumnAdvance([], s[..3]);
    assert [] + s[..3] == s[..3];
  }

  /** A turn that reads a token appends it, positioned where the lexer had looked when it started the token. */
  lemma {:induction false} LexStepToken(src: seq<char>, c: nat, idx: nat, tokens: seq<Token>, err: Option<Message>, r: Scan)
    requires c <= idx <= |src| && r == TokenAt(src[c..]) && r.status == ErrNone
    ensures var st := LexStep(src, c, idx, tokens, err);
            && st.Continue? && st.c == c + r.used && st.idx == Max(idx, c + r.seen) && st.err == Kept(err, r.err)
            && st.tokens == tokens + [Token(r.typ, r.contents, r.data, 0, PosAfter(src[..Max(idx, c + r.start)]))]
  {
    assert LexStep(src, c, idx, tokens, err) == StepOn(src, c, idx, tokens, err, r);
  }

  lemma {:induction false} LastTurn(s: seq<char>, tok: Token)
    requires s == "  ab\n"
    ensures LexStep(s, 4, 5, [tok], None) == Stop(Outcome([tok], ErrEof, 5, None))
  {
    assert s[4..] == "\n";
    assert TokenAt(s[4..]) == Scan(ErrEof, NoneTok, [], 0, 1, 1, 1, None);
  }
}

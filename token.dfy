/**
 * Tokens of the lexer (src/parser/token.c, include/parser/token.h).
 */
module Token {
  import opened Wrappers
  import Str

  /** enum gramina_token_type, in declaration order. */
  datatype TokenType =
    | Eof | IllFormed | NoneTok
    | Semicolon | Pipe | Dollar | Hash | Backslash | Comma | DoubleDot
    | StaticMember | Colon | Dot | Plus | Minus | Asterisk | ForwardSlash | Percent
    | Tilde | Extract | Insert | At | Ampersand | And | Or | Xor | Exclamation
    | LessThan | GreaterThan | LessThanEq | GreaterThanEq | Equality | Inequality
    | LShift | RShift | Caret | Question | Fallback
    | Assign | AssignAdd | AssignSub | AssignMul | AssignDiv | AssignRem | AssignCat
    | AlternateOr | AlternateXor | AlternateAnd | AlternateNot
    | BraceLeft | BraceRight | ParenLeft | ParenRight | SubscriptLeft | SubscriptRight
    | Word | Identifier
    | KwTrue | KwFalse | KwConst | KwImport | KwFence | KwFn | KwStruct | KwIf | KwElse
    | KwFor | KwForeach | KwWhile | KwReturn | KwSizeof | KwAlignof
    | LitStrSingle | LitStrDouble
    | LitI32 | LitU32 | LitI64 | LitU64 | LitF32 | LitF64
  {
    predicate IsKeyword()
    {
      || KwTrue? || KwFalse? || KwConst? || KwImport? || KwFence? || KwFn? || KwStruct?
      || KwIf? || KwElse? || KwFor? || KwForeach? || KwWhile? || KwReturn? || KwSizeof?
      || KwAlignof?
    }

    predicate IsIntLiteral() { LitI32? || LitU32? || LitI64? || LitU64? }

    predicate IsFloatLiteral() { LitF32? || LitF64? }
  }

  /** struct gramina_token_position. */
  datatype Position = Position(line: nat, column: nat, depth: nat)

  /**
   * struct gramina_token. `data` holds the active member of the token's data
   * union for integer literals and is 0 otherwise (float values are not
   * modelled).
   */
  datatype Token = Token(typ: TokenType, contents: seq<char>, data: int, flags: nat, pos: Position)

  /** The byte spelling of each keyword. */
  function KeywordSpelling(t: TokenType): (s: seq<char>)
    requires t.IsKeyword()
  {
    match t
    case KwTrue => "true"
    case KwFalse => "false"
    case KwConst => "const"
    case KwImport => "import"
    case KwFence => "fence"
    case KwFn => "fn"
    case KwStruct => "struct"
    case KwIf => "if"
    case KwElse => "else"
    case KwFor => "for"
    case KwForeach => "foreach"
    case KwWhile => "while"
    case KwReturn => "return"
    case KwSizeof => "sizeof"
    case KwAlignof => "alignof"
  }

  /** classify_wordlike: a keyword's exact spelling gives the keyword, any other word IDENTIFIER. */
  function ClassifyWordlike(w: seq<char>): (t: TokenType)
    ensures t == Identifier || t.IsKeyword()
    ensures t.IsKeyword() ==> KeywordSpelling(t) == w
  {
    if w == "true" then KwTrue
    else if w == "false" then KwFalse
    else if w == "const" then KwConst
    else if w == "import" then KwImport
    else if w == "fence" then KwFence
    else if w == "fn" then KwFn
    else if w == "struct" then KwStruct
    else if w == "if" then KwIf
    else if w == "else" then KwElse
    else if w == "for" then KwFor
    else if w == "foreach" then KwForeach
    else if w == "while" then KwWhile
    else if w == "return" then KwReturn
    else if w == "sizeof" then KwSizeof
    else if w == "alignof" then KwAlignof
    else Identifier
  }

  /** Every keyword is recognised from its spelling. */
  lemma KeywordRoundTrip(t: TokenType)
    requires t.IsKeyword()
    ensures ClassifyWordlike(KeywordSpelling(t)) == t
  {
    match t
    case KwTrue =>
    case KwFalse =>
    case KwConst =>
    case KwImport =>
    case KwFence =>
    case KwFn =>
    case KwStruct =>
    case KwIf =>
    case KwElse =>
    case KwFor =>
    case KwForeach =>
    case KwWhile =>
    case KwReturn =>
    case KwSizeof =>
    case KwAlignof =>
  }

  /** A word is a keyword exactly when it is a keyword's spelling; matching is case-sensitive. */
  lemma KeywordsAreExact(w: seq<char>)
    ensures ClassifyWordlike(w) != Identifier <==> exists t: TokenType :: t.IsKeyword() && KeywordSpelling(t) == w
  {
    var c := ClassifyWordlike(w);
    if c != Identifier {
      assert c.IsKeyword() && KeywordSpelling(c) == w;
    } else {
      forall t: TokenType | t.IsKeyword()
        ensures KeywordSpelling(t) != w
      {
        KeywordRoundTrip(t);
      }
    }
  }

  /** Matching is case-sensitive. */
  lemma KeywordsAreCaseSensitive()
    ensures ClassifyWordlike("True") == Identifier && ClassifyWordlike("IF") == Identifier
  {
  }

  /** The canonical spelling of every punctuation and operator type. */
  function Spelling(t: TokenType): Option<seq<char>>
  {
    match t
    case Semicolon => Some(";")
    case Pipe => Some("|")
    case Dollar => Some("$")
    case Hash => Some("#")
    case Backslash => Some("\\")
    case Comma => Some(",")
    case DoubleDot => Some("..")
    case StaticMember => Some("::")
    case Colon => Some(":")
    case Dot => Some(".")
    case Plus => Some("+")
    case Minus => Some("-")
    case Asterisk => Some("*")
    case ForwardSlash => Some("/")
    case Percent => Some("%")
    case Tilde => Some("~")
    case Extract => Some("~>")
    case Insert => Some("<~")
    case At => Some("@")
    case Ampersand => Some("&")
    case And => Some("&&")
    case Or => Some("||")
    case Xor => Some("\\\\")
    case Exclamation => Some("!")
    case LessThan => Some("<")
    case GreaterThan => Some(">")
    case LessThanEq => Some("<=")
    case GreaterThanEq => Some(">=")
    case Equality => Some("==")
    case Inequality => Some("!=")
    case LShift => Some("<<")
    case RShift => Some(">>")
    case Caret => Some("^")
    case Question => Some("?")
    case Fallback => Some("??")
    case Assign => Some("=")
    case AssignAdd => Some("+=")
    case AssignSub => Some("-=")
    case AssignMul => Some("*=")
    case AssignDiv => Some("/=")
    case AssignRem => Some("%=")
    case AssignCat => Some("~=")
    case AlternateOr => Some("||`")
    case AlternateXor => Some("\\\\`")
    case AlternateAnd => Some("&&`")
    case AlternateNot => Some("!`")
    case BraceLeft => Some("{")
    case BraceRight => Some("}")
    case ParenLeft => Some("(")
    case ParenRight => Some(")")
    case SubscriptLeft => Some("[")
    case SubscriptRight => Some("]")
    case _ => None
  }

  /** The value an integer literal's data member holds. */
  predicate DataInRange(t: Token)
  {
    match t.typ
    case LitI32 => -0x8000_0000 <= t.data < 0x8000_0000
    case LitU32 => 0 <= t.data < Str.U32_LIMIT
    case LitI64 => -(Str.I64_HALF as int) <= t.data < Str.I64_HALF
    case LitU64 => 0 <= t.data < Str.U64_LIMIT
    case _ => true
  }

  /**
   * token_contents: integer literals render their value in decimal,
   * punctuation and operators their spelling, EOF "<eof>", and everything
   * else a copy of `contents`. Float literals (None) are not modelled.
   */
  function TokenContents(t: Token): (r: Option<seq<char>>)
    requires DataInRange(t)
    ensures r.None? <==> t.typ.IsFloatLiteral()
    ensures Spelling(t.typ).Some? ==> r == Spelling(t.typ)
    ensures t.typ == Eof ==> r == Some("<eof>")
    ensures t.typ.LitU32? || t.typ.LitU64? ==> r == Some(Str.Decimal(t.data))
    ensures t.typ.LitI32? || t.typ.LitI64? ==> r == Some(Str.I64ToStr(t.data))
    ensures t.typ.Word? || t.typ.Identifier? || t.typ.LitStrSingle? || t.typ.LitStrDouble? || t.typ.IsKeyword()
            ==> r == Some(t.contents)
  {
    if Spelling(t.typ).Some? then Spelling(t.typ)
    else if t.typ.LitI32? || t.typ.LitI64? then Some(Str.I64ToStr(t.data))
    else if t.typ.LitU32? || t.typ.LitU64? then Some(Str.Decimal(t.data))
    else if t.typ.IsFloatLiteral() then None
    else if t.typ.Eof? then Some("<eof>")
    else Some(t.contents)
  }

  /** An integer literal's rendering reads back as its value. */
  lemma IntegerContentsRoundTrip(t: Token)
    requires DataInRange(t) && t.typ.IsIntLiteral()
    ensures t.typ.LitU32? || t.typ.LitU64? ==> Str.ParseU64(TokenContents(t).value) == t.data
    ensures t.typ.LitI32? || t.typ.LitI64? ==> Str.SvToI64(TokenContents(t).value) == t.data
  {
    if t.typ.LitU32? || t.typ.LitU64? {
      Str.DecimalRoundTrip(t.data);
    } else {
      Str.SignedRoundTrip(t.data);
    }
  }

  /** token_free: an ill-formed token at the zero position with no flags and empty contents. */
  function TokenFree(t: Token): (r: Token)
    ensures r.typ == IllFormed && r.pos == Position(0, 0, 0) && r.flags == 0 && r.contents == []
    ensures r.data == t.data
  {
    t.(typ := IllFormed, contents := [], flags := 0, pos := Position(0, 0, 0))
  }

  /** The identifier of each enum member without its GRAMINA_TOK_ prefix. */
  function EnumName(t: TokenType): seq<char>
  {
    match t
    case Eof => "EOF" case IllFormed => "ILL_FORMED" case NoneTok => "NONE"
    case Semicolon => "SEMICOLON" case Pipe => "PIPE" case Dollar => "DOLLAR"
    case Hash => "HASH" case Backslash => "BACKSLASH" case Comma => "COMMA"
    case DoubleDot => "DOUBLE_DOT" case StaticMember => "STATIC_MEMBER" case Colon => "COLON"
    case Dot => "DOT" case Plus => "PLUS" case Minus => "MINUS" case Asterisk => "ASTERISK"
    case ForwardSlash => "FORWARDSLASH" case Percent => "PERCENT" case Tilde => "TILDE"
    case Extract => "EXTRACT" case Insert => "INSERT" case At => "AT"
    case Ampersand => "AMPERSAND" case And => "AND" case Or => "OR" case Xor => "XOR"
    case Exclamation => "EXCLAMATION" case LessThan => "LESS_THAN"
    case GreaterThan => "GREATER_THAN" case LessThanEq => "LESS_THAN_EQ"
    case GreaterThanEq => "GREATER_THAN_EQ" case Equality => "EQUALITY"
    case Inequality => "INEQUALITY" case LShift => "LSHIFT" case RShift => "RSHIFT"
    case Caret => "CARET" case Question => "QUESTION" case Fallback => "FALLBACK"
    case Assign => "ASSIGN" case AssignAdd => "ASSIGN_ADD" case AssignSub => "ASSIGN_SUB"
    case AssignMul => "ASSIGN_MUL" case AssignDiv => "ASSIGN_DIV" case AssignRem => "ASSIGN_REM"
    case AssignCat => "ASSIGN_CAT" case AlternateOr => "ALTERNATE_OR"
    case AlternateXor => "ALTERNATE_XOR" case AlternateAnd => "ALTERNATE_AND"
    case AlternateNot => "ALTERNATE_NOT" case BraceLeft => "BRACE_LEFT"
    case BraceRight => "BRACE_RIGHT" case ParenLeft => "PAREN_LEFT"
    case ParenRight => "PAREN_RIGHT" case SubscriptLeft => "SUBSCRIPT_LEFT"
    case SubscriptRight => "SUBSCRIPT_RIGHT" case Word => "WORD" case Identifier => "IDENTIFIER"
    case KwTrue => "KW_TRUE" case KwFalse => "KW_FALSE" case KwConst => "KW_CONST"
    case KwImport => "KW_IMPORT" case KwFence => "KW_FENCE" case KwFn => "KW_FN"
    case KwStruct => "KW_STRUCT" case KwIf => "KW_IF" case KwElse => "KW_ELSE"
    case KwFor => "KW_FOR" case KwForeach => "KW_FOREACH" case KwWhile => "KW_WHILE"
    case KwReturn => "KW_RETURN" case KwSizeof => "KW_SIZEOF" case KwAlignof => "KW_ALIGNOF"
    case LitStrSingle => "LIT_STR_SINGLE" case LitStrDouble => "LIT_STR_DOUBLE"
    case LitI32 => "LIT_I32" case LitU32 => "LIT_U32" case LitI64 => "LIT_I64"
    case LitU64 => "LIT_U64" case LitF32 => "LIT_F32" case LitF64 => "LIT_F64"
  }

  /** token_type_to_str: the enum name, except that sizeof and alignof have no case. */
  function TokenTypeToStr(t: TokenType): (s: seq<char>)
    ensures s == "UNKNOWN" <==> t.KwSizeof? || t.KwAlignof?
    ensures !t.KwSizeof? && !t.KwAlignof? ==> s == EnumName(t)
  {
    if t.KwSizeof? || t.KwAlignof? then "UNKNOWN" else EnumName(t)
  }
}

/**
 * Parser state, token primitives, literals, identifiers and typenames
 * (src/parser/parser.c).
 *
 * Every rule of the recursive-descent parser is a function from the token
 * slice and a parser state to the state after the rule and the node it
 * returned (Nil for NULL). The slice always ends with the EOF token the
 * lexer appends, and every rule keeps the cursor on a token of it.
 */
module ParseCore {
  import opened Wrappers
  import opened Token
  import opened Ast

  /**
   * struct tagged_parser_state without its token pointer: the cursor, the
   * error flag and message, and `crashed`, which records that the source
   * would have dereferenced NULL or read past the EOF token.
   */
  datatype PState = PState(index: nat, hasError: bool, error: seq<char>, crashed: bool)

  /** What a rule leaves behind: the new state and the node it returned. */
  datatype Parsed = Parsed(s: PState, node: Ast)

  /** A token slice as the lexer delivers it: non-empty and ending with EOF. */
  predicate Valid(toks: seq<Token>)
  {
    |toks| > 0 && toks[|toks| - 1].typ == Eof
  }

  /** The state a parse starts from. */
  const Start := PState(0, false, [], false)

  /** The position the source leaves unset (malloc'd memory); the model uses zero. */
  const Unset := Position(0, 0, 0)

  /** CONSUME: the cursor moves past the current token, which is never EOF. */
  function Consume(toks: seq<Token>, s: PState): (r: PState)
    requires Valid(toks) && s.index < |toks| && toks[s.index].typ != Eof
    ensures r.index == s.index + 1 && r.index < |toks|
    ensures r.hasError == s.hasError && r.error == s.error && r.crashed == s.crashed
  {
    s.(index := s.index + 1)
  }

  /**
   * An unguarded CONSUME: on EOF the source walks past the end of the
   * slice; the model records the crash and keeps the cursor on EOF.
   */
  function ConsumeAny(toks: seq<Token>, s: PState): (r: PState)
    requires Valid(toks) && s.index < |toks|
    ensures r.index < |toks| && r.hasError == s.hasError && r.error == s.error
    ensures toks[s.index].typ != Eof ==> r == Consume(toks, s)
    ensures toks[s.index].typ == Eof ==> r.crashed && r.index == s.index
  {
    if toks[s.index].typ == Eof then s.(crashed := true) else Consume(toks, s)
  }

  /** SET_ERR: the flag is raised and the message replaced. */
  function SetErr(s: PState, msg: seq<char>): (r: PState)
    ensures r.hasError && r.error == msg && r.index == s.index && r.crashed == s.crashed
  {
    s.(hasError := true, error := msg)
  }

  /** `if (!HAS_ERR(S)) SET_ERR(S, msg)`: an earlier message wins. */
  function SetErrIfNone(s: PState, msg: seq<char>): (r: PState)
    ensures r.hasError && r.index == s.index && r.crashed == s.crashed
    ensures s.hasError ==> r == s
    ensures !s.hasError ==> r.error == msg
  {
    if s.hasError then s else SetErr(s, msg)
  }

  /** CLEAR_ERR: the flag drops and the released message reads as empty. */
  function ClearErr(s: PState): (r: PState)
    ensures !r.hasError && r.index == s.index && r.crashed == s.crashed
  {
    s.(hasError := false, error := [])
  }

  /** A node with no flags and a zeroed value, as mk_ast_node_lr leaves it. */
  function Mk(t: NodeType, pos: Position, l: Ast, r: Ast): (n: Ast)
    ensures n.Node? && n.typ == t && n.pos == pos && !n.constType
    ensures n.value == ZeroValue && n.left == l && n.right == r
  {
    Node(t, pos, false, ZeroValue, l, r)
  }

  /**
   * Statements linked through their right children, the way the loops of
   * function_body, struct_def and gramina_parse chain them with
   * ast_node_child_r.
   */
  function Link(nodes: seq<Ast>): (r: Ast)
    requires forall i :: 0 <= i < |nodes| ==> nodes[i].Node?
    ensures nodes == [] <==> r == Nil
  {
    if nodes == [] then Nil else nodes[0].(right := Link(nodes[1..]))
  }

  /** The statements of a right-linked chain, in order, each detached from its successor. */
  function Unlink(a: Ast): (r: seq<Ast>)
    ensures forall i :: 0 <= i < |r| ==> r[i].Node? && r[i].right == Nil
    ensures a == Nil <==> r == []
  {
    if a.Nil? then [] else [a.(right := Nil)] + Unlink(a.right)
  }

  /** identifier: an IDENTIFIER node holding a copy of the token's text. */
  function Identifier(toks: seq<Token>, s: PState): (r: Parsed)
    requires Valid(toks) && s.index < |toks|
    ensures r.s.index < |toks|
    ensures toks[s.index].typ == TokenType.Identifier <==> r.node != Nil
    ensures r.node != Nil ==> r.s == Consume(toks, s) && r.node.typ == NodeType.Identifier
    ensures r.node != Nil ==> r.node.value.identifier == toks[s.index].contents
    ensures r.node != Nil ==> r.node.pos == toks[s.index].pos && r.node.left == Nil && r.node.right == Nil
    ensures r.node == Nil ==> r.s == SetErr(s, "expected identifier")
  {
    var cur := toks[s.index];
    if cur.typ != TokenType.Identifier then Parsed(SetErr(s, "expected identifier"), Nil)
    else Parsed(Consume(toks, s), Node(NodeType.Identifier, cur.pos, false, NodeValue(0, cur.contents, []), Nil, Nil))
  }

  /** The node type of a numeric literal token. */
  function NumberNode(t: TokenType): (r: NodeType)
    requires t.IsIntLiteral() || t.IsFloatLiteral()
    ensures r in {ValF32, ValF64, ValI32, ValU32, ValI64, ValU64}
  {
    if t == LitF32 then ValF32
    else if t == LitF64 then ValF64
    else if t == LitI32 then ValI32
    else if t == LitU32 then ValU32
    else if t == LitI64 then ValI64
    else ValU64
  }

  /** The tokens a value starts with: literals, `true`, `false` and identifiers. */
  predicate ValueStart(t: TokenType)
  {
    t.IsIntLiteral() || t.IsFloatLiteral() || t == KwTrue || t == KwFalse
    || t == LitStrSingle || t == LitStrDouble || t == TokenType.Identifier
  }

  const ValueError := "expected number literal, string literal or identifier"

  /**
   * lit_bool, lit_number, lit_quoted and identifier, as value dispatches
   * them: a leaf holding the token's payload. A number keeps the token's
   * data (a character literal's data is never filled in by the lexer), a
   * boolean is 1 or 0 and a string keeps the token's text.
   */
  function Value(toks: seq<Token>, s: PState): (r: Parsed)
    requires Valid(toks) && s.index < |toks|
    ensures r.s.index < |toks|
    ensures r.node != Nil <==> ValueStart(toks[s.index].typ)
    ensures r.node == Nil ==> r.s == SetErr(s, ValueError)
    ensures r.node != Nil ==> r.s == Consume(toks, s)
    ensures r.node != Nil ==> r.node.pos == toks[s.index].pos && r.node.left == Nil && r.node.right == Nil
  {
    var cur := toks[s.index];
    var t := cur.typ;
    if !ValueStart(t) then Parsed(SetErr(s, ValueError), Nil)
    else if t == TokenType.Identifier then Identifier(toks, s)
    else
      var v :=
        if t == KwTrue then NodeValue(1, [], [])
        else if t == KwFalse then NodeValue(0, [], [])
        else if t == LitStrDouble then NodeValue(0, cur.contents, [])
        else NodeValue(cur.data, [], []);
      var typ :=
        if t == KwTrue || t == KwFalse then ValBool
        else if t == LitStrSingle then ValChar
        else if t == LitStrDouble then ValString
        else NumberNode(t);
      Parsed(Consume(toks, s), Node(typ, cur.pos, false, v, Nil, Nil))
  }

  /**
   * typename: an optional `const`, then `$` (a REFLECT type, which takes no
   * suffixes) or an identifier followed by the suffix loop.
   */
  function Typename(toks: seq<Token>, s: PState): (r: Parsed)
    requires Valid(toks) && s.index < |toks|
    ensures r.s.index < |toks| && r.s.index >= s.index && r.s.crashed == s.crashed
    ensures r.node == Nil ==> r.s.hasError
    ensures r.node != Nil ==> r.s.index > s.index && r.s.hasError == s.hasError
  {
    var isConst := toks[s.index].typ == KwConst;
    var s1 := if isConst then Consume(toks, s) else s;
    var cur := toks[s1.index];
    if cur.typ == Dollar then
      Parsed(Consume(toks, s1), Node(Reflect, cur.pos, isConst, ZeroValue, Nil, Nil))
    else
      var id := Identifier(toks, s1);
      if id.node == Nil then Parsed(SetErr(id.s, "expected identifier or '$'"), Nil)
      else TypeSuffixes(toks, id.s, id.node.(constType := isConst), false)
  }

  /**
   * The suffix loop of typename, from the current token on, wrapping `cur`.
   * `constNext` is a pending `const` that applies to the next wrapper.
   * `&` adds a pointer level and `&&` two (the pending const goes to the
   * inner one), `[]` a slice, `[N]` an array of positive length N; the
   * wrappers take the position of the `&`, `&&` or `[` token.
   */
  function TypeSuffixes(toks: seq<Token>, s: PState, cur: Ast, constNext: bool): (r: Parsed)
    requires Valid(toks) && s.index < |toks| && cur != Nil
    ensures r.s.index < |toks| && r.s.index >= s.index && r.s.crashed == s.crashed
    ensures r.node == Nil ==> r.s.hasError
    ensures r.node != Nil ==> r.s.hasError == s.hasError
    decreases |toks| - s.index, 1
  {
    var t := toks[s.index];
    if t.typ == KwConst then TypeSuffixes(toks, Consume(toks, s), cur, true)
    else if t.typ == Ampersand then
      TypeSuffixes(toks, Consume(toks, s), Node(TypePointer, t.pos, constNext, ZeroValue, cur, Nil), false)
    else if t.typ == And then
      var inner := Node(TypePointer, t.pos, constNext, ZeroValue, cur, Nil);
      TypeSuffixes(toks, Consume(toks, s), Mk(TypePointer, t.pos, inner, Nil), false)
    else if t.typ == SubscriptLeft then
      var s1 := Consume(toks, s);
      var u := toks[s1.index];
      if u.typ == SubscriptRight then
        TypeSuffixes(toks, Consume(toks, s1), Node(TypeSlice, t.pos, constNext, ZeroValue, cur, Nil), false)
      else if u.typ.IsIntLiteral() then
        ArrayType(toks, s1, cur, constNext, t.pos)
      else
        Parsed(SetErr(s1, "expected ']' or integer literal"), Nil)
    else Parsed(s, cur)
  }

  /**
   * handle_array_type, entered with the cursor on the integer literal after
   * `[`: the length must be positive and be followed by `]`.
   */
  function ArrayType(toks: seq<Token>, s: PState, cur: Ast, constNext: bool, bracket: Position): (r: Parsed)
    requires Valid(toks) && s.index < |toks| && cur != Nil && toks[s.index].typ.IsIntLiteral()
    ensures r.s.index < |toks| && r.s.index >= s.index && r.s.crashed == s.crashed
    ensures r.node == Nil ==> r.s.hasError
    ensures r.node != Nil ==> r.s.hasError == s.hasError
    decreases |toks| - s.index, 0
  {
    var n := toks[s.index].data;
    if n <= 0 then Parsed(SetErr(s, "array length must be a positive integer literal"), Nil)
    else
      var s1 := Consume(toks, s);
      if toks[s1.index].typ != SubscriptRight then Parsed(SetErr(s1, "unterminated '['"), Nil)
      else
        var arr := Node(TypeArray, bracket, constNext, NodeValue(n, [], []), cur, Nil);
        TypeSuffixes(toks, Consume(toks, s1), arr, false)
  }
}

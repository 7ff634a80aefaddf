/**
 * Statements and function bodies (src/parser/parser.c, expression_statement
 * through statement, and function_body).
 */
module ParseStmt {
  import opened Token
  import opened Ast
  import opened ParseCore
  import opened ParseExpr

  /** The statements a loop collected, each a node. */
  datatype Run = Run(s: PState, nodes: seq<Ast>)

  /**
   * The state moved forward and stayed on the slice; a crash, once
   * recorded, stays recorded.
   */
  predicate Advanced(toks: seq<Token>, s: PState, r: PState)
  {
    s.index <= r.index < |toks| && (s.crashed ==> r.crashed)
  }

  /** Every element is a node whose right slot is free for chaining. */
  predicate Chainable(nodes: seq<Ast>)
  {
    forall i :: 0 <= i < |nodes| ==> nodes[i].Node? && nodes[i].right == Nil
  }

  /** A statement put in front of those the rest of a loop collected. */
  function Prepend(n: Ast, rest: Run): (r: Run)
    requires n.Node? && n.right == Nil && Chainable(rest.nodes)
    ensures r.s == rest.s && Chainable(r.nodes)
    ensures |r.nodes| == |rest.nodes| + 1 && r.nodes[0] == n && r.nodes[1..] == rest.nodes
  {
    Run(rest.s, [n] + rest.nodes)
  }

  /**
   * expression_statement: a lone `;` is consumed and yields NULL;
   * otherwise an expression and `;`, an EXPRESSION_STATEMENT at the
   * expression's position.
   */
  function ExprStmt(toks: seq<Token>, s: PState): (r: Parsed)
    requires Valid(toks) && s.index < |toks|
    ensures Moved(toks, s, r.s)
    ensures toks[s.index].typ == Semicolon ==> r == Parsed(Consume(toks, s), Nil)
    ensures toks[s.index].typ != Semicolon && r.node == Nil ==> r.s.hasError
    ensures r.node != Nil ==> r.s.index > s.index && r.node.typ == ExpressionStatement && r.node.right == Nil
    ensures r.node != Nil ==> !r.s.hasError
  {
    if toks[s.index].typ == Semicolon then Parsed(Consume(toks, s), Nil)
    else
      var e := Expression(toks, s);
      if e.s.hasError then Parsed(e.s, Nil)
      else
        var semicolon := toks[e.s.index];
        if semicolon.typ != Semicolon then Parsed(SetErr(e.s, "expected ';'"), Nil)
        else
          var pos := if e.node != Nil then e.node.pos else semicolon.pos;
          Parsed(Consume(toks, e.s), Mk(ExpressionStatement, pos, e.node, Nil))
  }

  /**
   * declaration_statement: typename, identifier, an optional `= expression`
   * and `;`. The identifier carries the type as its left child and the
   * initialiser as its right; the statement sits at the type's position.
   */
  function DeclStmt(toks: seq<Token>, s: PState): (r: Parsed)
    requires Valid(toks) && s.index < |toks|
    ensures Moved(toks, s, r.s)
    ensures r.node == Nil ==> r.s.hasError
    ensures r.node != Nil ==> r.s.index > s.index && r.node.typ == DeclarationStatement && r.node.right == Nil
  {
    var ty := Typename(toks, s);
    if ty.node == Nil then Parsed(SetErrIfNone(ty.s, "expected typename"), Nil)
    else
      var id := ParseCore.Identifier(toks, ty.s);
      if id.node == Nil then Parsed(SetErr(id.s, "expected identifier"), Nil)
      else
        var ident := id.node.(left := ty.node);
        if toks[id.s.index].typ == Assign then
          var e := Expression(toks, Consume(toks, id.s));
          if e.node == Nil then Parsed(SetErrIfNone(e.s, "expected expression"), Nil)
          else DeclEnd(toks, e.s, ty.node.pos, ident.(right := e.node))
        else DeclEnd(toks, id.s, ty.node.pos, ident)
  }

  /** The closing `;` of a declaration. */
  function DeclEnd(toks: seq<Token>, s: PState, pos: Position, ident: Ast): (r: Parsed)
    requires Valid(toks) && s.index < |toks|
    ensures Moved(toks, s, r.s)
    ensures r.node == Nil ==> r.s.hasError
    ensures r.node != Nil ==> r.s.index > s.index && r.node == Mk(DeclarationStatement, pos, ident, Nil)
  {
    if toks[s.index].typ != Semicolon then Parsed(SetErr(s, "expected ';'"), Nil)
    else Parsed(Consume(toks, s), Mk(DeclarationStatement, pos, ident, Nil))
  }

  /** return_statement: `return;` or `return expression;`, at the keyword's position. */
  function ReturnStmt(toks: seq<Token>, s: PState): (r: Parsed)
    requires Valid(toks) && s.index < |toks|
    ensures Moved(toks, s, r.s)
    ensures r.node == Nil ==> r.s.hasError
    ensures r.node != Nil ==> r.s.index > s.index && r.node.typ == ReturnStatement && r.node.right == Nil
  {
    var t := toks[s.index];
    if t.typ != KwReturn then Parsed(SetErr(s, "expected 'return'"), Nil)
    else
      var s1 := Consume(toks, s);
      if toks[s1.index].typ == Semicolon then Parsed(Consume(toks, s1), Mk(ReturnStatement, t.pos, Nil, Nil))
      else
        var e := Expression(toks, s1);
        if e.node == Nil then Parsed(SetErrIfNone(e.s, "expected expression"), Nil)
        else if toks[e.s.index].typ != Semicolon then Parsed(SetErr(e.s, "expected ';'"), Nil)
        else Parsed(Consume(toks, e.s), Mk(ReturnStatement, t.pos, e.node, Nil))
  }

  /**
   * statement: return, for, while and if by their keyword; otherwise an
   * expression statement tried on a copy of the state, kept if it yields a
   * node, and else a declaration from the original state.
   */
  function Statement(toks: seq<Token>, s: PState): (r: Parsed)
    requires Valid(toks) && s.index < |toks|
    ensures Advanced(toks, s, r.s)
    ensures r.node == Nil ==> r.s.hasError || r.s.crashed
    ensures r.node != Nil ==> r.s.index > s.index && r.node.right == Nil
    decreases |toks| - s.index, 4
  {
    var t := toks[s.index].typ;
    if t == KwReturn then ReturnStmt(toks, s)
    else if t == KwFor then ForStmt(toks, s)
    else if t == KwWhile then WhileStmt(toks, s)
    else if t == KwIf then IfStmt(toks, s)
    else
      var e := ExprStmt(toks, s);
      if e.node != Nil then e else DeclStmt(toks, s)
  }

  /**
   * statement_block: `{`, a function body and `}`; the block's node is the
   * body's first statement (Nil when empty).
   */
  function StatementBlock(toks: seq<Token>, s: PState): (r: Parsed)
    requires Valid(toks) && s.index < |toks|
    ensures Advanced(toks, s, r.s)
    ensures r.node != Nil ==> !r.s.hasError
    ensures !r.s.hasError ==> r.s.index > s.index
    decreases |toks| - s.index, 2
  {
    if toks[s.index].typ != BraceLeft then Parsed(SetErr(s, "expected '{'"), Nil)
    else
      var b := FunctionBody(toks, Consume(toks, s));
      if b.s.hasError then Parsed(b.s, Nil)
      else if toks[b.s.index].typ != BraceRight then Parsed(SetErr(b.s, "expected '}'"), Nil)
      else Parsed(Consume(toks, b.s), b.node)
  }

  /**
   * function_body: statements up to the closing brace (not consumed),
   * chained through their right children; Nil when empty or on error.
   */
  function FunctionBody(toks: seq<Token>, s: PState): (r: Parsed)
    requires Valid(toks) && s.index < |toks|
    ensures Advanced(toks, s, r.s)
    ensures r.node != Nil ==> !r.s.hasError
    ensures !r.s.hasError ==> toks[r.s.index].typ == BraceRight
    decreases |toks| - s.index, 6
  {
    var b := BodyLoop(toks, s);
    if b.s.hasError then Parsed(b.s, Nil) else Parsed(b.s, Link(b.nodes))
  }

  /**
   * The loop of function_body: it stops at `}` or at the first statement
   * that yields NULL, which raises "expected statement" unless an error is
   * already set.
   */
  function BodyLoop(toks: seq<Token>, s: PState): (r: Run)
    requires Valid(toks) && s.index < |toks|
    ensures Advanced(toks, s, r.s)
    ensures Chainable(r.nodes)
    ensures !r.s.hasError ==> toks[r.s.index].typ == BraceRight
    decreases |toks| - s.index, 5
  {
    if toks[s.index].typ == BraceRight then Run(s, [])
    else
      var st := Statement(toks, s);
      if st.node == Nil then Run(SetErrIfNone(st.s, "expected statement"), [])
      else
        Prepend(st.node, BodyLoop(toks, st.s))
  }

  /**
   * if_statement: `if` expression block [`else` (if_statement | block)], as
   * CONTROL_FLOW(IF_STATEMENT(cond, CONTROL_FLOW(body, ELSE_CLAUSE)), Nil).
   * The else branch's error is not checked.
   */
  function IfStmt(toks: seq<Token>, s: PState): (r: Parsed)
    requires Valid(toks) && s.index < |toks|
    ensures Advanced(toks, s, r.s)
    ensures r.node == Nil ==> r.s.hasError
    ensures r.node != Nil ==> r.s.index > s.index && r.node.typ == ControlFlow && r.node.right == Nil
    decreases |toks| - s.index, 3
  {
    var t := toks[s.index];
    if t.typ != KwIf then Parsed(SetErr(s, "expected 'if'"), Nil)
    else
      var c := Expression(toks, Consume(toks, s));
      if c.s.hasError then Parsed(c.s, Nil)
      else
        var b := StatementBlock(toks, c.s);
        if b.s.hasError then Parsed(b.s, Nil)
        else
          var el := ElsePart(toks, b.s);
          var linker := Mk(ControlFlow, t.pos, b.node, el.node);
          Parsed(el.s, Mk(ControlFlow, t.pos, Mk(IfStatement, t.pos, c.node, linker), Nil))
  }

  /** The optional else of if_statement: an ELSE_CLAUSE at the `else` token around an if or a block. */
  function ElsePart(toks: seq<Token>, s: PState): (r: Parsed)
    requires Valid(toks) && s.index < |toks|
    ensures Advanced(toks, s, r.s)
    ensures toks[s.index].typ != KwElse ==> r == Parsed(s, Nil)
    ensures toks[s.index].typ == KwElse ==> r.node.Node? && r.node.typ == ElseClause
    decreases |toks| - s.index, 1
  {
    var t := toks[s.index];
    if t.typ != KwElse then Parsed(s, Nil)
    else
      var s1 := Consume(toks, s);
      var inner := if toks[s1.index].typ == KwIf then IfStmt(toks, s1) else StatementBlock(toks, s1);
      Parsed(inner.s, Mk(ElseClause, t.pos, inner.node, Nil))
  }

  /**
   * for_statement: `for` [declaration | `;`] [expression] <any token>
   * [expression] block, as CONTROL_FLOW(FOR_STATEMENT(
   * DECLARATION_STATEMENT(decl, EXPRESSION_STATEMENT(cond, incr)), body)).
   * The token after the condition is consumed unchecked, and the source
   * reads the positions of the declaration and the condition even when
   * they are absent: both are crashes here.
   */
  function ForStmt(toks: seq<Token>, s: PState): (r: Parsed)
    requires Valid(toks) && s.index < |toks|
    ensures Advanced(toks, s, r.s)
    ensures r.node == Nil ==> r.s.hasError || r.s.crashed
    ensures r.node != Nil ==> r.s.index > s.index && r.node.typ == ControlFlow && r.node.right == Nil
    decreases |toks| - s.index, 3
  {
    var t := toks[s.index];
    if t.typ != KwFor then Parsed(SetErr(s, "expected 'for'"), Nil)
    else
      var s1 := Consume(toks, s);
      var hasDecl := toks[s1.index].typ != Semicolon;
      var d := if hasDecl then DeclStmt(toks, s1) else Parsed(Consume(toks, s1), Nil);
      if hasDecl && d.s.hasError then Parsed(d.s, Nil)
      else
        var hasCond := toks[d.s.index].typ != Semicolon;
        var c := if hasCond then Expression(toks, d.s) else Parsed(d.s, Nil);
        if hasCond && c.s.hasError then Parsed(c.s, Nil)
        else ForTail(toks, c.s, t.pos, d.node, c.node)
  }

  /**
   * The rest of for_statement after the condition: the unchecked CONSUME,
   * the increment, the block and the nodes built around them.
   */
  function ForTail(toks: seq<Token>, s: PState, pos: Position, decl: Ast, cond: Ast): (r: Parsed)
    requires Valid(toks) && s.index < |toks|
    ensures Advanced(toks, s, r.s)
    ensures r.node == Nil ==> r.s.hasError || r.s.crashed
    ensures r.node != Nil ==> r.s.index > s.index && r.node.typ == ControlFlow && r.node.right == Nil
    decreases |toks| - s.index, 3
  {
    var s3 := ConsumeAny(toks, s);
    var hasIncr := toks[s3.index].typ != BraceLeft;
    var i := if hasIncr then Expression(toks, s3) else Parsed(s3, Nil);
    if hasIncr && i.s.hasError then Parsed(i.s, Nil)
    else
      var b := StatementBlock(toks, i.s);
      if b.s.hasError then Parsed(b.s, Nil)
      else if decl == Nil || cond == Nil then Parsed(b.s.(crashed := true), Nil)
      else
        var st := Mk(DeclarationStatement, decl.pos, decl, Mk(ExpressionStatement, cond.pos, cond, i.node));
        Parsed(b.s, Mk(ControlFlow, pos, Mk(ForStatement, pos, st, b.node), Nil))
  }

  /** while_statement: `while` expression block, as CONTROL_FLOW(WHILE_STATEMENT(cond, body), Nil). */
  function WhileStmt(toks: seq<Token>, s: PState): (r: Parsed)
    requires Valid(toks) && s.index < |toks|
    ensures Advanced(toks, s, r.s)
    ensures r.node == Nil ==> r.s.hasError
    ensures r.node != Nil ==> r.s.index > s.index && r.node.typ == ControlFlow && r.node.right == Nil
    decreases |toks| - s.index, 3
  {
    var t := toks[s.index];
    if t.typ != KwWhile then Parsed(SetErr(s, "expected 'while'"), Nil)
    else
      var e := Expression(toks, Consume(toks, s));
      if e.s.hasError then Parsed(e.s, Nil)
      else
        var b := StatementBlock(toks, e.s);
        if b.s.hasError then Parsed(b.s, Nil)
        else Parsed(b.s, Mk(ControlFlow, t.pos, Mk(WhileStatement, t.pos, e.node, b.node), Nil))
  }
}

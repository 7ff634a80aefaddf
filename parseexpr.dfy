/**
 * Expressions (src/parser/parser.c, from `expression` down to `value`).
 *
 * The fifteen binary tiers share one rule pair: `Tier(k)` is the
 * CHAINABLE_EXPRESSION_RULE of tier k and `TierPr(k)` its CHAIN_SELF
 * continuation. Tier 0 binds loosest (assignment) and tier 14 tightest
 * (concatenation); tier 14 sits on the unary operators, which sit on the
 * postfix evaluative operators, accessors and factors.
 */
module ParseExpr {
  import opened Wrappers
  import opened Token
  import opened Ast
  import opened ParseCore

  /** The number of binary tiers. */
  const TierCount := 15

  /** A CHAIN_SELF result: the state, the operator the rule matched and the subtree (Nil for NULL). */
  datatype Chain = Chain(s: PState, typ: NodeType, node: Ast)

  /** One accessor of a postfix chain: its node type, its token's position and its right operand. */
  datatype Accessor = Accessor(typ: NodeType, pos: Position, right: Ast)

  /** The accessors access_exp_pr parsed, innermost first. */
  datatype AccessRun = AccessRun(s: PState, accs: seq<Accessor>)

  /** An accessor's operand: whether it parsed, and the operand (Nil for an empty call). */
  datatype Step = Step(s: PState, ok: bool, node: Ast)

  /** The state moved forward, stayed on the slice and did not crash. */
  predicate Moved(toks: seq<Token>, s: PState, r: PState)
  {
    s.index <= r.index < |toks| && r.crashed == s.crashed
  }

  /**
   * The tier of a binary operator token, loosest first, as the switches of
   * the fifteen *_exp_pr rules place them; -1 for every other token.
   */
  function TierOf(t: TokenType): (k: int)
    ensures -1 <= k < TierCount
    ensures t.Eof? ==> k == -1
  {
    if t.Assign? || t.AssignAdd? || t.AssignSub? || t.AssignMul? || t.AssignDiv?
       || t.AssignRem? || t.AssignCat? then 0
    else if t.Fallback? then 1
    else if t.Or? then 2
    else if t.Xor? then 3
    else if t.And? then 4
    else if t.AlternateOr? then 5
    else if t.AlternateXor? then 6
    else if t.AlternateAnd? then 7
    else if t.Equality? || t.Inequality? then 8
    else if t.LessThan? || t.LessThanEq? || t.GreaterThan? || t.GreaterThanEq? then 9
    else if t.Insert? || t.Extract? then 10
    else if t.LShift? || t.RShift? then 11
    else if t.Plus? || t.Minus? then 12
    else if t.Asterisk? || t.ForwardSlash? || t.Percent? then 13
    else if t.Tilde? then 14
    else -1
  }

  /** The node a binary operator token builds. */
  function BinaryNode(t: TokenType): NodeType
  {
    if t.Assign? then OpAssign
    else if t.AssignAdd? then OpAssignAdd
    else if t.AssignSub? then OpAssignSub
    else if t.AssignMul? then OpAssignMul
    else if t.AssignDiv? then OpAssignDiv
    else if t.AssignRem? then OpAssignRem
    else if t.AssignCat? then OpAssignCat
    else if t.Fallback? then OpFallback
    else if t.Or? then OpLogicalOr
    else if t.Xor? then OpLogicalXor
    else if t.And? then OpLogicalAnd
    else if t.AlternateOr? then OpAlternateOr
    else if t.AlternateXor? then OpAlternateXor
    else if t.AlternateAnd? then OpAlternateAnd
    else if t.Equality? then OpEqual
    else if t.Inequality? then OpInequal
    else if t.LessThan? then OpLt
    else if t.LessThanEq? then OpLte
    else if t.GreaterThan? then OpGt
    else if t.GreaterThanEq? then OpGte
    else if t.Insert? then OpInsert
    else if t.Extract? then OpExtract
    else if t.LShift? then OpLshift
    else if t.RShift? then OpRshift
    else if t.Plus? then OpAdd
    else if t.Minus? then OpSub
    else if t.Asterisk? then OpMul
    else if t.ForwardSlash? then OpDiv
    else if t.Percent? then OpRem
    else OpConcat
  }

  /** The operator tokens of tier k and the node each one builds. */
  function TierOp(k: nat, t: TokenType): (r: Option<NodeType>)
    requires k < TierCount
    ensures t.Eof? ==> r.None?
    ensures r.Some? <==> TierOf(t) == k
  {
    if TierOf(t) == k then Some(BinaryNode(t)) else None
  }

  /** The prefix operators of unary_exp. */
  function UnaryOp(t: TokenType): (r: Option<NodeType>)
    ensures t.Eof? ==> r.None?
  {
    if t.Plus? then Some(OpUnaryPlus)
    else if t.Minus? then Some(OpUnaryMinus)
    else if t.Exclamation? then Some(OpLogicalNot)
    else if t.At? then Some(OpDeref)
    else if t.Ampersand? then Some(OpAddressOf)
    else if t.AlternateNot? then Some(OpAlternateNot)
    else None
  }

  /** The postfix operators of evaluative_exp_pr. */
  function EvalOp(t: TokenType): (r: Option<NodeType>)
    ensures t.Eof? ==> r.None?
  {
    if t.Caret? then Some(OpEval) else if t.Question? then Some(OpRethrow) else None
  }

  /** The accessor tokens of access_exp_pr. */
  function AccessOp(t: TokenType): (r: Option<NodeType>)
    ensures t.Eof? ==> r.None?
  {
    if t.StaticMember? then Some(OpStaticMember)
    else if t.Colon? then Some(OpProperty)
    else if t.Dot? then Some(OpMember)
    else if t.ParenLeft? then Some(OpCall)
    else if t.SubscriptLeft? then Some(OpSubscript)
    else None
  }

  /** expression: an assignment expression, the loosest tier. */
  function Expression(toks: seq<Token>, s: PState): (r: Parsed)
    requires Valid(toks) && s.index < |toks|
    ensures Moved(toks, s, r.s)
    ensures r.node == Nil ==> r.s.hasError
    ensures r.node != Nil ==> r.s.index > s.index
    decreases |toks| - s.index, 38
  {
    Tier(toks, 0, s)
  }

  /** The rule tier k is built on: tier k + 1, or unary_exp under the tightest tier. */
  function Higher(toks: seq<Token>, k: nat, s: PState): (r: Parsed)
    requires Valid(toks) && s.index < |toks| && k < TierCount
    ensures Moved(toks, s, r.s)
    ensures r.node == Nil ==> r.s.hasError
    ensures r.node != Nil ==> r.s.index > s.index
    decreases |toks| - s.index, 8 + 2 * (14 - k)
  {
    if k == TierCount - 1 then Unary(toks, s) else Tier(toks, k + 1, s)
  }

  /**
   * CHAINABLE_EXPRESSION_RULE for tier k: an operand of the next tier, then
   * a chain of tier-k operators. The node takes the position of the token
   * after the first operand (the first operator).
   */
  function Tier(toks: seq<Token>, k: nat, s: PState): (r: Parsed)
    requires Valid(toks) && s.index < |toks| && k < TierCount
    ensures Moved(toks, s, r.s)
    ensures r.node == Nil ==> r.s.hasError
    ensures r.node != Nil ==> r.s.index > s.index
    decreases |toks| - s.index, 9 + 2 * (14 - k)
  {
    var v := Higher(toks, k, s);
    if v.node == Nil then v
    else
      var c := TierPr(toks, k, v.s);
      if c.node == Nil then Parsed(c.s, v.node)
      else Parsed(c.s, Mk(c.typ, toks[v.s.index].pos, v.node, c.node))
  }

  /**
   * CHAIN_SELF for tier k: an operator, an operand and the rest of the
   * chain. The operator goes into `typ`; the node built here carries the
   * operator of the rest of the chain and this operator's position.
   */
  function TierPr(toks: seq<Token>, k: nat, s: PState): (r: Chain)
    requires Valid(toks) && s.index < |toks| && k < TierCount
    ensures Moved(toks, s, r.s)
    ensures TierOp(k, toks[s.index].typ).None? ==> r == Chain(s, InvalidNode, Nil)
    ensures TierOp(k, toks[s.index].typ).Some? ==>
              r.typ == TierOp(k, toks[s.index].typ).value && r.s.index > s.index
    decreases |toks| - s.index, 1
  {
    var t := toks[s.index];
    var op := TierOp(k, t.typ);
    if op.None? then Chain(s, InvalidNode, Nil)
    else
      var v := Higher(toks, k, Consume(toks, s));
      if v.node == Nil then Chain(v.s, op.value, Nil)
      else
        var c := TierPr(toks, k, v.s);
        if c.node == Nil then Chain(c.s, op.value, v.node)
        else Chain(c.s, op.value, Mk(c.typ, t.pos, v.node, c.node))
  }

  /**
   * unary_exp: a prefix operator applied to the unary expression after it.
   * The operand is not checked, so a failed operand leaves a node with a
   * Nil child (and the error set).
   */
  function Unary(toks: seq<Token>, s: PState): (r: Parsed)
    requires Valid(toks) && s.index < |toks|
    ensures Moved(toks, s, r.s)
    ensures r.node == Nil ==> r.s.hasError
    ensures r.node != Nil ==> r.s.index > s.index
    decreases |toks| - s.index, 5
  {
    var t := toks[s.index];
    var op := UnaryOp(t.typ);
    if op.None? then Evaluative(toks, s)
    else
      var o := Unary(toks, Consume(toks, s));
      Parsed(o.s, Mk(op.value, t.pos, o.node, Nil))
  }

  /**
   * evaluative_exp: an access expression followed by postfix `^` and `?`.
   * The outermost node's position is left unset.
   */
  function Evaluative(toks: seq<Token>, s: PState): (r: Parsed)
    requires Valid(toks) && s.index < |toks|
    ensures Moved(toks, s, r.s)
    ensures r.node == Nil ==> r.s.hasError
    ensures r.node != Nil ==> r.s.index > s.index
    decreases |toks| - s.index, 4
  {
    var h := Access(toks, s);
    if h.node == Nil then h
    else
      var e := EvalPr(toks, h.s, h.node);
      if e.node == Nil then Parsed(e.s, h.node)
      else Parsed(e.s, Mk(e.typ, Unset, e.node, Nil))
  }

  /**
   * evaluative_exp_pr: a run of postfix operators over `higher`. The
   * operator read here goes into `typ`, the node built here carries the
   * next operator's type and this operator's position.
   */
  function EvalPr(toks: seq<Token>, s: PState, higher: Ast): (r: Chain)
    requires Valid(toks) && s.index < |toks|
    ensures Moved(toks, s, r.s)
    ensures EvalOp(toks[s.index].typ).None? ==> r == Chain(s, InvalidNode, Nil)
    ensures EvalOp(toks[s.index].typ).Some? ==> r.typ == EvalOp(toks[s.index].typ).value
    decreases |toks| - s.index
  {
    var t := toks[s.index];
    var op := EvalOp(t.typ);
    if op.None? then Chain(s, InvalidNode, Nil)
    else
      var sub := EvalPr(toks, Consume(toks, s), higher);
      if sub.node == Nil then
        if sub.s.hasError then Chain(sub.s, op.value, Nil) else Chain(sub.s, op.value, higher)
      else Chain(sub.s, op.value, Mk(sub.typ, t.pos, sub.node, Nil))
  }

  /** The accessors applied to `from`, innermost first: each one's node has the previous as its left child. */
  function ApplyAccess(from: Ast, accs: seq<Accessor>): (r: Ast)
    requires from != Nil
    ensures r != Nil
    decreases |accs|
  {
    if accs == [] then from
    else ApplyAccess(Mk(accs[0].typ, accs[0].pos, from, accs[0].right), accs[1..])
  }

  /** access_exp: a factor followed by a chain of accessors. */
  function Access(toks: seq<Token>, s: PState): (r: Parsed)
    requires Valid(toks) && s.index < |toks|
    ensures Moved(toks, s, r.s)
    ensures r.node == Nil ==> r.s.hasError
    ensures r.node != Nil ==> r.s.index > s.index
    decreases |toks| - s.index, 3
  {
    var f := Factor(toks, s);
    if f.node == Nil then f
    else
      var a := AccessPr(toks, f.s);
      if a.accs == [] then
        if a.s.hasError then Parsed(a.s, Nil) else Parsed(a.s, f.node)
      else Parsed(a.s, ApplyAccess(f.node, a.accs))
  }

  /**
   * access_exp_pr: the accessors from the cursor on, stopping at the first
   * token that is not one or at the first accessor whose operand fails.
   */
  function AccessPr(toks: seq<Token>, s: PState): (r: AccessRun)
    requires Valid(toks) && s.index < |toks|
    ensures Moved(toks, s, r.s)
    ensures AccessOp(toks[s.index].typ).None? ==> r == AccessRun(s, [])
    decreases |toks| - s.index, 1
  {
    var t := toks[s.index];
    var op := AccessOp(t.typ);
    if op.None? then AccessRun(s, [])
    else
      var p := AccessRight(toks, op.value, Consume(toks, s));
      if !p.ok then AccessRun(p.s, [])
      else
        var rest := AccessPr(toks, p.s);
        AccessRun(rest.s, [Accessor(op.value, t.pos, p.node)] + rest.accs)
  }

  /**
   * The operand of one accessor, with the cursor after its token: a member
   * name, a call's argument list (Nil for `()`) or a subscript list.
   */
  function AccessRight(toks: seq<Token>, typ: NodeType, s: PState): (r: Step)
    requires Valid(toks) && s.index < |toks|
    ensures Moved(toks, s, r.s)
    ensures !r.ok ==> r.s.hasError
    decreases |toks| - s.index, 40
  {
    if typ == OpCall then
      if toks[s.index].typ == ParenRight then Step(Consume(toks, s), true, Nil)
      else
        var l := ExpressionList(toks, s);
        if l.node == Nil then Step(l.s, false, Nil)
        else if toks[l.s.index].typ != ParenRight then Step(SetErr(l.s, "expected ')'"), false, Nil)
        else Step(Consume(toks, l.s), true, l.node)
    else if typ == OpSubscript then
      var l := ExpressionList(toks, s);
      if l.node == Nil then Step(l.s, false, Nil)
      else if toks[l.s.index].typ != SubscriptRight then Step(SetErr(l.s, "expected ']'"), false, Nil)
      else Step(Consume(toks, l.s), true, l.node)
    else
      var id := ParseCore.Identifier(toks, s);
      Step(id.s, id.node != Nil, id.node)
  }

  /**
   * factor: a value; otherwise, with the error cleared, a cast or a
   * parenthesised expression.
   */
  function Factor(toks: seq<Token>, s: PState): (r: Parsed)
    requires Valid(toks) && s.index < |toks|
    ensures Moved(toks, s, r.s)
    ensures r.node == Nil ==> r.s.hasError
    ensures r.node != Nil ==> r.s.index > s.index
    decreases |toks| - s.index, 2
  {
    var v := Value(toks, s);
    if v.node != Nil then v
    else
      var s1 := ClearErr(v.s);
      var t := toks[s1.index].typ;
      if t == Backslash then Cast(toks, s1)
      else if t == ParenLeft then
        var e := Expression(toks, Consume(toks, s1));
        if e.node == Nil then Parsed(SetErr(e.s, "expected expression"), Nil)
        else if toks[e.s.index].typ != ParenRight then Parsed(SetErr(e.s, "expected ')'"), Nil)
        else Parsed(Consume(toks, e.s), e.node)
      else Parsed(SetErr(s1, "expected expression"), Nil)
  }

  /** cast: `\` typename `(` expression `)`, an OP_CAST at the backslash. */
  function Cast(toks: seq<Token>, s: PState): (r: Parsed)
    requires Valid(toks) && s.index < |toks|
    ensures Moved(toks, s, r.s)
    ensures r.node == Nil ==> r.s.hasError
    ensures r.node != Nil ==> r.s.index > s.index
    decreases |toks| - s.index, 1
  {
    var t := toks[s.index];
    if t.typ != Backslash then Parsed(SetErr(s, "expected '\\'"), Nil)
    else
      var into := Typename(toks, Consume(toks, s));
      if into.s.hasError then Parsed(into.s, Nil)
      else if toks[into.s.index].typ != ParenLeft then Parsed(SetErr(into.s, "expected '('"), Nil)
      else
        var e := Expression(toks, Consume(toks, into.s));
        if e.node == Nil then Parsed(e.s, Nil)
        else if toks[e.s.index].typ != ParenRight then Parsed(SetErr(e.s, "expected ')'"), Nil)
        else Parsed(Consume(toks, e.s), Mk(OpCast, t.pos, into.node, e.node))
  }

  /**
   * expression_list: expressions separated by commas, as right-nested
   * EXPRESSION_LIST nodes at each element's position; the last element
   * stands alone.
   */
  function ExpressionList(toks: seq<Token>, s: PState): (r: Parsed)
    requires Valid(toks) && s.index < |toks|
    ensures Moved(toks, s, r.s)
    ensures r.node == Nil ==> r.s.hasError
    ensures r.node != Nil ==> r.s.index > s.index
    decreases |toks| - s.index, 39
  {
    var e := Expression(toks, s);
    if e.node == Nil then e
    else if toks[e.s.index].typ != Comma then e
    else
      var l := ExpressionListPr(toks, e.s);
      if l.node == Nil && l.s.hasError then Parsed(l.s, Nil)
      else Parsed(l.s, Mk(NodeType.ExpressionList, e.node.pos, e.node, l.node))
  }

  /** expression_list_pr: `,` expression and the rest of the list. */
  function ExpressionListPr(toks: seq<Token>, s: PState): (r: Parsed)
    requires Valid(toks) && s.index < |toks|
    ensures Moved(toks, s, r.s)
    ensures toks[s.index].typ != Comma ==> r == Parsed(s, Nil)
    ensures toks[s.index].typ == Comma ==> r.s.index > s.index && (r.node == Nil ==> r.s.hasError)
    decreases |toks| - s.index, 0
  {
    if toks[s.index].typ != Comma then Parsed(s, Nil)
    else
      var e := Expression(toks, Consume(toks, s));
      if e.node == Nil then Parsed(SetErr(e.s, "expected expression"), Nil)
      else
        var after := ExpressionListPr(toks, e.s);
        if after.node == Nil then
          if after.s.hasError then Parsed(after.s, Nil) else Parsed(after.s, e.node)
        else Parsed(after.s, Mk(NodeType.ExpressionList, e.node.pos, e.node, after.node))
  }
}

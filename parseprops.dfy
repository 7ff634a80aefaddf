// Properties of the parser model: tree shapes the rules build, the
// statement fallback, typename suffixes, definitions and the driver's
// outcomes.

module ParseProps {
  import opened Wrappers
  import opened Token
  import opened Ast
  import opened Attributes
  import opened ParseCore
  import opened ParseExpr
  import opened ParseStmt
  import opened ParseDecl

  // ---------------------------------------------------------------------
  // Statement chains

  /** Linking chainable statements and unlinking the chain gives them back. */
  lemma {:induction false} UnlinkLink(nodes: seq<Ast>)
    requires Chainable(nodes)
    ensures Unlink(Link(nodes)) == nodes
    decreases |nodes|
  {
    if nodes != [] {
      UnlinkLink(nodes[1..]);
      assert nodes == [nodes[0]] + nodes[1..];
    }
  }

  /** Every right-linked chain is the link of its unlinked statements. */
  lemma {:induction false} LinkUnlink(a: Ast)
    ensures Link(Unlink(a)) == a
  {
    if a.Node? {
      LinkUnlink(a.right);
      var u := Unlink(a);
      assert u[1..] == Unlink(a.right);
    }
  }

  // ---------------------------------------------------------------------
  // Binary tiers

  /** Tokens that are no binary operator of any tier. */
  predicate NoBinaryOp(t: TokenType)
  {
    TierOf(t) < 0
  }

  /**
   * A failed unary operand is what every tier returns, with the same state;
   * so is a unary operand followed by no operator of tier k or looser.
   */
  lemma {:induction false} HigherIsUnary(toks: seq<Token>, k: nat, s: PState, u: Parsed)
    requires Valid(toks) && s.index < |toks| && k < TierCount
    requires u == Unary(toks, s)
    requires u.node == Nil || TierOf(toks[u.s.index].typ) <= k
    ensures Higher(toks, k, s) == u
    decreases TierCount - k
  {
    if k < TierCount - 1 {
      HigherIsUnary(toks, k + 1, s, u);
      assert Tier(toks, k + 1, s) == u;
    }
  }

  /** The same for tier k itself, when no binary operator follows the operand. */
  lemma TierIsUnary(toks: seq<Token>, k: nat, s: PState, u: Parsed)
    requires Valid(toks) && s.index < |toks| && k < TierCount
    requires u == Unary(toks, s)
    requires u.node == Nil || NoBinaryOp(toks[u.s.index].typ)
    ensures Tier(toks, k, s) == u
  {
    HigherIsUnary(toks, k, s, u);
  }

  /** The whole expression is the unary operand when no binary operator follows it. */
  lemma ExpressionIsUnary(toks: seq<Token>, s: PState, u: Parsed)
    requires Valid(toks) && s.index < |toks|
    requires u == Unary(toks, s)
    requires u.node == Nil || NoBinaryOp(toks[u.s.index].typ)
    ensures Expression(toks, s) == u
  {
    TierIsUnary(toks, 0, s, u);
  }

  /**
   * `a op b` within tier k, with nothing of tier k after b: one node of
   * op's type at op's position over the two operands.
   */
  lemma TierSingle(toks: seq<Token>, k: nat, s: PState, a: Parsed, b: Parsed)
    requires Valid(toks) && s.index < |toks| && k < TierCount
    requires a == Higher(toks, k, s) && a.node != Nil
    requires TierOp(k, toks[a.s.index].typ).Some?
    requires b == Higher(toks, k, Consume(toks, a.s)) && b.node != Nil
    requires TierOp(k, toks[b.s.index].typ).None?
    ensures Tier(toks, k, s) ==
            Parsed(b.s, Mk(TierOp(k, toks[a.s.index].typ).value, toks[a.s.index].pos, a.node, b.node))
  {
  }

  /**
   * `a op1 b op2 c` within tier k is op1(a, op2(b, c)): the chain nests to
   * the right, and both nodes carry the position of op1.
   */
  lemma TierRightNested(toks: seq<Token>, k: nat, s: PState, a: Parsed, b: Parsed, c: Parsed)
    requires Valid(toks) && s.index < |toks| && k < TierCount
    requires a == Higher(toks, k, s) && a.node != Nil
    requires TierOp(k, toks[a.s.index].typ).Some?
    requires b == Higher(toks, k, Consume(toks, a.s)) && b.node != Nil
    requires TierOp(k, toks[b.s.index].typ).Some?
    requires c == Higher(toks, k, Consume(toks, b.s)) && c.node != Nil
    requires TierOp(k, toks[c.s.index].typ).None?
    ensures var p := toks[a.s.index].pos;
            Tier(toks, k, s) ==
            Parsed(c.s, Mk(TierOp(k, toks[a.s.index].typ).value, p, a.node,
                           Mk(TierOp(k, toks[b.s.index].typ).value, p, b.node, c.node)))
  {
    var s2 := Consume(toks, b.s);
    assert TierPr(toks, k, b.s) == Chain(c.s, TierOp(k, toks[b.s.index].typ).value, c.node);
  }

  /**
   * `a op b` where op is a binary operator of any tier and no binary
   * operator follows b: the whole expression is the one node op(a, b) at
   * op's position, whatever tiers lie above and below op's.
   */
  lemma ExpressionOneOperator(toks: seq<Token>, s: PState, a: Parsed, b: Parsed)
    requires Valid(toks) && s.index < |toks|
    requires a == Unary(toks, s) && a.node != Nil && TierOf(toks[a.s.index].typ) >= 0
    requires b == Unary(toks, Consume(toks, a.s)) && b.node != Nil && NoBinaryOp(toks[b.s.index].typ)
    ensures var op := toks[a.s.index];
            Expression(toks, s) == Parsed(b.s, Mk(BinaryNode(op.typ), op.pos, a.node, b.node))
  {
    var op := toks[a.s.index];
    var k := TierOf(op.typ);
    HigherIsUnary(toks, k, s, a);
    HigherIsUnary(toks, k, Consume(toks, a.s), b);
    TierSingle(toks, k, s, a, b);
    AboveOperatorTier(toks, k, s, Parsed(b.s, Mk(BinaryNode(op.typ), op.pos, a.node, b.node)));
  }

  /** The tiers looser than k pass the node built at tier k through unchanged. */
  lemma {:induction false} AboveOperatorTier(toks: seq<Token>, k: nat, s: PState, whole: Parsed)
    requires Valid(toks) && s.index < |toks| && k < TierCount
    requires Tier(toks, k, s) == whole && whole.node != Nil && NoBinaryOp(toks[whole.s.index].typ)
    ensures Expression(toks, s) == whole
    decreases k
  {
    if k > 0 {
      assert Tier(toks, k - 1, s) == whole;
      AboveOperatorTier(toks, k - 1, s, whole);
    }
  }

  /**
   * The tiers looser than k, down to the level above tier m, pass the node
   * built at tier k through unchanged when the token after it is an
   * operator of tier m or looser, or none.
   */
  lemma {:induction false} LooserTiersPass(toks: seq<Token>, k: nat, m: nat, s: PState, whole: Parsed)
    requires Valid(toks) && s.index < |toks| && m < k < TierCount
    requires Tier(toks, k, s) == whole && whole.node != Nil && TierOf(toks[whole.s.index].typ) <= m
    ensures Higher(toks, m, s) == whole
    decreases k - m
  {
    if m + 1 < k {
      LooserTiersPass(toks, k, m + 1, s, whole);
      assert Tier(toks, m + 1, s) == whole;
    }
  }

  /** `a op b` with nothing of op's tier k after b: tier k builds op(a, b). */
  lemma OperatorTier(toks: seq<Token>, k: nat, s: PState, a: Parsed, b: Parsed)
    requires Valid(toks) && s.index < |toks| && k < TierCount
    requires a == Unary(toks, s) && a.node != Nil && TierOf(toks[a.s.index].typ) == k
    requires b == Unary(toks, Consume(toks, a.s)) && b.node != Nil && TierOf(toks[b.s.index].typ) < k
    ensures var op := toks[a.s.index];
            Tier(toks, k, s) == Parsed(b.s, Mk(BinaryNode(op.typ), op.pos, a.node, b.node))
  {
    HigherIsUnary(toks, k, s, a);
    HigherIsUnary(toks, k, Consume(toks, a.s), b);
    TierSingle(toks, k, s, a, b);
  }

  /**
   * `a op1 b op2 c` where op2 binds tighter than op1: b and c join first,
   * under op2 at op2's position, and op1 at its own position takes a and
   * that node.
   */
  lemma TighterOperatorLater(toks: seq<Token>, s: PState, a: Parsed, b: Parsed, c: Parsed)
    requires Valid(toks) && s.index < |toks|
    requires a == Unary(toks, s) && a.node != Nil && TierOf(toks[a.s.index].typ) >= 0
    requires b == Unary(toks, Consume(toks, a.s)) && b.node != Nil
    requires TierOf(toks[a.s.index].typ) < TierOf(toks[b.s.index].typ)
    requires c == Unary(toks, Consume(toks, b.s)) && c.node != Nil && NoBinaryOp(toks[c.s.index].typ)
    ensures var op1, op2 := toks[a.s.index], toks[b.s.index];
            Expression(toks, s) ==
            Parsed(c.s, Mk(BinaryNode(op1.typ), op1.pos, a.node,
                           Mk(BinaryNode(op2.typ), op2.pos, b.node, c.node)))
  {
    var op1, op2 := toks[a.s.index], toks[b.s.index];
    var k1 := TierOf(op1.typ);
    var inner := Parsed(c.s, Mk(BinaryNode(op2.typ), op2.pos, b.node, c.node));
    OperatorTier(toks, TierOf(op2.typ), Consume(toks, a.s), b, c);
    LooserTiersPass(toks, TierOf(op2.typ), k1, Consume(toks, a.s), inner);
    HigherIsUnary(toks, k1, s, a);
    TierSingle(toks, k1, s, a, inner);
    AboveOperatorTier(toks, k1, s, Parsed(c.s, Mk(BinaryNode(op1.typ), op1.pos, a.node, inner.node)));
  }

  /**
   * `a op1 b op2 c` where op1 binds tighter than op2: a and b join first,
   * under op1 at op1's position, and op2 at its own position takes that
   * node and c.
   */
  lemma TighterOperatorFirst(toks: seq<Token>, s: PState, a: Parsed, b: Parsed, c: Parsed)
    requires Valid(toks) && s.index < |toks|
    requires a == Unary(toks, s) && a.node != Nil && TierOf(toks[a.s.index].typ) >= 0
    requires b == Unary(toks, Consume(toks, a.s)) && b.node != Nil
    requires 0 <= TierOf(toks[b.s.index].typ) < TierOf(toks[a.s.index].typ)
    requires c == Unary(toks, Consume(toks, b.s)) && c.node != Nil && NoBinaryOp(toks[c.s.index].typ)
    ensures var op1, op2 := toks[a.s.index], toks[b.s.index];
            Expression(toks, s) ==
            Parsed(c.s, Mk(BinaryNode(op2.typ), op2.pos,
                           Mk(BinaryNode(op1.typ), op1.pos, a.node, b.node), c.node))
  {
    var op1, op2 := toks[a.s.index], toks[b.s.index];
    var k2 := TierOf(op2.typ);
    var left := Parsed(b.s, Mk(BinaryNode(op1.typ), op1.pos, a.node, b.node));
    OperatorTier(toks, TierOf(op1.typ), s, a, b);
    LooserTiersPass(toks, TierOf(op1.typ), k2, s, left);
    HigherIsUnary(toks, k2, Consume(toks, b.s), c);
    TierSingle(toks, k2, s, left, c);
    AboveOperatorTier(toks, k2, s, Parsed(c.s, Mk(BinaryNode(op2.typ), op2.pos, left.node, c.node)));
  }

  // ---------------------------------------------------------------------
  // Prefix and postfix operators, access chains

  /**
   * Two prefix operators: the first written is outermost, each node at its
   * own token, over the unary expression after both.
   */
  lemma PrefixNested(toks: seq<Token>, s: PState, e: Parsed)
    requires Valid(toks) && s.index + 2 < |toks|
    requires UnaryOp(toks[s.index].typ).Some? && UnaryOp(toks[s.index + 1].typ).Some?
    requires e == Unary(toks, Consume(toks, Consume(toks, s)))
    ensures Unary(toks, s) ==
            Parsed(e.s, Mk(UnaryOp(toks[s.index].typ).value, toks[s.index].pos,
                           Mk(UnaryOp(toks[s.index + 1].typ).value, toks[s.index + 1].pos, e.node, Nil), Nil))
  {
    assert Unary(toks, Consume(toks, s)) ==
           Parsed(e.s, Mk(UnaryOp(toks[s.index + 1].typ).value, toks[s.index + 1].pos, e.node, Nil));
  }

  /**
   * evaluative_exp_pr over one postfix operator and an error-free state:
   * that operator over `higher`, which evaluative_exp wraps in a node of
   * that type with an unset position.
   */
  lemma EvalPrOne(toks: seq<Token>, s: PState, higher: Ast)
    requires Valid(toks) && s.index + 1 < |toks| && !s.hasError
    requires EvalOp(toks[s.index].typ).Some? && EvalOp(toks[s.index + 1].typ).None?
    ensures EvalPr(toks, s, higher) == Chain(Consume(toks, s), EvalOp(toks[s.index].typ).value, higher)
  {
    assert EvalPr(toks, Consume(toks, s), higher) == Chain(Consume(toks, s), InvalidNode, Nil);
  }

  /**
   * The same over two postfix operators: the first written gives the type
   * of the outer node evaluative_exp builds, and the second one's node (at
   * the first one's position) is inside it.
   */
  lemma EvalPrTwo(toks: seq<Token>, s: PState, higher: Ast)
    requires Valid(toks) && s.index + 2 < |toks| && !s.hasError && higher != Nil
    requires EvalOp(toks[s.index].typ).Some? && EvalOp(toks[s.index + 1].typ).Some?
    requires EvalOp(toks[s.index + 2].typ).None?
    ensures EvalPr(toks, s, higher) ==
            Chain(Consume(toks, Consume(toks, s)), EvalOp(toks[s.index].typ).value,
                  Mk(EvalOp(toks[s.index + 1].typ).value, toks[s.index].pos, higher, Nil))
  {
    EvalPrOne(toks, Consume(toks, s), higher);
  }

  /** One more accessor wraps the chain built so far: access chains nest to the left. */
  lemma {:induction false} AccessNestsLeft(from: Ast, accs: seq<Accessor>, last: Accessor)
    requires from != Nil
    ensures ApplyAccess(from, accs + [last]) == Mk(last.typ, last.pos, ApplyAccess(from, accs), last.right)
    decreases |accs|
  {
    if accs != [] {
      var inner := Mk(accs[0].typ, accs[0].pos, from, accs[0].right);
      assert (accs + [last])[1..] == accs[1..] + [last];
      AccessNestsLeft(inner, accs[1..], last);
    }
  }

  /** `()` is a call whose argument list is Nil. */
  lemma CallWithoutArguments(toks: seq<Token>, s: PState)
    requires Valid(toks) && s.index + 1 < |toks|
    requires toks[s.index].typ == ParenLeft && toks[s.index + 1].typ == ParenRight
    ensures var a := AccessPr(toks, s);
            |a.accs| > 0 && a.accs[0] == Accessor(OpCall, toks[s.index].pos, Nil)
  {
    var p := AccessRight(toks, OpCall, Consume(toks, s));
    assert p == Step(Consume(toks, Consume(toks, s)), true, Nil);
  }

  // ---------------------------------------------------------------------
  // factor

  /**
   * A parenthesised factor starts by clearing the error flag, so it is
   * parsed as from a clean state: an error raised before it (by a prefix
   * operator whose operand failed, say) does not survive.
   */
  lemma FactorForgetsEarlierError(toks: seq<Token>, s: PState, e: Parsed)
    requires Valid(toks) && s.index < |toks| && toks[s.index].typ == ParenLeft
    requires e == Expression(toks, Consume(toks, ClearErr(s)))
    requires e.node != Nil && toks[e.s.index].typ == ParenRight
    ensures Factor(toks, s) == Parsed(Consume(toks, e.s), e.node)
  {
    ClearedAlike(s, ValueError);
  }

  /** Clearing the flag leaves nothing of an earlier error. */
  lemma ClearedAlike(s: PState, msg: seq<char>)
    ensures ClearErr(SetErr(s, msg)) == ClearErr(SetErr(ClearErr(s), msg)) == ClearErr(s)
  {
  }

  // ---------------------------------------------------------------------
  // Statements

  /** The IDENTIFIER leaf identifier() builds from a token. */
  function IdentNode(t: Token): (r: Ast)
    ensures r.Node? && r.typ == NodeType.Identifier && r.value.identifier == t.contents
  {
    TypedIdent(t, Nil)
  }

  /** The same leaf with a type as its left child, as declarations and parameters carry it. */
  function TypedIdent(t: Token, ty: Ast): (r: Ast)
    ensures r.Node? && r.typ == NodeType.Identifier && r.left == ty && r.right == Nil
  {
    Node(NodeType.Identifier, t.pos, false, NodeValue(0, t.contents, []), ty, Nil)
  }

  /** An identifier is a factor. */
  lemma FactorIdentifier(toks: seq<Token>, s: PState)
    requires Valid(toks) && s.index < |toks| && toks[s.index].typ == TokenType.Identifier
    ensures Factor(toks, s) == Parsed(Consume(toks, s), IdentNode(toks[s.index]))
  {
    assert Value(toks, s) == Parsed(Consume(toks, s), IdentNode(toks[s.index]));
  }

  /** An identifier followed by no accessor is a whole access expression, when no error is pending. */
  lemma AccessIdentifier(toks: seq<Token>, s: PState)
    requires Valid(toks) && s.index + 1 < |toks| && toks[s.index].typ == TokenType.Identifier && !s.hasError
    requires AccessOp(toks[s.index + 1].typ).None?
    ensures Access(toks, s) == Parsed(Consume(toks, s), IdentNode(toks[s.index]))
  {
    FactorIdentifier(toks, s);
  }

  /** An identifier followed by no accessor and no postfix operator is a complete unary operand. */
  lemma UnaryIdentifier(toks: seq<Token>, s: PState)
    requires Valid(toks) && s.index + 1 < |toks| && toks[s.index].typ == TokenType.Identifier && !s.hasError
    requires AccessOp(toks[s.index + 1].typ).None? && EvalOp(toks[s.index + 1].typ).None?
    ensures Unary(toks, s) == Parsed(Consume(toks, s), IdentNode(toks[s.index]))
  {
    EvaluativeIdentifier(toks, s);
  }

  /** The same one level down, for evaluative_exp. */
  lemma EvaluativeIdentifier(toks: seq<Token>, s: PState)
    requires Valid(toks) && s.index + 1 < |toks| && toks[s.index].typ == TokenType.Identifier && !s.hasError
    requires AccessOp(toks[s.index + 1].typ).None? && EvalOp(toks[s.index + 1].typ).None?
    ensures Evaluative(toks, s) == Parsed(Consume(toks, s), IdentNode(toks[s.index]))
  {
    AccessIdentifier(toks, s);
    EvaluativeNoPostfix(toks, s, Access(toks, s));
  }

  /** An access expression followed by no postfix operator is the whole evaluative expression. */
  lemma EvaluativeNoPostfix(toks: seq<Token>, s: PState, h: Parsed)
    requires Valid(toks) && s.index < |toks|
    requires h == Access(toks, s) && h.node != Nil && EvalOp(toks[h.s.index].typ).None?
    ensures Evaluative(toks, s) == h
  {
  }

  /**
   * A statement that is not a keyword statement is the expression
   * statement when that yields a node, and otherwise the declaration parsed
   * from the same starting state: the expression attempt leaves no trace.
   */
  lemma StatementFallsBack(toks: seq<Token>, s: PState)
    requires Valid(toks) && s.index < |toks|
    requires toks[s.index].typ !in {KwReturn, KwFor, KwWhile, KwIf}
    ensures ExprStmt(toks, s).node != Nil ==> Statement(toks, s) == ExprStmt(toks, s)
    ensures ExprStmt(toks, s).node == Nil ==> Statement(toks, s) == DeclStmt(toks, s)
  {
  }

  /** The expression `int && x`, up to the `;`. */
  lemma AndExpression(toks: seq<Token>)
    requires Valid(toks) && |toks| == 5
    requires toks[0].typ == TokenType.Identifier && toks[1].typ == And
    requires toks[2].typ == TokenType.Identifier && toks[3].typ == Semicolon
    ensures Expression(toks, Start) ==
            Parsed(Start.(index := 3), Mk(OpLogicalAnd, toks[1].pos, IdentNode(toks[0]), IdentNode(toks[2])))
  {
    UnaryIdentifier(toks, Start);
    var a := Unary(toks, Start);
    assert a == Parsed(Start.(index := 1), IdentNode(toks[0]));
    UnaryIdentifier(toks, Start.(index := 2));
    var b := Unary(toks, Start.(index := 2));
    assert b == Parsed(Start.(index := 3), IdentNode(toks[2]));
    ExpressionOneOperator(toks, Start, a, b);
  }

  /** An expression followed by `;` is an expression statement at the expression's position. */
  lemma ExprStmtShape(toks: seq<Token>, s: PState, e: Parsed)
    requires Valid(toks) && s.index < |toks| && toks[s.index].typ != Semicolon
    requires e == Expression(toks, s) && e.node != Nil && !e.s.hasError
    requires toks[e.s.index].typ == Semicolon
    ensures ExprStmt(toks, s) == Parsed(Consume(toks, e.s), Mk(ExpressionStatement, e.node.pos, e.node, Nil))
  {
  }

  /** `int && x ;` is a logical-and expression statement: the expression reading wins. */
  lemma AndIsAnExpression(toks: seq<Token>)
    requires Valid(toks) && |toks| == 5
    requires toks[0].typ == TokenType.Identifier && toks[1].typ == And
    requires toks[2].typ == TokenType.Identifier && toks[3].typ == Semicolon
    ensures var e := Mk(OpLogicalAnd, toks[1].pos, IdentNode(toks[0]), IdentNode(toks[2]));
            Statement(toks, Start) == Parsed(Start.(index := 4), Mk(ExpressionStatement, toks[1].pos, e, Nil))
  {
    AndExpression(toks);
    ExprStmtShape(toks, Start, Expression(toks, Start));
    StatementFallsBack(toks, Start);
  }

  /** The suffix loop over `&` and then a token that is no suffix: one pointer level at the `&`. */
  lemma SuffixSinglePointer(toks: seq<Token>, s: PState, cur: Ast)
    requires Valid(toks) && s.index + 1 < |toks| && cur != Nil && toks[s.index].typ == Ampersand
    requires toks[s.index + 1].typ !in {KwConst, Ampersand, And, SubscriptLeft}
    ensures TypeSuffixes(toks, s, cur, false) ==
            Parsed(s.(index := s.index + 1), Node(TypePointer, toks[s.index].pos, false, ZeroValue, cur, Nil))
  {
  }

  /** A type name followed by `&`: one pointer level over the named type, at the `&`. */
  lemma TypenamePointer(toks: seq<Token>, s: PState)
    requires Valid(toks) && s.index + 2 < |toks|
    requires toks[s.index].typ == TokenType.Identifier && toks[s.index + 1].typ == Ampersand
    requires toks[s.index + 2].typ !in {KwConst, Ampersand, And, SubscriptLeft}
    ensures Typename(toks, s) ==
            Parsed(s.(index := s.index + 2), Node(TypePointer, toks[s.index + 1].pos, false, ZeroValue, IdentNode(toks[s.index]), Nil))
  {
    SuffixSinglePointer(toks, s.(index := s.index + 1), IdentNode(toks[s.index]));
  }

  /** A declaration without initialiser, type name then `x ;`: the identifier carries the type. */
  lemma DeclStmtShape(toks: seq<Token>, s: PState, ty: Parsed)
    requires Valid(toks) && s.index < |toks|
    requires ty == Typename(toks, s) && ty.node != Nil && ty.s.index + 1 < |toks|
    requires toks[ty.s.index].typ == TokenType.Identifier && toks[ty.s.index + 1].typ == Semicolon
    ensures DeclStmt(toks, s) ==
            Parsed(ty.s.(index := ty.s.index + 2),
                   Mk(DeclarationStatement, ty.node.pos, TypedIdent(toks[ty.s.index], ty.node), Nil))
  {
    DeclAfterTypename(toks, ty);
  }

  /** After the type name, an identifier and `;` close the declaration with the typed leaf. */
  lemma DeclAfterTypename(toks: seq<Token>, ty: Parsed)
    requires Valid(toks) && ty.node != Nil && ty.s.index + 1 < |toks|
    requires toks[ty.s.index].typ == TokenType.Identifier && toks[ty.s.index + 1].typ == Semicolon
    ensures var id := ParseCore.Identifier(toks, ty.s);
            id.node != Nil && id.s == ty.s.(index := ty.s.index + 1) &&
            DeclEnd(toks, id.s, ty.node.pos, id.node.(left := ty.node)) ==
            Parsed(ty.s.(index := ty.s.index + 2), Mk(DeclarationStatement, ty.node.pos, TypedIdent(toks[ty.s.index], ty.node), Nil))
  {
    var t := toks[ty.s.index];
    IdentifierLeaf(toks, ty.s.index, ty.s.hasError, ty.s.error, ty.s.crashed);
    assert ty.s == PState(ty.s.index, ty.s.hasError, ty.s.error, ty.s.crashed);
    var id := ParseCore.Identifier(toks, ty.s);
    assert id == Parsed(ty.s.(index := ty.s.index + 1), IdentNode(t));
    assert IdentNode(t).(left := ty.node) == TypedIdent(t, ty.node);
    assert Consume(toks, id.s) == ty.s.(index := ty.s.index + 2);
  }

  /** `int & x ;` read as a declaration. */
  lemma PointerDeclaration(toks: seq<Token>)
    requires Valid(toks) && |toks| == 5
    requires toks[0].typ == TokenType.Identifier && toks[1].typ == Ampersand
    requires toks[2].typ == TokenType.Identifier && toks[3].typ == Semicolon
    ensures var ty := Node(TypePointer, toks[1].pos, false, ZeroValue, IdentNode(toks[0]), Nil);
            DeclStmt(toks, Start) ==
            Parsed(Start.(index := 4), Mk(DeclarationStatement, toks[1].pos, TypedIdent(toks[2], ty), Nil))
  {
    TypenamePointer(toks, Start);
    DeclStmtShape(toks, Start, Typename(toks, Start));
  }

  /** `int & x ;` is not an expression statement: `&` is no binary operator. */
  lemma PointerNotExpression(toks: seq<Token>)
    requires Valid(toks) && |toks| == 5
    requires toks[0].typ == TokenType.Identifier && toks[1].typ == Ampersand
    ensures ExprStmt(toks, Start).node == Nil
  {
    UnaryIdentifier(toks, Start);
    ExpressionIsUnary(toks, Start, Unary(toks, Start));
  }

  /**
   * `int & x ;` is a declaration of x as a pointer to int: the expression
   * `int` is not followed by `;`, so the statement is re-read as a
   * declaration.
   */
  lemma AmpersandIsADeclaration(toks: seq<Token>)
    requires Valid(toks) && |toks| == 5
    requires toks[0].typ == TokenType.Identifier && toks[1].typ == Ampersand
    requires toks[2].typ == TokenType.Identifier && toks[3].typ == Semicolon
    ensures var ty := Node(TypePointer, toks[1].pos, false, ZeroValue, IdentNode(toks[0]), Nil);
            Statement(toks, Start) ==
            Parsed(Start.(index := 4), Mk(DeclarationStatement, toks[1].pos, TypedIdent(toks[2], ty), Nil))
  {
    PointerNotExpression(toks);
    PointerDeclaration(toks);
    StatementFallsBack(toks, Start);
  }

  /** A lone `;` as a statement is an error: the declaration reading wants a type. */
  lemma EmptyStatementRejected(toks: seq<Token>, s: PState)
    requires Valid(toks) && s.index < |toks| && toks[s.index].typ == Semicolon
    ensures Statement(toks, s) == Parsed(SetErr(s, "expected identifier or '$'"), Nil)
  {
    assert ExprStmt(toks, s).node == Nil;
    assert Typename(toks, s) == Parsed(SetErr(s, "expected identifier or '$'"), Nil);
  }

  /** `{ }` with no error pending: an empty block, both braces consumed. */
  lemma EmptyBlock(toks: seq<Token>, s: PState)
    requires Valid(toks) && s.index + 1 < |toks| && !s.hasError
    requires toks[s.index].typ == BraceLeft && toks[s.index + 1].typ == BraceRight
    ensures StatementBlock(toks, s) == Parsed(s.(index := s.index + 2), Nil)
  {
    EmptyBody(toks, Consume(toks, s));
    BlockShape(toks, s, FunctionBody(toks, Consume(toks, s)));
  }

  /** A block whose body parsed without error up to `}`: the body's node, the `}` consumed. */
  lemma BlockShape(toks: seq<Token>, s: PState, b: Parsed)
    requires Valid(toks) && s.index < |toks| && toks[s.index].typ == BraceLeft
    requires b == FunctionBody(toks, Consume(toks, s)) && !b.s.hasError
    ensures toks[b.s.index].typ == BraceRight
    ensures StatementBlock(toks, s) == Parsed(Consume(toks, b.s), b.node)
  {
  }

  /** A function body that is only its closing brace, with no error pending: Nil, nothing consumed. */
  lemma EmptyBody(toks: seq<Token>, s: PState)
    requires Valid(toks) && s.index < |toks| && !s.hasError && toks[s.index].typ == BraceRight
    ensures FunctionBody(toks, s) == Parsed(s, Nil)
  {
    assert BodyLoop(toks, s) == Run(s, []);
  }

  /** The end of a `for` without an initialiser, `; { }`: NULL is dereferenced. */
  lemma ForTailWithoutDeclaration(toks: seq<Token>, s: PState, pos: Position, cond: Ast)
    requires Valid(toks) && s.index + 2 < |toks| && !s.hasError
    requires toks[s.index].typ == Semicolon && toks[s.index + 1].typ == BraceLeft
    requires toks[s.index + 2].typ == BraceRight
    ensures ForTail(toks, s, pos, Nil, cond) == Parsed(s.(index := s.index + 3, crashed := true), Nil)
  {
    var s3 := ConsumeAny(toks, s);
    assert s3 == s.(index := s.index + 1);
    EmptyBlock(toks, s3);
    assert StatementBlock(toks, s3).s == s.(index := s.index + 3);
  }

  /** A `for` with neither initialiser nor condition, `for ; ; { }`, dereferences NULL. */
  lemma ForWithoutClausesCrashes(toks: seq<Token>, s: PState)
    requires Valid(toks) && s.index + 4 < |toks| && !s.hasError
    requires toks[s.index].typ == KwFor && toks[s.index + 1].typ == Semicolon
    requires toks[s.index + 2].typ == Semicolon && toks[s.index + 3].typ == BraceLeft
    requires toks[s.index + 4].typ == BraceRight
    ensures ForStmt(toks, s) == Parsed(s.(index := s.index + 5, crashed := true), Nil)
  {
    ForTailWithoutDeclaration(toks, Consume(toks, Consume(toks, s)), toks[s.index].pos, Nil);
  }

  // ---------------------------------------------------------------------
  // Type names

  /** Tokens the suffix loop of typename stops at. */
  predicate NoSuffix(t: TokenType)
  {
    t !in {KwConst, Ampersand, And, SubscriptLeft}
  }

  /**
   * `&&` adds two pointer levels at its position; a pending `const`
   * flags the inner one only.
   */
  lemma SuffixDoublePointer(toks: seq<Token>, s: PState, cur: Ast, constNext: bool)
    requires Valid(toks) && s.index + 1 < |toks| && cur != Nil
    requires toks[s.index].typ == And && NoSuffix(toks[s.index + 1].typ)
    ensures var p := toks[s.index].pos;
            TypeSuffixes(toks, s, cur, constNext) ==
            Parsed(Consume(toks, s), Mk(TypePointer, p, Node(TypePointer, p, constNext, ZeroValue, cur, Nil), Nil))
  {
    var s1 := Consume(toks, s);
    var p := toks[s.index].pos;
    var outer := Mk(TypePointer, p, Node(TypePointer, p, constNext, ZeroValue, cur, Nil), Nil);
    assert TypeSuffixes(toks, s1, outer, false) == Parsed(s1, outer);
  }

  /** `[]` makes a slice of the type so far. */
  lemma SuffixSlice(toks: seq<Token>, s: PState, cur: Ast, constNext: bool)
    requires Valid(toks) && s.index + 2 < |toks| && cur != Nil
    requires toks[s.index].typ == SubscriptLeft && toks[s.index + 1].typ == SubscriptRight
    requires NoSuffix(toks[s.index + 2].typ)
    ensures TypeSuffixes(toks, s, cur, constNext) ==
            Parsed(s.(index := s.index + 2), Node(TypeSlice, toks[s.index].pos, constNext, ZeroValue, cur, Nil))
  {
    var s2 := Consume(toks, Consume(toks, s));
    var n := Node(TypeSlice, toks[s.index].pos, constNext, ZeroValue, cur, Nil);
    assert TypeSuffixes(toks, s2, n, false) == Parsed(s2, n);
  }

  /**
   * `[N]` with an integer literal N: an array of length N when N is
   * positive, and an error at the literal otherwise.
   */
  lemma SuffixArray(toks: seq<Token>, s: PState, cur: Ast, constNext: bool)
    requires Valid(toks) && s.index + 3 < |toks| && cur != Nil
    requires toks[s.index].typ == SubscriptLeft && toks[s.index + 1].typ.IsIntLiteral()
    requires toks[s.index + 2].typ == SubscriptRight && NoSuffix(toks[s.index + 3].typ)
    ensures var n := toks[s.index + 1].data;
            TypeSuffixes(toks, s, cur, constNext) ==
            if n > 0 then Parsed(s.(index := s.index + 3), Node(TypeArray, toks[s.index].pos, constNext, NodeValue(n, [], []), cur, Nil))
            else Parsed(SetErr(s.(index := s.index + 1), "array length must be a positive integer literal"), Nil)
  {
    var s1 := Consume(toks, s);
    var n := toks[s1.index].data;
    if n > 0 {
      var s3 := Consume(toks, Consume(toks, s1));
      var a := Node(TypeArray, toks[s.index].pos, constNext, NodeValue(n, [], []), cur, Nil);
      assert TypeSuffixes(toks, s3, a, false) == Parsed(s3, a);
      assert ArrayType(toks, s1, cur, constNext, toks[s.index].pos) == Parsed(s3, a);
    }
  }

  /** A `const` among the suffixes flags only the wrapper after it: `T const &` is a const pointer to a plain T. */
  lemma SuffixConstPointer(toks: seq<Token>, s: PState, cur: Ast)
    requires Valid(toks) && s.index + 2 < |toks| && cur != Nil
    requires toks[s.index].typ == KwConst && toks[s.index + 1].typ == Ampersand
    requires NoSuffix(toks[s.index + 2].typ)
    ensures TypeSuffixes(toks, s, cur, false) ==
            Parsed(s.(index := s.index + 2), Node(TypePointer, toks[s.index + 1].pos, true, ZeroValue, cur, Nil))
  {
    var s1 := Consume(toks, s);
    var p := Node(TypePointer, toks[s1.index].pos, true, ZeroValue, cur, Nil);
    assert TypeSuffixes(toks, Consume(toks, s1), p, false) == Parsed(Consume(toks, s1), p);
  }

  /** A leading `const` flags the named base type. */
  lemma TypenameConstBase(toks: seq<Token>, s: PState)
    requires Valid(toks) && s.index + 2 < |toks|
    requires toks[s.index].typ == KwConst && toks[s.index + 1].typ == TokenType.Identifier
    requires NoSuffix(toks[s.index + 2].typ)
    ensures Typename(toks, s) == Parsed(s.(index := s.index + 2), Node(NodeType.Identifier, toks[s.index + 1].pos, true, NodeValue(0, toks[s.index + 1].contents, []), Nil, Nil))
  {
    var s2 := Consume(toks, Consume(toks, s));
    assert TypeSuffixes(toks, s2, Node(NodeType.Identifier, toks[s.index + 1].pos, true, NodeValue(0, toks[s.index + 1].contents, []), Nil, Nil), false) ==
           Parsed(s2, Node(NodeType.Identifier, toks[s.index + 1].pos, true, NodeValue(0, toks[s.index + 1].contents, []), Nil, Nil));
  }

  /** `$` is a complete type name: whatever follows is not read as a suffix. */
  lemma ReflectTakesNoSuffix(toks: seq<Token>, s: PState)
    requires Valid(toks) && s.index < |toks| && toks[s.index].typ == Dollar
    ensures Typename(toks, s) == Parsed(Consume(toks, s), Node(Reflect, toks[s.index].pos, false, ZeroValue, Nil, Nil))
  {
  }

  // ---------------------------------------------------------------------
  // Definitions and the driver

  /** The FUNCTION_TYPE of `fn name ( )` without `->`: no parameters, no return type, at the name. */
  function NoSignature(name: Token): Ast
  {
    Mk(FunctionType, name.pos, Nil, Nil)
  }

  /** An identifier token is read as a bare IDENTIFIER leaf. */
  lemma IdentifierLeaf(toks: seq<Token>, i: nat, h: bool, e: seq<char>, c: bool)
    requires Valid(toks) && i < |toks| && toks[i].typ == TokenType.Identifier
    ensures ParseCore.Identifier(toks, PState(i, h, e, c)) == Parsed(PState(i + 1, h, e, c), IdentNode(toks[i]))
  {
  }

  /** `fn name ( )`: the name is read as a leaf. */
  lemma FunctionName(toks: seq<Token>, s: PState)
    requires Valid(toks) && s.index + 1 < |toks|
    requires toks[s.index].typ == KwFn && toks[s.index + 1].typ == TokenType.Identifier
    ensures ParseCore.Identifier(toks, Consume(toks, s)) == Parsed(s.(index := s.index + 2), IdentNode(toks[s.index + 1]))
  {
    IdentifierLeaf(toks, s.index + 1, s.hasError, s.error, s.crashed);
  }

  /** `( )` declares no parameters. */
  lemma NoParameters(toks: seq<Token>, s: PState)
    requires Valid(toks) && s.index + 3 < |toks| && toks[s.index + 3].typ == ParenRight
    ensures Params(toks, s.(index := s.index + 3)) == Parsed(s.(index := s.index + 3), Nil)
  {
  }

  /** Without `->` there is no return type. */
  lemma NoReturnType(toks: seq<Token>, s: PState)
    requires Valid(toks) && s.index + 4 < |toks| && toks[s.index + 4].typ != Minus
    ensures ReturnType(toks, s.(index := s.index + 4)) == Parsed(s.(index := s.index + 4), Nil)
  {
  }

  /** `fn name ( ) ;` with no error pending is a FUNCTION_DECLARATION at the name, the `;` consumed. */
  lemma FunctionDeclarationShape(toks: seq<Token>, i: nat, e: seq<char>, c: bool)
    requires Valid(toks) && i + 4 < |toks|
    requires toks[i].typ == KwFn && toks[i + 1].typ == TokenType.Identifier
    requires toks[i + 2].typ == ParenLeft && toks[i + 3].typ == ParenRight
    requires toks[i + 4].typ == Semicolon
    ensures var name := toks[i + 1];
            FunctionDefinition(toks, PState(i, false, e, c)) ==
            Parsed(PState(i + 5, false, e, c),
                   Node(FunctionDeclaration, name.pos, false, NodeValue(0, name.contents, []), NoSignature(name), Nil))
  {
    FunctionName(toks, PState(i, false, e, c));
    NoParameters(toks, PState(i, false, e, c));
    NoReturnType(toks, PState(i, false, e, c));
  }

  /** `fn name ( ) { }` with no error pending is a FUNCTION_DEF at the name with an empty body. */
  lemma FunctionDefinitionShape(toks: seq<Token>, i: nat, e: seq<char>, c: bool)
    requires Valid(toks) && i + 5 < |toks|
    requires toks[i].typ == KwFn && toks[i + 1].typ == TokenType.Identifier
    requires toks[i + 2].typ == ParenLeft && toks[i + 3].typ == ParenRight
    requires toks[i + 4].typ == BraceLeft && toks[i + 5].typ == BraceRight
    ensures var name := toks[i + 1];
            FunctionDefinition(toks, PState(i, false, e, c)) ==
            Parsed(PState(i + 6, false, e, c),
                   Node(FunctionDef, name.pos, false, NodeValue(0, name.contents, []), NoSignature(name), Nil))
  {
    FunctionName(toks, PState(i, false, e, c));
    NoParameters(toks, PState(i, false, e, c));
    NoReturnType(toks, PState(i, false, e, c));
    EmptyBody(toks, PState(i + 5, false, e, c));
  }

  /** Without `#` the attribute loop reads nothing. */
  lemma NoAttributes(toks: seq<Token>, s: PState)
    requires Valid(toks) && s.index < |toks| && toks[s.index].typ != Hash
    ensures AttribLoop(toks, s) == AttrRun(s, true, [])
  {
  }

  /** A global statement that starts with neither `#`, `fn` nor `struct` is an error. */
  lemma NotADefinition(toks: seq<Token>, s: PState)
    requires Valid(toks) && s.index < |toks| && !s.hasError
    requires toks[s.index].typ !in {Hash, KwFn, KwStruct}
    ensures GlobalStmt(toks, s) == Parsed(SetErr(s, "expected 'fn' or 'struct'"), Nil)
  {
    NoAttributes(toks, s);
  }

  /** At EOF the statement loop stops with nothing read. */
  lemma EndOfProgram(toks: seq<Token>, s: PState, prev: int)
    requires Valid(toks) && s.index < |toks| && toks[s.index].typ == Eof
    ensures GlobalLoop(toks, s, prev) == GlobalRun(Run(s, []), false)
  {
  }

  /** A program of EOF alone fails at the EOF token. */
  lemma EmptyProgramFails(toks: seq<Token>)
    requires Valid(toks) && InRange(toks) && |toks| == 1
    ensures Parse(toks) == Failure("expected 'fn' or 'struct', found '<eof>'", toks[0].pos)
  {
    NotADefinition(toks, Start);
    var first := GlobalStmt(toks, Start);
    EndOfProgram(toks, first.s, -1);
    assert Found(toks[0]) == ", found '<eof>'";
  }

  /** `fn f struct ...`: the first statement fails at `struct` with "expected '('". */
  lemma CrashFirstStatement(toks: seq<Token>)
    requires Valid(toks) && |toks| == 7
    requires toks[0].typ == KwFn && toks[1].typ == TokenType.Identifier && toks[2].typ == KwStruct
    ensures GlobalStmt(toks, Start) == Parsed(SetErr(Start.(index := 2), "expected '('"), Nil)
  {
    NoAttributes(toks, Start);
    assert FunctionDefinition(toks, Start) == Parsed(SetErr(Start.(index := 2), "expected '('"), Nil);
  }

  /** `struct A { }` is a STRUCT_DEF at the keyword with no fields, even with an error pending. */
  lemma EmptyStruct(toks: seq<Token>, i: nat, h: bool, e: seq<char>, c: bool)
    requires Valid(toks) && i + 3 < |toks|
    requires toks[i].typ == KwStruct && toks[i + 1].typ == TokenType.Identifier
    requires toks[i + 2].typ == BraceLeft && toks[i + 3].typ == BraceRight
    ensures StructDefinition(toks, PState(i, h, e, c)) ==
            Parsed(PState(i + 4, h, e, c), Mk(StructDef, toks[i].pos, IdentNode(toks[i + 1]), Nil))
  {
    var s := PState(i, h, e, c);
    IdentifierLeaf(toks, i + 1, h, e, c);
    var nm := ParseCore.Identifier(toks, Consume(toks, s));
    assert nm.s == PState(i + 2, h, e, c);
    NoFields(toks, Consume(toks, nm.s));
  }

  /** At `}` the field loop reads nothing and does not fail. */
  lemma NoFields(toks: seq<Token>, s: PState)
    requires Valid(toks) && s.index < |toks| && toks[s.index].typ == BraceRight
    ensures FieldLoop(toks, s) == FieldRun(Run(s, []), false)
  {
  }

  /** The same struct as a global statement: nothing notices an error already pending. */
  lemma EmptyStructDespiteError(toks: seq<Token>, s: PState)
    requires Valid(toks) && s.index + 3 < |toks|
    requires toks[s.index].typ == KwStruct && toks[s.index + 1].typ == TokenType.Identifier
    requires toks[s.index + 2].typ == BraceLeft && toks[s.index + 3].typ == BraceRight
    ensures GlobalStmt(toks, s).node != Nil && GlobalStmt(toks, s).s == s.(index := s.index + 4)
  {
    EmptyStruct(toks, s.index, s.hasError, s.error, s.crashed);
    GlobalStruct(toks, s);
  }

  /** Without attributes, a global statement at `struct` is the struct definition, wrapped when it succeeds. */
  lemma GlobalStruct(toks: seq<Token>, s: PState)
    requires Valid(toks) && s.index < |toks| && toks[s.index].typ == KwStruct
    ensures var d := StructDefinition(toks, s);
            d.node != Nil ==> GlobalStmt(toks, s) == Parsed(d.s, Mk(StructDef, d.node.pos, WithAttributes(d.node, []), Nil))
  {
    NoAttributes(toks, s);
  }

  /**
   * `fn f struct A { }`: the first statement fails, the loop still reads
   * the struct and links it after the missing first node: gramina_parse
   * dereferences NULL.
   */
  lemma LinkAfterFailedFirstCrashes(toks: seq<Token>)
    requires Valid(toks) && InRange(toks) && |toks| == 7
    requires toks[0].typ == KwFn && toks[1].typ == TokenType.Identifier && toks[2].typ == KwStruct
    requires toks[3].typ == TokenType.Identifier && toks[4].typ == BraceLeft && toks[5].typ == BraceRight
    ensures Parse(toks) == Crash
  {
    CrashFirstStatement(toks);
    var s2 := SetErr(Start.(index := 2), "expected '('");
    EmptyStructDespiteError(toks, s2);
    var st := GlobalStmt(toks, s2);
    assert GlobalLoop(toks, st.s, st.s.index).run.nodes == [];
    assert GlobalLoop(toks, s2, -1).run.nodes != [];
  }
}

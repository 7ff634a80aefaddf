/**
 * The parser as src/parser/parser.c runs it: one parser state whose cursor
 * and error fields the rules update in place. Each method here is proved to
 * leave the state, and return the node, that the rule function of
 * ParseCore, ParseStmt or ParseDecl describes. The loops of typename,
 * function_body, struct_def, global_statement and gramina_parse are written
 * out; the rules without a loop of their own (expressions, the keyword
 * statements, param_list) run through their functions.
 */
/**
 * How the loops of the parser's methods relate to the rule functions: what
 * a loop has collected so far, followed by what the rule collects from the
 * current state on, is what the rule collects from the state the loop
 * started in.
 */
module ParserLoops {
  import opened Token
  import opened Ast
  import opened Attributes
  import opened ParseCore
  import opened ParseStmt
  import opened ParseDecl

  /** struct_def's loop has taken the fields `nodes` between `s0` and `s`. */
  predicate FieldsCollected(toks: seq<Token>, s0: PState, s: PState, nodes: seq<Ast>)
    requires ParseCore.Valid(toks) && s0.index < |toks| && s.index < |toks|
  {
    var rest := FieldLoop(toks, s);
    FieldLoop(toks, s0) == FieldRun(Run(rest.run.s, nodes + rest.run.nodes), rest.failed)
  }

  lemma FieldsStart(toks: seq<Token>, s0: PState)
    requires ParseCore.Valid(toks) && s0.index < |toks|
    ensures FieldsCollected(toks, s0, s0, [])
  {
    assert [] + FieldLoop(toks, s0).run.nodes == FieldLoop(toks, s0).run.nodes;
  }

  /** A field read with no error set is kept, and the loop goes on. */
  lemma FieldsStep(toks: seq<Token>, s0: PState, before: PState, after: PState, f: Ast, nodes: seq<Ast>)
    requires ParseCore.Valid(toks) && s0.index < |toks| && before.index < |toks| && after.index < |toks|
    requires toks[before.index].typ != BraceRight && FieldsCollected(toks, s0, before, nodes)
    requires Parsed(after, f) == ParseDecl.Field(toks, before) && !after.hasError
    ensures f.Node? && f.right == Nil && FieldsCollected(toks, s0, after, nodes + [f])
  {
    var rest := FieldLoop(toks, after);
    assert FieldLoop(toks, before) == FieldRun(Prepend(f, rest.run), rest.failed);
    Associative(nodes, [f], rest.run.nodes);
  }

  /** The error flag set after a field, even by an earlier error, makes struct_def give up. */
  lemma FieldsStop(toks: seq<Token>, s0: PState, before: PState, after: PState, f: Ast, nodes: seq<Ast>)
    requires ParseCore.Valid(toks) && s0.index < |toks| && before.index < |toks| && after.index < |toks|
    requires toks[before.index].typ != BraceRight && FieldsCollected(toks, s0, before, nodes)
    requires Parsed(after, f) == ParseDecl.Field(toks, before) && after.hasError
    ensures FieldLoop(toks, s0) == FieldRun(Run(after, nodes), true)
  {
    GivesUp(toks, before);
    Unchained(toks, s0, before, after, nodes);
  }

  /** A loop that gives up with nothing more leaves the fields collected so far. */
  lemma Unchained(toks: seq<Token>, s0: PState, before: PState, after: PState, nodes: seq<Ast>)
    requires ParseCore.Valid(toks) && s0.index < |toks| && before.index < |toks|
    requires FieldsCollected(toks, s0, before, nodes) && FieldLoop(toks, before) == FieldRun(Run(after, []), true)
    ensures FieldLoop(toks, s0) == FieldRun(Run(after, nodes), true)
  {
    assert nodes + [] == nodes;
  }

  /** A field after which the error flag is set ends the loop with nothing more. */
  lemma GivesUp(toks: seq<Token>, s: PState)
    requires ParseCore.Valid(toks) && s.index < |toks|
    requires toks[s.index].typ != BraceRight && ParseDecl.Field(toks, s).s.hasError
    ensures FieldLoop(toks, s) == FieldRun(Run(ParseDecl.Field(toks, s).s, []), true)
  {
  }

  /** A node with no successor of its own can be linked after the others. */
  lemma Chained(nodes: seq<Ast>, n: Ast)
    requires Chainable(nodes) && n.Node? && n.right == Nil
    ensures Chainable(nodes + [n])
  {
    forall i | 0 <= i < |nodes| + 1
      ensures (nodes + [n])[i].Node? && (nodes + [n])[i].right == Nil
    {
      if i < |nodes| {
        assert (nodes + [n])[i] == nodes[i];
      }
    }
  }

  lemma Associative<T>(a: seq<T>, b: seq<T>, c: seq<T>)
    ensures a + (b + c) == (a + b) + c
  {
  }

  /** At `}` the loop ends with the fields it read. */
  lemma FieldsEnd(toks: seq<Token>, s0: PState, s: PState, nodes: seq<Ast>)
    requires ParseCore.Valid(toks) && s0.index < |toks| && s.index < |toks|
    requires toks[s.index].typ == BraceRight && FieldsCollected(toks, s0, s, nodes)
    ensures FieldLoop(toks, s0) == FieldRun(Run(s, nodes), false)
  {
    assert FieldLoop(toks, s) == FieldRun(Run(s, []), false);
    assert nodes + [] == nodes;
  }

  /** global_statement's loop has read the attributes `attrs` between `s0` and `s`. */
  predicate AttrsCollected(toks: seq<Token>, s0: PState, s: PState, attrs: seq<SymAttr>)
    requires ParseCore.Valid(toks) && s0.index < |toks| && s.index < |toks|
  {
    var rest := AttribLoop(toks, s);
    AttribLoop(toks, s0) == AttrRun(rest.s, rest.ok, if rest.ok then attrs + rest.attrs else [])
  }

  lemma AttrsStart(toks: seq<Token>, s0: PState)
    requires ParseCore.Valid(toks) && s0.index < |toks|
    ensures AttrsCollected(toks, s0, s0, [])
  {
    var rest := AttribLoop(toks, s0);
    assert !rest.ok ==> rest.attrs == [];
    assert [] + rest.attrs == rest.attrs;
  }

  /** An attribute read and recognised is kept, and the loop goes on. */
  lemma AttrsStep(toks: seq<Token>, s0: PState, before: PState, a: AttribRun, attrs: seq<SymAttr>)
    requires ParseCore.Valid(toks) && s0.index < |toks| && before.index < |toks| && a.s.index < |toks|
    requires toks[before.index].typ == Hash && AttrsCollected(toks, s0, before, attrs)
    requires a == Attrib(toks, before) && a.ok
    ensures AttrsCollected(toks, s0, a.s, attrs + [a.attr])
  {
    var rest := AttribLoop(toks, a.s);
    var whole := AttribLoop(toks, before);
    assert whole == WithAttr(a.attr, rest);
    assert whole.s == rest.s && whole.ok == rest.ok;
    if rest.ok {
      assert whole.attrs == [a.attr] + rest.attrs;
      Associative(attrs, [a.attr], rest.attrs);
    }
  }

  /** A failed attribute ends global_statement. */
  lemma AttrsStop(toks: seq<Token>, s0: PState, before: PState, a: AttribRun, attrs: seq<SymAttr>)
    requires ParseCore.Valid(toks) && s0.index < |toks| && before.index < |toks| && a.s.index < |toks|
    requires toks[before.index].typ == Hash && AttrsCollected(toks, s0, before, attrs)
    requires a == Attrib(toks, before) && !a.ok
    ensures AttribLoop(toks, s0) == AttrRun(a.s, false, [])
  {
    assert AttribLoop(toks, before) == AttrRun(a.s, false, []);
  }

  /** Without `#` the loop ends with the attributes it read. */
  lemma AttrsEnd(toks: seq<Token>, s0: PState, s: PState, attrs: seq<SymAttr>)
    requires ParseCore.Valid(toks) && s0.index < |toks| && s.index < |toks|
    requires toks[s.index].typ != Hash && AttrsCollected(toks, s0, s, attrs)
    ensures AttribLoop(toks, s0) == AttrRun(s, true, attrs)
  {
    assert AttribLoop(toks, s) == AttrRun(s, true, []);
    assert attrs + [] == attrs;
  }

  /** gramina_parse's loop has linked `nodes` between `s1` and `s`, with `prev` the cursor after the last one. */
  predicate GlobalsCollected(toks: seq<Token>, s1: PState, s: PState, prev: int, nodes: seq<Ast>)
    requires ParseCore.Valid(toks) && s1.index < |toks| && s.index < |toks|
  {
    var rest := GlobalLoop(toks, s, prev);
    GlobalLoop(toks, s1, -1) == GlobalRun(Run(rest.run.s, nodes + rest.run.nodes), rest.guardFired)
  }

  lemma GlobalsStart(toks: seq<Token>, s1: PState)
    requires ParseCore.Valid(toks) && s1.index < |toks|
    ensures GlobalsCollected(toks, s1, s1, -1, [])
  {
    assert [] + GlobalLoop(toks, s1, -1).run.nodes == GlobalLoop(toks, s1, -1).run.nodes;
  }

  /** A statement that moved the cursor is linked, and the loop goes on. */
  lemma GlobalsStep(toks: seq<Token>, s1: PState, before: PState, after: PState, prev: int, st: Ast, nodes: seq<Ast>)
    requires ParseCore.Valid(toks) && s1.index < |toks| && before.index < |toks| && after.index < |toks|
    requires toks[before.index].typ != Eof && GlobalsCollected(toks, s1, before, prev, nodes)
    requires Parsed(after, st) == GlobalStmt(toks, before) && st != Nil && prev != after.index
    ensures st.Node? && st.right == Nil && GlobalsCollected(toks, s1, after, after.index, nodes + [st])
  {
    var rest := GlobalLoop(toks, after, after.index);
    assert GlobalLoop(toks, before, prev) == GlobalRun(Prepend(st, rest.run), rest.guardFired);
    Associative(nodes, [st], rest.run.nodes);
  }

  /** A statement that yields NULL ends the loop. */
  lemma GlobalsStop(toks: seq<Token>, s1: PState, before: PState, after: PState, prev: int, nodes: seq<Ast>)
    requires ParseCore.Valid(toks) && s1.index < |toks| && before.index < |toks| && after.index < |toks|
    requires toks[before.index].typ != Eof && GlobalsCollected(toks, s1, before, prev, nodes)
    requires Parsed(after, Nil) == GlobalStmt(toks, before)
    ensures GlobalLoop(toks, s1, -1) == GlobalRun(Run(after, nodes), false)
  {
    assert GlobalLoop(toks, before, prev) == GlobalRun(Run(after, []), false);
    assert nodes + [] == nodes;
  }

  /** At EOF the loop ends with the statements it linked. */
  lemma GlobalsEnd(toks: seq<Token>, s1: PState, s: PState, prev: int, nodes: seq<Ast>)
    requires ParseCore.Valid(toks) && s1.index < |toks| && s.index < |toks|
    requires toks[s.index].typ == Eof && GlobalsCollected(toks, s1, s, prev, nodes)
    ensures GlobalLoop(toks, s1, -1) == GlobalRun(Run(s, nodes), false)
  {
    assert GlobalLoop(toks, s, prev) == GlobalRun(Run(s, []), false);
    assert nodes + [] == nodes;
  }

  /** function_body's loop has taken `nodes` between `s0` and `s`. */
  predicate BodyCollected(toks: seq<Token>, s0: PState, s: PState, nodes: seq<Ast>)
    requires ParseCore.Valid(toks) && s0.index < |toks| && s.index < |toks|
  {
    var rest := BodyLoop(toks, s);
    BodyLoop(toks, s0) == Run(rest.s, nodes + rest.nodes)
  }

  lemma BodyStart(toks: seq<Token>, s0: PState)
    requires ParseCore.Valid(toks) && s0.index < |toks|
    ensures BodyCollected(toks, s0, s0, [])
  {
    assert [] + BodyLoop(toks, s0).nodes == BodyLoop(toks, s0).nodes;
  }

  /** One statement taken by the loop. */
  lemma BodyStep(toks: seq<Token>, s0: PState, before: PState, after: PState, st: Ast, nodes: seq<Ast>)
    requires ParseCore.Valid(toks) && s0.index < |toks| && before.index < |toks| && after.index < |toks|
    requires toks[before.index].typ != BraceRight && BodyCollected(toks, s0, before, nodes)
    requires Parsed(after, st) == ParseStmt.Statement(toks, before) && st != Nil
    ensures BodyCollected(toks, s0, after, nodes + [st])
  {
    var rest := BodyLoop(toks, after);
    assert BodyLoop(toks, before) == Prepend(st, rest);
    Associative(nodes, [st], rest.nodes);
  }

  /** A statement that yields NULL ends the loop, with "expected statement" unless an error is set. */
  lemma BodyStop(toks: seq<Token>, s0: PState, before: PState, after: PState, nodes: seq<Ast>)
    requires ParseCore.Valid(toks) && s0.index < |toks| && before.index < |toks| && after.index < |toks|
    requires toks[before.index].typ != BraceRight && BodyCollected(toks, s0, before, nodes)
    requires Parsed(after, Nil) == ParseStmt.Statement(toks, before)
    ensures BodyLoop(toks, s0) == Run(ParseCore.SetErrIfNone(after, "expected statement"), nodes)
  {
    assert BodyLoop(toks, before) == Run(ParseCore.SetErrIfNone(after, "expected statement"), []);
    assert nodes + [] == nodes;
  }

  /** At `}` the loop ends with what it collected. */
  lemma BodyEnd(toks: seq<Token>, s0: PState, s: PState, nodes: seq<Ast>)
    requires ParseCore.Valid(toks) && s0.index < |toks| && s.index < |toks|
    requires toks[s.index].typ == BraceRight && BodyCollected(toks, s0, s, nodes)
    ensures BodyLoop(toks, s0) == Run(s, nodes)
  {
    assert BodyLoop(toks, s) == Run(s, []);
    assert nodes + [] == nodes;
  }

  /** A `const` in the suffix loop is pending for the next wrapper. */
  lemma SuffixConst(toks: seq<Token>, s: PState, cur: Ast, constNext: bool)
    requires ParseCore.Valid(toks) && s.index < |toks| && cur != Nil && toks[s.index].typ == KwConst
    ensures TypeSuffixes(toks, s, cur, constNext) == TypeSuffixes(toks, ParseCore.Consume(toks, s), cur, true)
  {
  }

  /** `&` wraps one pointer level and `&&` two, at the operator's position. */
  lemma SuffixPointer(toks: seq<Token>, s: PState, cur: Ast, constNext: bool)
    requires ParseCore.Valid(toks) && s.index < |toks| && cur != Nil
    requires toks[s.index].typ == Ampersand || toks[s.index].typ == And
    ensures var t := toks[s.index];
            var one := Node(TypePointer, t.pos, constNext, ZeroValue, cur, Nil);
            TypeSuffixes(toks, s, cur, constNext) ==
            TypeSuffixes(toks, ParseCore.Consume(toks, s), if t.typ == And then Mk(TypePointer, t.pos, one, Nil) else one, false)
  {
  }

  /** `[` followed by `]`, an integer literal or anything else. */
  lemma SuffixBracket(toks: seq<Token>, s: PState, cur: Ast, constNext: bool)
    requires ParseCore.Valid(toks) && s.index < |toks| && cur != Nil && toks[s.index].typ == SubscriptLeft
    ensures var t := toks[s.index];
            var s1 := ParseCore.Consume(toks, s);
            var u := toks[s1.index];
            TypeSuffixes(toks, s, cur, constNext) ==
            if u.typ == SubscriptRight then
              TypeSuffixes(toks, ParseCore.Consume(toks, s1), Node(TypeSlice, t.pos, constNext, ZeroValue, cur, Nil), false)
            else if u.typ.IsIntLiteral() then ArrayType(toks, s1, cur, constNext, t.pos)
            else Parsed(ParseCore.SetErr(s1, "expected ']' or integer literal"), Nil)
  {
  }

  /** Any other token ends the suffix loop with the type built so far. */
  lemma SuffixEnd(toks: seq<Token>, s: PState, cur: Ast, constNext: bool)
    requires ParseCore.Valid(toks) && s.index < |toks| && cur != Nil
    requires toks[s.index].typ !in {KwConst, Ampersand, And, SubscriptLeft}
    ensures TypeSuffixes(toks, s, cur, constNext) == Parsed(s, cur)
  {
  }
}

module Parser {
  import opened Token
  import opened Ast
  import opened Attributes
  import opened ParseCore
  import opened ParseStmt
  import opened ParseDecl
  import opened ParserLoops

  /** struct tagged_parser_state: the token slice, the cursor and the error. */
  class ParserState {
    const tokens: seq<Token>
    var index: nat
    var hasError: bool
    var error: seq<char>
    var crashed: bool

    /** The fields as the state value the rule functions take. */
    function State(): PState
      reads this
    {
      PState(index, hasError, error, crashed)
    }

    /** The cursor is on a token of a slice that ends with EOF. */
    predicate Valid()
      reads this
    {
      ParseCore.Valid(tokens) && index < |tokens|
    }

    /** The state gramina_parse starts from. */
    constructor (toks: seq<Token>)
      requires ParseCore.Valid(toks)
      ensures tokens == toks && State() == Start && Valid()
    {
      tokens := toks;
      index := 0;
      hasError := false;
      error := [];
      crashed := false;
    }

    /** `ParserState Sp = *S`: a copy of another state. */
    constructor Copy(other: ParserState)
      requires other.Valid()
      ensures tokens == other.tokens && State() == other.State() && Valid()
    {
      tokens := other.tokens;
      index := other.index;
      hasError := other.hasError;
      error := other.error;
      crashed := other.crashed;
    }

    /** `*S = Sp`: the state takes over the fields of a copy. */
    method Restore(other: ParserState)
      requires other.Valid() && other.tokens == tokens
      modifies this
      ensures State() == other.State() && Valid()
    {
      index := other.index;
      hasError := other.hasError;
      error := other.error;
      crashed := other.crashed;
    }

    /** The state a rule left, taken over from its function, and the node it returned. */
    method Take(p: Parsed) returns (n: Ast)
      requires ParseCore.Valid(tokens) && p.s.index < |tokens|
      modifies this
      ensures State() == p.s && n == p.node && Valid()
    {
      index := p.s.index;
      hasError := p.s.hasError;
      error := p.s.error;
      crashed := p.s.crashed;
      n := p.node;
    }

    /** CONSUME: the cursor moves past the current token, which is not EOF. */
    method Consume()
      requires Valid() && tokens[index].typ != Eof
      modifies this
      ensures State() == ParseCore.Consume(tokens, old(State())) && Valid()
    {
      index := index + 1;
    }

    /** SET_ERR. */
    method SetErr(msg: seq<char>)
      modifies this
      ensures State() == ParseCore.SetErr(old(State()), msg)
    {
      hasError := true;
      error := msg;
    }

    /** `if (!HAS_ERR(S)) SET_ERR(S, msg)`. */
    method SetErrIfNone(msg: seq<char>)
      modifies this
      ensures State() == ParseCore.SetErrIfNone(old(State()), msg)
    {
      if !hasError {
        SetErr(msg);
      }
    }

    /** CLEAR_ERR. */
    method ClearErr()
      modifies this
      ensures State() == ParseCore.ClearErr(old(State()))
    {
      hasError := false;
      error := [];
    }

    /** identifier: an IDENTIFIER leaf for the current token, or "expected identifier". */
    method Identifier() returns (n: Ast)
      requires Valid()
      modifies this
      ensures Valid() && Parsed(State(), n) == ParseCore.Identifier(tokens, old(State()))
    {
      var cur := tokens[index];
      if cur.typ != TokenType.Identifier {
        SetErr("expected identifier");
        return Nil;
      }
      Consume();
      n := Node(NodeType.Identifier, cur.pos, false, NodeValue(0, cur.contents, []), Nil, Nil);
    }

    /**
     * handle_array_type, with the cursor on the integer literal after `[`:
     * `failed` when the length is not positive or `]` does not follow.
     */
    method HandleArrayType(cur: Ast, constNext: bool, bracket: Position) returns (failed: bool, arr: Ast)
      requires Valid() && cur != Nil && tokens[index].typ.IsIntLiteral()
      modifies this
      ensures Valid() && (failed <==> arr == Nil) && (!failed ==> index > old(index))
      ensures failed ==> ArrayType(tokens, old(State()), cur, constNext, bracket) == Parsed(State(), Nil)
      ensures !failed ==> ArrayType(tokens, old(State()), cur, constNext, bracket) == TypeSuffixes(tokens, State(), arr, false)
    {
      var n := tokens[index].data;
      if n <= 0 {
        SetErr("array length must be a positive integer literal");
        return true, Nil;
      }
      Consume();
      if tokens[index].typ != SubscriptRight {
        SetErr("unterminated '['");
        return true, Nil;
      }
      Consume();
      return false, Node(TypeArray, bracket, constNext, NodeValue(n, [], []), cur, Nil);
    }

    /**
     * typename: an optional `const`, then `$` or an identifier followed by
     * the suffix loop, which wraps the type in pointer, slice and array
     * nodes until a token that is no suffix.
     */
    method Typename() returns (n: Ast)
      requires Valid()
      modifies this
      ensures Valid() && Parsed(State(), n) == ParseCore.Typename(tokens, old(State()))
    {
      var constNext := false;
      if tokens[index].typ == KwConst {
        constNext := true;
        Consume();
      }
      if tokens[index].typ == Dollar {
        var pos := tokens[index].pos;
        Consume();
        return Node(Reflect, pos, constNext, ZeroValue, Nil, Nil);
      }
      var cur := Identifier();
      if cur == Nil {
        SetErr("expected identifier or '$'");
        return Nil;
      }
      cur := cur.(constType := constNext);
      constNext := false;
      n := Suffixes(cur);
    }

    /** The suffix loop of typename, wrapping `cur`. */
    method Suffixes(start: Ast) returns (n: Ast)
      requires Valid() && start != Nil
      modifies this
      ensures Valid() && Parsed(State(), n) == TypeSuffixes(tokens, old(State()), start, false)
    {
      ghost var goal := TypeSuffixes(tokens, State(), start, false);
      var cur := start;
      var constNext := false;
      var loop := true;
      while loop
        invariant Valid() && cur != Nil
        invariant loop ==> TypeSuffixes(tokens, State(), cur, constNext) == goal
        invariant !loop ==> goal == Parsed(State(), cur)
        decreases |tokens| - index, if loop then 1 else 0
      {
        var t := tokens[index];
        ghost var before := State();
        if t.typ == KwConst {
          SuffixConst(tokens, before, cur, constNext);
          constNext := true;
          Consume();
        } else if t.typ == Ampersand || t.typ == And {
          ghost var inner := cur;
          ghost var innerConst := constNext;
          var levels := if t.typ == And then 2 else 1;
          for i := 0 to levels
            invariant State() == before
            invariant i == 0 ==> cur == inner && constNext == innerConst
            invariant i >= 1 ==> !constNext
            invariant i == 1 ==> cur == Node(TypePointer, t.pos, innerConst, ZeroValue, inner, Nil)
            invariant i == 2 ==> cur == Mk(TypePointer, t.pos, Node(TypePointer, t.pos, innerConst, ZeroValue, inner, Nil), Nil)
          {
            cur := Node(TypePointer, t.pos, constNext, ZeroValue, cur, Nil);
            constNext := false;
          }
          SuffixPointer(tokens, before, inner, innerConst);
          Consume();
        } else if t.typ == SubscriptLeft {
          Consume();
          var u := tokens[index];
          SuffixBracket(tokens, before, cur, constNext);
          if u.typ == SubscriptRight {
            cur := Node(TypeSlice, t.pos, constNext, ZeroValue, cur, Nil);
            constNext := false;
            Consume();
          } else if u.typ.IsIntLiteral() {
            var failed;
            failed, cur := HandleArrayType(cur, constNext, t.pos);
            if failed {
              return Nil;
            }
            constNext := false;
          } else {
            SetErr("expected ']' or integer literal");
            return Nil;
          }
        } else {
          SuffixEnd(tokens, before, cur, constNext);
          loop := false;
        }
      }
      n := cur;
    }

    /**
     * statement: the keyword statements, else an expression statement on a
     * copy of the state, which replaces the state only when it yields a
     * node; otherwise a declaration from the state as it was.
     */
    method Statement() returns (n: Ast)
      requires Valid()
      modifies this
      ensures Valid() && Parsed(State(), n) == ParseStmt.Statement(tokens, old(State()))
    {
      var t := tokens[index].typ;
      if t == KwReturn {
        n := Take(ReturnStmt(tokens, State()));
      } else if t == KwFor {
        n := Take(ForStmt(tokens, State()));
      } else if t == KwWhile {
        n := Take(WhileStmt(tokens, State()));
      } else if t == KwIf {
        n := Take(IfStmt(tokens, State()));
      } else {
        n := ExpressionOrDeclaration();
      }
    }

    /**
     * statement's last resort: an expression statement read on a copy of
     * the state, kept when it yields a node; otherwise a declaration from
     * the state as it was.
     */
    method ExpressionOrDeclaration() returns (n: Ast)
      requires Valid()
      modifies this
      ensures Valid()
      ensures var e := ExprStmt(tokens, old(State()));
              Parsed(State(), n) == if e.node != Nil then e else DeclStmt(tokens, old(State()))
    {
      var sp := new ParserState.Copy(this);
      var e := sp.Take(ExprStmt(tokens, sp.State()));
      if e != Nil {
        Restore(sp);
        n := e;
      } else {
        sp.ClearErr();
        n := Take(DeclStmt(tokens, State()));
      }
    }

    /**
     * function_body: statements up to `}` (not consumed), linked in order;
     * a statement that yields NULL ends the loop with "expected statement"
     * unless an error is set, and an error drops the body.
     */
    method FunctionBody() returns (n: Ast)
      requires Valid()
      modifies this
      ensures Valid() && Parsed(State(), n) == ParseStmt.FunctionBody(tokens, old(State()))
    {
      ghost var s0 := State();
      ghost var stopped := false;
      var nodes: seq<Ast> := [];
      BodyStart(tokens, s0);
      while tokens[index].typ != BraceRight
        invariant Valid() && Chainable(nodes) && !stopped
        invariant BodyCollected(tokens, s0, State(), nodes)
        decreases |tokens| - index
      {
        ghost var before := State();
        var st := Statement();
        if st == Nil {
          BodyStop(tokens, s0, before, State(), nodes);
          SetErrIfNone("expected statement");
          stopped := true;
          break;
        }
        BodyStep(tokens, s0, before, State(), st, nodes);
        nodes := nodes + [st];
      }
      if !stopped {
        BodyEnd(tokens, s0, State(), nodes);
      }
      if hasError {
        n := Nil;
      } else {
        n := Link(nodes);
      }
    }

    /** struct_field: typename, name and `;`, a STRUCT_FIELD at the type's position. */
    method Field() returns (n: Ast)
      requires Valid()
      modifies this
      ensures Valid() && Parsed(State(), n) == ParseDecl.Field(tokens, old(State()))
    {
      var ty := Typename();
      if ty == Nil {
        return Nil;
      }
      var name := Identifier();
      if name == Nil {
        return Nil;
      }
      if tokens[index].typ != Semicolon {
        SetErr("expected ';'");
        return Nil;
      }
      Consume();
      n := Mk(StructField, ty.pos, Param(ty, name), Nil);
    }

    /**
     * struct_def: `struct` name `{`, then fields up to `}`; the error flag
     * set after any field, even by an earlier error, drops the definition.
     */
    method ParseStruct() returns (n: Ast)
      requires Valid()
      modifies this
      ensures Valid() && Parsed(State(), n) == StructDefinition(tokens, old(State()))
    {
      if tokens[index].typ != KwStruct {
        SetErr("expected 'struct'");
        return Nil;
      }
      var defPos := tokens[index].pos;
      Consume();
      var name := Identifier();
      if name == Nil {
        return Nil;
      }
      if tokens[index].typ != BraceLeft {
        SetErr("expected '{'");
        return Nil;
      }
      Consume();
      var failed, fields := Fields();
      if failed {
        return Nil;
      }
      Consume();
      n := Mk(StructDef, defPos, name, Link(fields));
    }

    /**
     * The loop of struct_def: fields up to `}` (not consumed), giving up
     * when the error flag is set after a field.
     */
    method Fields() returns (failed: bool, fields: seq<Ast>)
      requires Valid()
      modifies this
      ensures Valid() && Chainable(fields)
      ensures FieldRun(Run(State(), fields), failed) == FieldLoop(tokens, old(State()))
    {
      ghost var s0 := State();
      fields := [];
      failed := false;
      FieldsStart(tokens, s0);
      while tokens[index].typ != BraceRight
        invariant Valid() && Chainable(fields) && !failed
        invariant FieldsCollected(tokens, s0, State(), fields)
        decreases |tokens| - index
      {
        ghost var before := State();
        var f := Field();
        if hasError {
          FieldsStop(tokens, s0, before, State(), f, fields);
          failed := true;
          break;
        }
        FieldsStep(tokens, s0, before, State(), f, fields);
        Chained(fields, f);
        fields := fields + [f];
      }
      if !failed {
        FieldsEnd(tokens, s0, State(), fields);
      }
    }

    /**
     * One attribute of global_statement, from its `#`: the name, an
     * optional `("text")` and the kind the name stands for.
     */
    method Attribute() returns (ok: bool, attr: SymAttr)
      requires Valid() && tokens[index].typ == Hash
      modifies this
      ensures Valid() && AttribRun(State(), ok, attr) == Attrib(tokens, old(State()))
    {
      Consume();
      if tokens[index].typ != TokenType.Identifier {
        SetErr("expected attribute name");
        return false, NoAttr;
      }
      var nameTok := tokens[index];
      Consume();
      var text: seq<char> := [];
      if tokens[index].typ == ParenLeft {
        Consume();
        if tokens[index].typ != LitStrDouble {
          SetErr("expected string literal");
          return false, NoAttr;
        }
        text := tokens[index].contents;
        Consume();
        if tokens[index].typ != ParenRight {
          SetErr("expected ')'");
          return false, NoAttr;
        }
        Consume();
      }
      var kind := GetAttribKind(nameTok.contents);
      if kind == NoneKind {
        SetErr("unknown attribute '" + nameTok.contents + "'");
        return false, NoAttr;
      }
      return true, SymAttr(kind, text);
    }

    /**
     * function_def: `fn` name `(` params `)` [`->` type], then `;` for a
     * declaration or a body and `}` for a definition.
     */
    method ParseFunction() returns (n: Ast)
      requires Valid()
      modifies this
      ensures Valid() && Parsed(State(), n) == FunctionDefinition(tokens, old(State()))
    {
      if tokens[index].typ != KwFn {
        return Nil;
      }
      Consume();
      var name := Identifier();
      if name == Nil {
        return Nil;
      }
      if tokens[index].typ != ParenLeft {
        SetErr("expected '('");
        return Nil;
      }
      Consume();
      var params := Take(Params(tokens, State()));
      if hasError {
        return Nil;
      }
      if tokens[index].typ != ParenRight {
        SetErr(if params != Nil then "expected ')'" else "expected parameter list or ')'");
        return Nil;
      }
      Consume();
      var returnType := Nil;
      if tokens[index].typ == Minus {
        Consume();
        if tokens[index].typ != GreaterThan {
          SetErr("expected '->'");
          return Nil;
        }
        Consume();
        returnType := Typename();
        if hasError {
          return Nil;
        }
      }
      var u := tokens[index].typ;
      if u != BraceLeft && u != Semicolon {
        SetErr("expected '{' or ';'");
        return Nil;
      }
      var named := NodeValue(0, name.value.identifier, []);
      var typ := Mk(FunctionType, name.pos, params, returnType);
      if u == Semicolon {
        Consume();
        return Node(FunctionDeclaration, name.pos, false, named, typ, Nil);
      }
      Consume();
      var contents := FunctionBody();
      if hasError {
        return Nil;
      }
      // function_body stops only at `}` or with the error set, so the
      // "expected '}'" branch of function_def is never taken.
      assert tokens[index].typ == BraceRight;
      Consume();
      n := Node(FunctionDef, name.pos, false, named, typ, contents);
    }

    /**
     * global_statement: the attribute loop, then a function (wrapped in
     * GLOBAL_STATEMENT) or a struct (wrapped in a second STRUCT_DEF) that
     * receives the attributes.
     */
    method ParseGlobal() returns (n: Ast)
      requires Valid()
      modifies this
      ensures Valid() && Parsed(State(), n) == GlobalStmt(tokens, old(State()))
    {
      ghost var s0 := State();
      var attrs: seq<SymAttr> := [];
      AttrsStart(tokens, s0);
      while tokens[index].typ == Hash
        invariant Valid() && AttrsCollected(tokens, s0, State(), attrs)
        decreases |tokens| - index
      {
        ghost var before := State();
        var ok, attr := Attribute();
        if !ok {
          AttrsStop(tokens, s0, before, AttribRun(State(), ok, attr), attrs);
          return Nil;
        }
        AttrsStep(tokens, s0, before, AttribRun(State(), ok, attr), attrs);
        attrs := attrs + [attr];
      }
      AttrsEnd(tokens, s0, State(), attrs);
      var t := tokens[index].typ;
      if t == KwFn {
        var def := ParseFunction();
        if def == Nil {
          SetErrIfNone("expected function definition");
          return Nil;
        }
        n := Mk(GlobalStatement, def.pos, WithAttributes(def, attrs), Nil);
      } else if t == KwStruct {
        var def := ParseStruct();
        if def == Nil {
          SetErrIfNone("expected struct definition");
          return Nil;
        }
        n := Mk(StructDef, def.pos, WithAttributes(def, attrs), Nil);
      } else {
        SetErrIfNone("expected 'fn' or 'struct'");
        n := Nil;
      }
    }

    /**
     * The loop of gramina_parse after the first statement: global
     * statements until EOF or the first that yields NULL, each linked after
     * the previous one.
     */
    method GlobalStatements() returns (nodes: seq<Ast>)
      requires Valid()
      modifies this
      ensures Valid() && Chainable(nodes)
      ensures Run(State(), nodes) == GlobalLoop(tokens, old(State()), -1).run
    {
      ghost var s1 := State();
      ghost var stopped := false;
      nodes := [];
      var prev: int := -1;
      GlobalsStart(tokens, s1);
      while tokens[index].typ != Eof
        invariant Valid() && Chainable(nodes) && !stopped && prev <= index
        invariant GlobalsCollected(tokens, s1, State(), prev, nodes)
        decreases |tokens| - index
      {
        ghost var before := State();
        var st := ParseGlobal();
        if st == Nil {
          GlobalsStop(tokens, s1, before, State(), prev, nodes);
          stopped := true;
          break;
        }
        // A global statement that yields a node moves the cursor, so the
        // "infinite loop!" guard of gramina_parse never fires.
        assert prev < index;
        GlobalsStep(tokens, s1, before, State(), prev, st, nodes);
        Chained(nodes, st);
        prev := index;
        nodes := nodes + [st];
      }
      if !stopped {
        GlobalsEnd(tokens, s1, State(), prev, nodes);
      }
    }

    /**
     * The end of gramina_parse: a crash when the state crashed or a
     * statement follows a failed first one; on error, the message with the
     * text of the token at the cursor; otherwise the linked statements.
     */
    method Finish(first: Ast, nodes: seq<Ast>) returns (r: ParseResult)
      requires Valid() && InRange(tokens) && Chainable(nodes)
      requires first == Nil && nodes == [] ==> hasError
      ensures r == Outcome(tokens, first, Run(State(), nodes))
    {
      if crashed || (first == Nil && nodes != []) {
        return Crash;
      }
      if hasError {
        return Failure(error + Found(tokens[index]), tokens[index].pos);
      }
      r := Tree(Link([first] + nodes));
    }
  }

  /**
   * gramina_parse: a first global statement, then the loop; a statement
   * linked after a failed first one is a crash, and on error the message
   * gains the text of the token at the cursor, whose position is reported.
   */
  method ParseTokens(toks: seq<Token>) returns (r: ParseResult)
    requires ParseCore.Valid(toks) && InRange(toks)
    ensures r == ParseDecl.Parse(toks)
  {
    var S := new ParserState(toks);
    var first := S.ParseGlobal();
    var nodes := S.GlobalStatements();
    r := S.Finish(first, nodes);
  }

}

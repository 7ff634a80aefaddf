/**
 * Top-level declarations and the parser's entry point (src/parser/parser.c:
 * gramina_parse, param_list, function_def, struct_field, struct_def and
 * global_statement).
 */
module ParseDecl {
  import opened Wrappers
  import opened Token
  import opened Ast
  import opened Attributes
  import opened ParseCore
  import opened ParseExpr
  import opened ParseStmt

  /** An attribute's optional argument: whether it parsed and its text. */
  datatype ArgRun = ArgRun(s: PState, ok: bool, text: seq<char>)

  /** One attribute: whether it parsed, and the attribute. */
  datatype AttribRun = AttribRun(s: PState, ok: bool, attr: SymAttr)

  /** The attribute a failed step leaves behind. */
  const NoAttr := SymAttr(NoneKind, [])

  /** The attributes before a global statement: whether they parsed, and the list. */
  datatype AttrRun = AttrRun(s: PState, ok: bool, attrs: seq<SymAttr>)

  /**
   * The loop of gramina_parse: the statements linked after the first one,
   * and whether the "infinite loop!" guard fired.
   */
  datatype GlobalRun = GlobalRun(run: Run, guardFired: bool)

  /**
   * What gramina_parse returns: the root, or the error message with ", found
   * '<token>'" appended and the position of the token at the cursor; Crash
   * when the source would have dereferenced NULL or read past EOF.
   */
  datatype ParseResult =
    | Tree(root: Ast)
    | Failure(message: seq<char>, pos: Position)
    | Crash

  /** A parameter: an IDENTIFIER whose left child is its type. */
  function Param(ty: Ast, name: Ast): (r: Ast)
    requires name.Node?
    ensures r.Node? && r.typ == name.typ && r.value == name.value && r.left == ty
  {
    name.(left := ty)
  }

  /**
   * param_list: Nil before `)`; one parameter alone; several as
   * right-nested PARAM_LIST nodes at each type's position, the last
   * wrapped as PARAM_LIST(param, Nil).
   */
  function Params(toks: seq<Token>, s: PState): (r: Parsed)
    requires Valid(toks) && s.index < |toks|
    ensures Moved(toks, s, r.s)
    ensures toks[s.index].typ == ParenRight ==> r == Parsed(s, Nil)
  {
    if toks[s.index].typ == ParenRight then Parsed(s, Nil)
    else
      var ty := Typename(toks, s);
      if ty.node == Nil then Parsed(ty.s, Nil)
      else
        var nm := ParseCore.Identifier(toks, ty.s);
        if nm.node == Nil then Parsed(nm.s, Nil)
        else if toks[nm.s.index].typ != Comma then Parsed(nm.s, Param(ty.node, nm.node))
        else
          var rest := ParamsPr(toks, nm.s);
          Parsed(rest.s, Mk(ParamList, ty.node.pos, Param(ty.node, nm.node), rest.node))
  }

  /** param_list_pr: `,` type name and the rest, always wrapped in PARAM_LIST. */
  function ParamsPr(toks: seq<Token>, s: PState): (r: Parsed)
    requires Valid(toks) && s.index < |toks|
    ensures Moved(toks, s, r.s)
    ensures toks[s.index].typ != Comma ==> r == Parsed(s, Nil)
    ensures r.node != Nil ==> r.node.typ == ParamList
    decreases |toks| - s.index
  {
    if toks[s.index].typ != Comma then Parsed(s, Nil)
    else
      var ty := Typename(toks, Consume(toks, s));
      if ty.node == Nil then Parsed(ty.s, Nil)
      else
        var nm := ParseCore.Identifier(toks, ty.s);
        if nm.node == Nil then Parsed(nm.s, Nil)
        else
          var rest := ParamsPr(toks, nm.s);
          Parsed(rest.s, Mk(ParamList, ty.node.pos, Param(ty.node, nm.node), rest.node))
  }

  /** The optional `-> typename` of function_def. */
  function ReturnType(toks: seq<Token>, s: PState): (r: Parsed)
    requires Valid(toks) && s.index < |toks|
    ensures Moved(toks, s, r.s)
    ensures toks[s.index].typ != Minus ==> r == Parsed(s, Nil)
  {
    if toks[s.index].typ != Minus then Parsed(s, Nil)
    else
      var s1 := Consume(toks, s);
      if toks[s1.index].typ != GreaterThan then Parsed(SetErr(s1, "expected '->'"), Nil)
      else Typename(toks, Consume(toks, s1))
  }

  /**
   * function_def: `fn` name `(` params `)` [`->` type] then `;` for a
   * FUNCTION_DECLARATION or a body in braces for a FUNCTION_DEF. Both carry
   * the name and its position and have FUNCTION_TYPE(params, return type)
   * as their left child; a definition's body is its right child. Without
   * `fn` nothing is consumed and no error is raised.
   */
  function FunctionDefinition(toks: seq<Token>, s: PState): (r: Parsed)
    requires Valid(toks) && s.index < |toks|
    ensures Advanced(toks, s, r.s)
    ensures toks[s.index].typ != KwFn ==> r == Parsed(s, Nil)
    ensures r.node != Nil ==> r.s.index > s.index && !r.s.hasError
    ensures r.node != Nil ==> r.node.typ in {FunctionDeclaration, FunctionDef}
  {
    var t := toks[s.index];
    if t.typ != KwFn then Parsed(s, Nil)
    else
      var nm := ParseCore.Identifier(toks, Consume(toks, s));
      if nm.node == Nil then Parsed(nm.s, Nil)
      else if toks[nm.s.index].typ != ParenLeft then Parsed(SetErr(nm.s, "expected '('"), Nil)
      else
        var p := Params(toks, Consume(toks, nm.s));
        if p.s.hasError then Parsed(p.s, Nil)
        else if toks[p.s.index].typ != ParenRight then
          Parsed(SetErr(p.s, if p.node != Nil then "expected ')'" else "expected parameter list or ')'"), Nil)
        else
          var s3 := Consume(toks, p.s);
          var hasArrow := toks[s3.index].typ == Minus;
          var rt := ReturnType(toks, s3);
          if hasArrow && rt.s.hasError then Parsed(rt.s, Nil)
          else
            var u := toks[rt.s.index].typ;
            if u != BraceLeft && u != Semicolon then Parsed(SetErr(rt.s, "expected '{' or ';'"), Nil)
            else
              var named := NodeValue(0, nm.node.value.identifier, []);
              var ft := Mk(FunctionType, nm.node.pos, p.node, rt.node);
              if u == Semicolon then
                Parsed(Consume(toks, rt.s), Node(FunctionDeclaration, nm.node.pos, false, named, ft, Nil))
              else
                FunctionEnd(toks, FunctionBody(toks, Consume(toks, rt.s)), Node(FunctionDef, nm.node.pos, false, named, ft, Nil))
  }

  /** The end of function_def: the body's error, or `}` closing it. */
  function FunctionEnd(toks: seq<Token>, b: Parsed, def: Ast): (r: Parsed)
    requires Valid(toks) && b.s.index < |toks| && def.Node?
    ensures b.s.index <= r.s.index < |toks| && r.s.crashed == b.s.crashed
    ensures r.node != Nil ==> r.s.index > b.s.index && !r.s.hasError
    ensures r.node != Nil ==> r.node == def.(right := b.node)
  {
    if b.s.hasError then Parsed(b.s, Nil)
    else if toks[b.s.index].typ != BraceRight then
      Parsed(SetErr(b.s, if b.node != Nil then "expected '}'" else "expected function body or '}'"), Nil)
    else Parsed(Consume(toks, b.s), def.(right := b.node))
  }

  /** struct_field: typename name `;`, a STRUCT_FIELD at the type's position around the typed name. */
  function Field(toks: seq<Token>, s: PState): (r: Parsed)
    requires Valid(toks) && s.index < |toks|
    ensures Moved(toks, s, r.s)
    ensures r.s.hasError == (s.hasError || r.node == Nil)
    ensures r.node != Nil ==> r.s.index > s.index && r.node.typ == StructField && r.node.right == Nil
  {
    var ty := Typename(toks, s);
    if ty.node == Nil then Parsed(ty.s, Nil)
    else
      var nm := ParseCore.Identifier(toks, ty.s);
      if nm.node == Nil then Parsed(nm.s, Nil)
      else if toks[nm.s.index].typ != Semicolon then Parsed(SetErr(nm.s, "expected ';'"), Nil)
      else Parsed(Consume(toks, nm.s), Mk(StructField, ty.node.pos, Param(ty.node, nm.node), Nil))
  }

  /** The fields struct_def collected, and whether the error flag stopped it. */
  datatype FieldRun = FieldRun(run: Run, failed: bool)

  /**
   * The loop of struct_def: fields up to `}` (not consumed). It gives up
   * when the error flag is set after a field, even by an earlier error;
   * with no field to read, an earlier error goes unnoticed.
   */
  function FieldLoop(toks: seq<Token>, s: PState): (r: FieldRun)
    requires Valid(toks) && s.index < |toks|
    ensures Moved(toks, s, r.run.s)
    ensures Chainable(r.run.nodes)
    ensures r.failed ==> r.run.s.hasError
    ensures !r.failed ==> toks[r.run.s.index].typ == BraceRight && r.run.s.hasError == s.hasError
    decreases |toks| - s.index
  {
    if toks[s.index].typ == BraceRight then FieldRun(Run(s, []), false)
    else
      var f := Field(toks, s);
      if f.s.hasError then FieldRun(Run(f.s, []), true)
      else
        var rest := FieldLoop(toks, f.s);
        FieldRun(Prepend(f.node, rest.run), rest.failed)
  }

  /**
   * struct_def: `struct` name `{` fields `}`, a STRUCT_DEF at the keyword
   * with the name as left child and the fields chained from its right.
   */
  function StructDefinition(toks: seq<Token>, s: PState): (r: Parsed)
    requires Valid(toks) && s.index < |toks|
    ensures Moved(toks, s, r.s)
    ensures r.node == Nil ==> r.s.hasError
    ensures r.node != Nil ==> r.s.index > s.index && r.s.hasError == s.hasError && r.node.typ == StructDef
  {
    var t := toks[s.index];
    if t.typ != KwStruct then Parsed(SetErr(s, "expected 'struct'"), Nil)
    else
      var nm := ParseCore.Identifier(toks, Consume(toks, s));
      if nm.node == Nil then Parsed(nm.s, Nil)
      else if toks[nm.s.index].typ != BraceLeft then Parsed(SetErr(nm.s, "expected '{'"), Nil)
      else
        var fl := FieldLoop(toks, Consume(toks, nm.s));
        if fl.failed then Parsed(fl.run.s, Nil)
        else Parsed(Consume(toks, fl.run.s), Mk(StructDef, t.pos, nm.node, Link(fl.run.nodes)))
  }

  /** An attribute's `("text")`; without parentheses the text is empty. */
  function AttribArg(toks: seq<Token>, s: PState): (r: ArgRun)
    requires Valid(toks) && s.index < |toks|
    ensures Moved(toks, s, r.s)
    ensures !r.ok ==> r.s.hasError
    ensures r.ok ==> r.s.hasError == s.hasError && r.s.error == s.error
    ensures toks[s.index].typ != ParenLeft ==> r == ArgRun(s, true, [])
  {
    if toks[s.index].typ != ParenLeft then ArgRun(s, true, [])
    else
      var s1 := Consume(toks, s);
      var lit := toks[s1.index];
      if lit.typ != LitStrDouble then ArgRun(SetErr(s1, "expected string literal"), false, [])
      else
        var s2 := Consume(toks, s1);
        if toks[s2.index].typ != ParenRight then ArgRun(SetErr(s2, "expected ')'"), false, [])
        else ArgRun(Consume(toks, s2), true, lit.contents)
  }

  /** Attributes whose names were all recognised. */
  predicate Known(attrs: seq<SymAttr>)
  {
    forall i :: 0 <= i < |attrs| ==> attrs[i].kind != NoneKind
  }

  /** One attribute, `#` name [`("text")`]: the attribute, or ok false with the error set. */
  function Attrib(toks: seq<Token>, s: PState): (r: AttribRun)
    requires Valid(toks) && s.index < |toks| && toks[s.index].typ == Hash
    ensures Moved(toks, s, r.s) && r.s.index > s.index
    ensures !r.ok ==> r.s.hasError
    ensures r.ok ==> r.s.hasError == s.hasError && r.s.error == s.error && r.attr.kind != NoneKind
    ensures r.ok ==> r.attr.kind == GetAttribKind(toks[s.index + 1].contents)
  {
    var s1 := Consume(toks, s);
    var name := toks[s1.index];
    if name.typ != TokenType.Identifier then AttribRun(SetErr(s1, "expected attribute name"), false, NoAttr)
    else
      var arg := AttribArg(toks, Consume(toks, s1));
      var kind := GetAttribKind(name.contents);
      if !arg.ok then AttribRun(arg.s, false, NoAttr)
      else if kind == NoneKind then AttribRun(SetErr(arg.s, "unknown attribute '" + name.contents + "'"), false, NoAttr)
      else AttribRun(arg.s, true, SymAttr(kind, arg.text))
  }

  /**
   * The attribute loop of global_statement: attributes while the current
   * token is `#`, each appended to the list; the first failure ends it.
   */
  function AttribLoop(toks: seq<Token>, s: PState): (r: AttrRun)
    requires Valid(toks) && s.index < |toks|
    ensures Moved(toks, s, r.s)
    ensures !r.ok ==> r.s.hasError
    ensures r.ok ==> toks[r.s.index].typ != Hash && r.s.hasError == s.hasError && r.s.error == s.error
    ensures r.ok ==> Known(r.attrs)
    decreases |toks| - s.index
  {
    if toks[s.index].typ != Hash then AttrRun(s, true, [])
    else
      var a := Attrib(toks, s);
      if !a.ok then AttrRun(a.s, false, [])
      else
        WithAttr(a.attr, AttribLoop(toks, a.s))
  }

  /** An attribute put in front of those the rest of the loop read, unless the rest failed. */
  function WithAttr(attr: SymAttr, rest: AttrRun): (r: AttrRun)
    requires attr.kind != NoneKind && (rest.ok ==> Known(rest.attrs))
    ensures r.s == rest.s && r.ok == rest.ok && (r.ok ==> Known(r.attrs))
    ensures r.ok ==> r.attrs == [attr] + rest.attrs
  {
    AttrRun(rest.s, rest.ok, if rest.ok then [attr] + rest.attrs else [])
  }

  /** A definition carrying the attributes read before it. */
  function WithAttributes(def: Ast, attrs: seq<SymAttr>): (r: Ast)
    requires def.Node?
    ensures r.Node? && r.typ == def.typ && r.pos == def.pos && r.left == def.left && r.right == def.right
    ensures r.value.attributes == attrs && r.value.identifier == def.value.identifier
  {
    def.(value := def.value.(attributes := attrs))
  }

  /**
   * global_statement: attributes, then a function (wrapped in
   * GLOBAL_STATEMENT) or a struct (wrapped in a second STRUCT_DEF), each
   * wrapper at the definition's position with the attributes on the
   * definition.
   */
  function GlobalStmt(toks: seq<Token>, s: PState): (r: Parsed)
    requires Valid(toks) && s.index < |toks|
    ensures Advanced(toks, s, r.s)
    ensures r.node == Nil ==> r.s.hasError
    ensures r.node != Nil ==> r.s.index > s.index && (r.s.hasError ==> s.hasError) && r.node.right == Nil
    ensures r.node != Nil ==> r.node.typ in {GlobalStatement, StructDef}
  {
    var a := AttribLoop(toks, s);
    if !a.ok then Parsed(a.s, Nil)
    else
      var t := toks[a.s.index].typ;
      if t == KwFn then
        var d := FunctionDefinition(toks, a.s);
        if d.node == Nil then Parsed(SetErrIfNone(d.s, "expected function definition"), Nil)
        else Parsed(d.s, Mk(GlobalStatement, d.node.pos, WithAttributes(d.node, a.attrs), Nil))
      else if t == KwStruct then
        var d := StructDefinition(toks, a.s);
        if d.node == Nil then Parsed(SetErrIfNone(d.s, "expected struct definition"), Nil)
        else Parsed(d.s, Mk(StructDef, d.node.pos, WithAttributes(d.node, a.attrs), Nil))
      else Parsed(SetErrIfNone(a.s, "expected 'fn' or 'struct'"), Nil)
  }

  /**
   * The loop of gramina_parse after the first statement: global statements
   * until EOF or the first failure. `prev` is the cursor after the previous
   * statement; a statement that leaves the cursor there trips the
   * "infinite loop!" guard, which the contract shows never happens.
   */
  function GlobalLoop(toks: seq<Token>, s: PState, prev: int): (r: GlobalRun)
    requires Valid(toks) && s.index < |toks|
    ensures Advanced(toks, s, r.run.s)
    ensures Chainable(r.run.nodes)
    ensures r.run.nodes == [] ==> r.run.s == s || r.run.s.hasError
    ensures prev <= s.index ==> !r.guardFired
    ensures !r.run.s.hasError ==> toks[r.run.s.index].typ == Eof
    decreases |toks| - s.index
  {
    if toks[s.index].typ == Eof then GlobalRun(Run(s, []), false)
    else
      var st := GlobalStmt(toks, s);
      if st.node == Nil then GlobalRun(Run(st.s, []), false)
      else if prev == st.s.index then GlobalRun(Run(SetErr(st.s, "infinite loop!"), []), true)
      else
        var rest := GlobalLoop(toks, st.s, st.s.index);
        GlobalRun(Prepend(st.node, rest.run), rest.guardFired)
  }

  /** Every token's data fits its literal type, as the lexer produces them. */
  predicate InRange(toks: seq<Token>)
  {
    forall i :: 0 <= i < |toks| ==> DataInRange(toks[i])
  }

  /** The ", found '<token>'" suffix gramina_parse appends (float texts are not modelled and read as empty). */
  function Found(t: Token): seq<char>
    requires DataInRange(t)
  {
    ", found '" + TokenContents(t).GetOr([]) + "'"
  }

  /**
   * gramina_parse: a first global statement, then the loop; the outcome is
   * decided by Outcome.
   */
  function Parse(toks: seq<Token>): (r: ParseResult)
    requires Valid(toks) && InRange(toks)
    ensures r.Tree? ==> r.root.Node?
  {
    var first := GlobalStmt(toks, Start);
    Outcome(toks, first.node, GlobalLoop(toks, first.s, -1).run)
  }

  /**
   * The end of gramina_parse. Linking a statement after a failed first one
   * dereferences NULL. On error the tree is dropped and the message gains
   * the text of the token at the cursor, whose position is reported.
   */
  function Outcome(toks: seq<Token>, first: Ast, run: Run): (r: ParseResult)
    requires Valid(toks) && InRange(toks) && run.s.index < |toks| && Chainable(run.nodes)
    requires first == Nil && run.nodes == [] ==> run.s.hasError
    ensures r.Tree? ==> r.root.Node? && !run.s.hasError && !run.s.crashed
    ensures r.Tree? ==> first != Nil && r.root == Link([first] + run.nodes)
    ensures r.Failure? <==> run.s.hasError && !run.s.crashed && (first != Nil || run.nodes == [])
    ensures r.Failure? ==> r.pos == toks[run.s.index].pos
    ensures r.Failure? ==> r.message == run.s.error + Found(toks[run.s.index])
  {
    if run.s.crashed || (first == Nil && run.nodes != []) then Crash
    else if run.s.hasError then Failure(run.s.error + Found(toks[run.s.index]), toks[run.s.index].pos)
    else Tree(Link([first] + run.nodes))
  }
}

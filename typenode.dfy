/**
 * gramina_type_from_ast_node (src/compiler/type.c:71-239): the type a type
 * node of the syntax tree stands for. The rule reads the compiler state
 * (what names resolve to, the reflection stack and its depth) and writes
 * only its error; here the state it reads is a value and the error is
 * threaded through, in the order the source visits the nodes. LLVM type
 * handles are not modelled.
 */
module TypeNodes {
  import Wrappers
  import opened Token
  import opened Ast
  import opened Types
  import opened Scopes

  /** has_error and the CompileError the rule may set. */
  datatype TypeErr = TypeErr(hasError: bool, description: string, pos: Position)

  /**
   * What the rule reads from struct gramina_compiler_state: for each name
   * that resolve finds as an identifier of kind TYPE, that identifier's
   * type; the reflection stack; the current reflection depth.
   */
  datatype TypeEnv = TypeEnv(named: map<string, Type>, reflection: seq<Reflection>, reflectionDepth: nat)

  datatype Typed = Typed(typ: Type, err: TypeErr)
  datatype TypesRead = TypesRead(types: seq<Type>, err: TypeErr)
  datatype FieldsRead = FieldsRead(fields: seq<Field>, err: TypeErr)

  const OutOfContext: string := "illegal use of '$' out of context"

  /** The error is never cleared, and the only error the rule raises is the misplaced `$`. */
  predicate Extends(e: TypeErr, e': TypeErr)
  {
    (e.hasError ==> e'.hasError) && (e' != e ==> e'.hasError && e'.description == OutOfContext)
  }

  /** The number of nodes along a chain of right links. */
  function ChainLength(n: Ast): (k: nat)
    ensures n == Nil <==> k == 0
  {
    if n == Nil then 0 else 1 + ChainLength(n.right)
  }

  /** The field names of a struct's field table. */
  function Names(fields: seq<Field>): (r: seq<string>)
    ensures |r| == |fields|
    ensures forall i :: 0 <= i < |fields| ==> r[i] == fields[i].name
  {
    if fields == [] then [] else [fields[0].name] + Names(fields[1..])
  }

  predicate Distinct(names: seq<string>)
  {
    forall i, j :: 0 <= i < j < |names| ==> names[i] != names[j]
  }

  /**
   * gramina_type_from_ast_node. NULL is void; `$` is the innermost
   * reflected type when the current depth is deeper than the one it was
   * pushed at; an identifier is a built-in type, else the type it resolves
   * to, else INVALID; function types, pointers, slices and structs are
   * built from their parts; literal nodes give their primitive; any other
   * node (arrays among them) is INVALID.
   */
  function FromNode(env: TypeEnv, n: Ast, e: TypeErr): (r: Typed)
    ensures n == Nil ==> r == Typed(Void, e)
    ensures Extends(e, r.err)
    decreases n, 1
  {
    if n == Nil then Typed(Void, e)
    else match n.typ
      case Reflect => ReflectedType(env, n.pos, e)
      case Identifier => Typed(NamedType(env, n.value.identifier), e)
      case FunctionType =>
        var ret := FromNode(env, n.right, e);
        var ps := ParamTypes(env, n.left, ret.err);
        Typed(FunctionOf(ret.typ, ps.types), ps.err)
      case TypePointer =>
        var t := FromNode(env, n.left, e);
        Typed(PointerTo(t.typ), t.err)
      case TypeSlice =>
        var t := FromNode(env, n.left, e);
        Typed(SliceOf(t.typ), t.err)
      case StructDef =>
        var fs := FieldTypes(env, n.right, [], e);
        Typed(StructOf(if n.left.Node? then n.left.value.identifier else [], fs.fields), fs.err)
      case ValBool => Typed(Prim(Bool), e)
      case ValChar => Typed(Prim(UByte), e)
      case ValF32 => Typed(Prim(Float), e)
      case ValF64 => Typed(Prim(Double), e)
      case ValI32 => Typed(Prim(Int), e)
      case ValU32 => Typed(Prim(UInt), e)
      case ValI64 => Typed(Prim(Long), e)
      case ValU64 => Typed(Prim(ULong), e)
      case _ => Typed(Invalid, e)
  }

  /**
   * The `$` case: with no reflection the error is set unless one is set
   * already; with one, the innermost reflection's type when the current
   * depth is deeper than its own, else the error is set (overwriting any
   * earlier one).
   */
  function ReflectedType(env: TypeEnv, pos: Position, e: TypeErr): (r: Typed)
    ensures Extends(e, r.err)
    ensures |env.reflection| == 0 ==> r.typ == Invalid && r.err == (if e.hasError then e else TypeErr(true, OutOfContext, pos))
    ensures |env.reflection| > 0 ==>
              var last := env.reflection[|env.reflection| - 1];
              if env.reflectionDepth > last.depth then r == Typed(last.typ, e)
              else r == Typed(Invalid, TypeErr(true, OutOfContext, pos))
  {
    if |env.reflection| == 0 then
      if e.hasError then Typed(Invalid, e) else Typed(Invalid, TypeErr(true, OutOfContext, pos))
    else
      var last := env.reflection[|env.reflection| - 1];
      if env.reflectionDepth > last.depth then Typed(last.typ, e)
      else Typed(Invalid, TypeErr(true, OutOfContext, pos))
  }

  /** The identifier case: built-in names first, then what the name resolves to as a type. */
  function NamedType(env: TypeEnv, name: string): (t: Type)
    ensures BuiltinType(name) != Invalid ==> t == BuiltinType(name)
    ensures BuiltinType(name) == Invalid ==> t == (if name in env.named then env.named[name] else Invalid)
  {
    var builtin := BuiltinType(name);
    if builtin != Invalid then builtin
    else if name in env.named then env.named[name]
    else Invalid
  }

  /**
   * The parameter loop of the FUNCTION_TYPE case: along the right links,
   * a PARAM_LIST contributes the type of its parameter, any other node the
   * type below it.
   */
  function ParamTypes(env: TypeEnv, n: Ast, e: TypeErr): (r: TypesRead)
    ensures |r.types| == ChainLength(n)
    ensures Extends(e, r.err)
    decreases n, 0
  {
    if n == Nil then TypesRead([], e)
    else
      var t := if n.typ == ParamList then (if n.left.Node? then FromNode(env, n.left.left, e) else Typed(Void, e))
               else FromNode(env, n.left, e);
      var rest := ParamTypes(env, n.right, t.err);
      TypesRead([t.typ] + rest.types, rest.err)
  }

  /**
   * The field loop of the STRUCT_DEF case: along the right links, each
   * STRUCT_FIELD's name with the type below it goes into the field table
   * through the corrected Put, where a repeated name replaces the earlier
   * entry's type. The C's hashmap_set instead leaves that entry unnamed
   * (PutAsWritten, RepeatedFieldLosesName).
   */
  function FieldTypes(env: TypeEnv, n: Ast, acc: seq<Field>, e: TypeErr): (r: FieldsRead)
    requires Distinct(Names(acc))
    ensures Distinct(Names(r.fields))
    ensures Extends(e, r.err)
    decreases n, 0
  {
    if n == Nil then FieldsRead(acc, e)
    else
      var name := if n.left.Node? then n.left.value.identifier else [];
      var t := if n.left.Node? then FromNode(env, n.left.left, e) else Typed(Void, e);
      FieldTypes(env, n.right, Put(acc, name, t.typ), t.err)
  }

  /**
   * The corrected hashmap_set on the field table: a repeated name keeps its
   * name and takes the new type in place, a new one is added.
   */
  function Put(fields: seq<Field>, name: string, t: Type): (r: seq<Field>)
    requires Distinct(Names(fields))
    ensures Distinct(Names(r))
    ensures forall k :: k in Names(r) <==> k == name || k in Names(fields)
  {
    if fields == [] then [Field(name, t)]
    else
      var tail := Names(fields[1..]);
      assert Names(fields) == [fields[0].name] + tail;
      if fields[0].name == name then
        var r := [Field(name, t)] + fields[1..];
        assert Names(r) == [name] + tail;
        Consed(name, tail);
        r
      else
        var rest := Put(fields[1..], name, t);
        Consed(fields[0].name, Names(rest));
        assert Names([fields[0]] + rest) == [fields[0].name] + Names(rest);
        [fields[0]] + rest
  }

  /** Distinct names in front of which a new one is put stay distinct; the tail of distinct names is distinct. */
  lemma Consed(x: string, ys: seq<string>)
    ensures Distinct([x] + ys) <==> x !in ys && Distinct(ys)
  {
    var xs := [x] + ys;
    assert forall i :: 0 <= i < |ys| ==> ys[i] == xs[i + 1];
    if x in ys {
      var k :| 0 <= k < |ys| && ys[k] == x;
      assert xs[0] == xs[k + 1];
    }
  }

  /** After Put the name finds the new type, and every other name what it found before. */
  lemma {:induction false} PutLookup(fields: seq<Field>, name: string, t: Type, other: string)
    requires Distinct(Names(fields))
    ensures LookupField(Put(fields, name, t), other) == if other == name then Wrappers.Some(t) else LookupField(fields, other)
  {
    if fields != [] && fields[0].name != name {
      Consed(fields[0].name, Names(fields[1..]));
      assert Names(fields) == [fields[0].name] + Names(fields[1..]);
      PutLookup(fields[1..], name, t, other);
    }
  }

  /**
   * hashmap_set on the field table as written: a repeated name frees the
   * matched entry's key, which is left empty, and the entry takes the new type.
   */
  function PutAsWritten(fields: seq<Field>, name: string, t: Type): (r: seq<Field>)
    ensures |r| == if name in Names(fields) then |fields| else |fields| + 1
    ensures name !in Names(fields) ==> r == fields + [Field(name, t)]
  {
    if fields == [] then [Field(name, t)]
    else
      assert Names(fields) == [fields[0].name] + Names(fields[1..]);
      if fields[0].name == name then [Field([], t)] + fields[1..]
      else [fields[0]] + PutAsWritten(fields[1..], name, t)
  }

  /** As written, putting a name the table already holds leaves no entry under that name. */
  lemma {:induction false} MatchedNameLost(fields: seq<Field>, name: string, t: Type)
    requires Distinct(Names(fields)) && name != [] && name in Names(fields)
    ensures LookupField(PutAsWritten(fields, name, t), name) == Wrappers.None
  {
    assert Names(fields) == [fields[0].name] + Names(fields[1..]);
    Consed(fields[0].name, Names(fields[1..]));
    if fields[0].name != name {
      MatchedNameLost(fields[1..], name, t);
    }
  }

  /**
   * `struct S { int a; byte a; long a; }`: as written the table ends with an
   * unnamed byte field and a long `a`; the corrected table holds `a: long` only.
   */
  lemma RepeatedFieldLosesName()
    ensures PutAsWritten(PutAsWritten(PutAsWritten([], "a", Prim(Int)), "a", Prim(Byte)), "a", Prim(Long)) ==
            [Field("", Prim(Byte)), Field("a", Prim(Long))]
    ensures Put(Put(Put([], "a", Prim(Int)), "a", Prim(Byte)), "a", Prim(Long)) == [Field("a", Prim(Long))]
  {
    var w := PutAsWritten(PutAsWritten([], "a", Prim(Int)), "a", Prim(Byte));
    assert w == [Field("", Prim(Byte))];
    assert Names(w) == [""];
  }

  /** No `$` anywhere in the tree. */
  predicate NoReflect(n: Ast)
  {
    n == Nil || (n.typ != Reflect && NoReflect(n.left) && NoReflect(n.right))
  }

  /** A type written without `$` leaves the error as it was, set or not. */
  lemma {:induction false} NoReflectKeepsError(env: TypeEnv, n: Ast, e: TypeErr)
    requires NoReflect(n)
    ensures FromNode(env, n, e).err == e
    decreases n, 1
  {
    if n != Nil {
      match n.typ
      case FunctionType =>
        NoReflectKeepsError(env, n.right, e);
        ParamsKeepError(env, n.left, e);
      case TypePointer => NoReflectKeepsError(env, n.left, e);
      case TypeSlice => NoReflectKeepsError(env, n.left, e);
      case StructDef => FieldsKeepError(env, n.right, [], e);
      case _ =>
    }
  }

  lemma {:induction false} ParamsKeepError(env: TypeEnv, n: Ast, e: TypeErr)
    requires NoReflect(n)
    ensures ParamTypes(env, n, e).err == e
    decreases n, 0
  {
    if n != Nil {
      if n.typ == ParamList {
        if n.left.Node? {
          NoReflectKeepsError(env, n.left.left, e);
        }
      } else {
        NoReflectKeepsError(env, n.left, e);
      }
      ParamsKeepError(env, n.right, e);
    }
  }

  lemma {:induction false} FieldsKeepError(env: TypeEnv, n: Ast, acc: seq<Field>, e: TypeErr)
    requires NoReflect(n) && Distinct(Names(acc))
    ensures FieldTypes(env, n, acc, e).err == e
    decreases n, 0
  {
    if n != Nil {
      var name := if n.left.Node? then n.left.value.identifier else [];
      var t := if n.left.Node? then FromNode(env, n.left.left, e) else Typed(Void, e);
      if n.left.Node? {
        NoReflectKeepsError(env, n.left.left, e);
      }
      FieldsKeepError(env, n.right, Put(acc, name, t.typ), e);
    }
  }
}

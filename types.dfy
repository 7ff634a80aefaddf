/**
 * The compiler's type representation and the pure rules on it
 * (src/compiler/type.c, include/compiler/typedecl.h). LLVM type handles are
 * not modelled; struct field tables are sequences looked up first-match,
 * as a hash map lookup on distinct keys behaves.
 */
module Types {
  import opened Wrappers

  /** The primitive types, in the order of their C enumeration. */
  datatype Primitive = Bool | Byte | UByte | Short | UShort | Int | UInt | Long | ULong | Float | Double

  /** Position of a primitive in the C enumeration; the rules compare it. */
  function Ord(p: Primitive): (n: nat)
    ensures n <= 10
  {
    match p
    case Bool => 0
    case Byte => 1
    case UByte => 2
    case Short => 3
    case UShort => 4
    case Int => 5
    case UInt => 6
    case Long => 7
    case ULong => 8
    case Float => 9
    case Double => 10
  }

  lemma OrdInjective(p: Primitive, q: Primitive)
    ensures Ord(p) == Ord(q) <==> p == q
  {
  }

  datatype Field = Field(name: string, typ: Type)

  datatype Type =
    | Invalid
    | Void
    | Prim(prim: Primitive)
    | ArrayOf(elem: Type, len: nat)
    | SliceOf(elem: Type)
    | PointerTo(elem: Type)
    | FunctionOf(ret: Type, params: seq<Type>)
    | StructOf(name: string, fields: seq<Field>)
    | Generic(typeParams: seq<string>)
    | GenericParam(paramName: string)

  function BoolType(): Type { Prim(Bool) }

  /** Field lookup in a struct's field table: the first entry with that name. */
  function LookupField(fields: seq<Field>, name: string): (r: Option<Type>)
    ensures r.Some? <==> exists i :: 0 <= i < |fields| && fields[i].name == name
    ensures r.Some? ==> exists i :: 0 <= i < |fields| && fields[i].name == name && fields[i].typ == r.value
  {
    if |fields| == 0 then None
    else if fields[0].name == name then Some(fields[0].typ)
    else LookupField(fields[1..], name)
  }

  /** builtin_type: the names of the built-in types. */
  function BuiltinType(name: string): (t: Type)
  {
    if name == "void" then Void
    else if name == "bool" then Prim(Bool)
    else if name == "byte" then Prim(Byte)
    else if name == "ubyte" then Prim(UByte)
    else if name == "short" then Prim(Short)
    else if name == "ushort" then Prim(UShort)
    else if name == "int" then Prim(Int)
    else if name == "uint" then Prim(UInt)
    else if name == "long" then Prim(Long)
    else if name == "ulong" then Prim(ULong)
    else if name == "float" then Prim(Float)
    else if name == "double" then Prim(Double)
    else Invalid
  }

  function PrimitiveName(p: Primitive): string
  {
    match p
    case Bool => "bool"
    case Byte => "byte"
    case UByte => "ubyte"
    case Short => "short"
    case UShort => "ushort"
    case Int => "int"
    case UInt => "uint"
    case Long => "long"
    case ULong => "ulong"
    case Float => "float"
    case Double => "double"
  }

  /** type_to_str. */
  function TypeToStr(t: Type): string
  {
    match t
    case Void => "void"
    case Prim(p) => PrimitiveName(p)
    case PointerTo(e) => TypeToStr(e) + "&"
    case StructOf(name, _) => name
    case SliceOf(e) => TypeToStr(e) + "[]"
    case _ => "<err-type>"
  }

  /** A type that a built-in name can denote. */
  predicate IsBuiltin(t: Type)
  {
    t.Void? || t.Prim?
  }

  /** Rendering a built-in type and reading the name back gives the type again. */
  lemma BuiltinNameRoundTrip(t: Type)
    requires IsBuiltin(t)
    ensures BuiltinType(TypeToStr(t)) == t
  {
  }

  /** Conversely, a name that builtin_type accepts is the rendering of its type. */
  lemma BuiltinTypeRendersBack(name: string)
    ensures BuiltinType(name) != Invalid ==> TypeToStr(BuiltinType(name)) == name
    ensures BuiltinType(name) == Invalid <==>
      name !in {"void", "bool", "byte", "ubyte", "short", "ushort", "int", "uint", "long", "ulong", "float", "double"}
  {
  }

  /** Pointer and slice renderings are the element rendering plus a suffix. */
  lemma PointerAndSliceRendering(t: Type)
    ensures TypeToStr(PointerTo(t)) == TypeToStr(t) + "&"
    ensures TypeToStr(SliceOf(t)) == TypeToStr(t) + "[]"
    ensures TypeToStr(PointerTo(PointerTo(t)))[..|TypeToStr(t)|] == TypeToStr(t)
  {
  }

  /** primitive_is_unsigned. */
  predicate IsUnsigned(p: Primitive)
  {
    p in {Bool, UByte, UShort, UInt, ULong}
  }

  /** primitive_is_integral. */
  predicate IsIntegral(p: Primitive)
  {
    p != Float && p != Double
  }

  lemma SignednessTable(p: Primitive)
    ensures IsUnsigned(p) <==> p == Bool || p == UByte || p == UShort || p == UInt || p == ULong
    ensures !IsIntegral(p) <==> p == Float || p == Double
    ensures IsUnsigned(p) ==> IsIntegral(p)
  {
  }

  /** primitive_can_convert: equal, or same signedness and later in the enumeration. */
  predicate PrimCanConvert(a: Primitive, b: Primitive)
  {
    if a == b then true
    else if IsUnsigned(a) == IsUnsigned(b) then Ord(b) > Ord(a)
    else false
  }

  /** Implicit primitive conversion is a partial order. */
  lemma PrimCanConvertIsPartialOrder(a: Primitive, b: Primitive, c: Primitive)
    ensures PrimCanConvert(a, a)
    ensures PrimCanConvert(a, b) && PrimCanConvert(b, a) ==> a == b
    ensures PrimCanConvert(a, b) && PrimCanConvert(b, c) ==> PrimCanConvert(a, c)
  {
  }

  /** Signed integers widen to the floats, unsigned ones do not; floats never narrow to integers. */
  lemma IntToFloatRule(a: Primitive, f: Primitive)
    requires IsIntegral(a) && !IsIntegral(f)
    ensures PrimCanConvert(a, f) <==> !IsUnsigned(a)
    ensures !PrimCanConvert(f, a)
  {
  }

  /** Only bool itself converts to bool. */
  lemma OnlyBoolConvertsToBool(a: Primitive)
    ensures PrimCanConvert(a, Bool) <==> a == Bool
  {
  }

  /** type_is_same: kinds must match; invalid, array, function and generic types are never same. */
  predicate TypeIsSame(a: Type, b: Type)
    decreases a
  {
    match a
    case Invalid => false
    case Void => b.Void?
    case Prim(p) => b.Prim? && b.prim == p
    case PointerTo(e) => b.PointerTo? && TypeIsSame(e, b.elem)
    case SliceOf(e) => b.SliceOf? && TypeIsSame(e, b.elem)
    case StructOf(n, fs) =>
      b.StructOf? && n == b.name &&
      forall f | f in fs :: FieldMatches(f, b.fields) && TypeIsSame(f.typ, LookupField(b.fields, f.name).value)
    case _ => false
  }

  predicate FieldMatches(f: Field, fields: seq<Field>)
  {
    LookupField(fields, f.name).Some?
  }

  /** Types built only from kinds type_is_same can relate, with distinct struct field names. */
  predicate Comparable(t: Type)
    decreases t
  {
    match t
    case Void => true
    case Prim(_) => true
    case PointerTo(e) => Comparable(e)
    case SliceOf(e) => Comparable(e)
    case StructOf(_, fs) =>
      (forall i, j | 0 <= i < j < |fs| :: fs[i].name != fs[j].name) &&
      forall f | f in fs :: Comparable(f.typ)
    case _ => false
  }

  lemma LookupDistinct(fs: seq<Field>, i: nat)
    requires i < |fs|
    requires forall a, b | 0 <= a < b < |fs| :: fs[a].name != fs[b].name
    ensures LookupField(fs, fs[i].name) == Some(fs[i].typ)
  {
    if i > 0 {
      assert fs[0].name != fs[i].name;
      LookupDistinct(fs[1..], i - 1);
    }
  }

  /** type_is_same is reflexive on the comparable types. */
  lemma {:induction false} TypeIsSameReflexive(t: Type)
    requires Comparable(t)
    ensures TypeIsSame(t, t)
    decreases t
  {
    match t
    case Void =>
    case Prim(_) =>
    case PointerTo(e) => TypeIsSameReflexive(e);
    case SliceOf(e) => TypeIsSameReflexive(e);
    case StructOf(n, fs) =>
      forall f | f in fs
        ensures FieldMatches(f, fs) && TypeIsSame(f.typ, LookupField(fs, f.name).value)
      {
        var i :| 0 <= i < |fs| && fs[i] == f;
        LookupDistinct(fs, i);
        TypeIsSameReflexive(f.typ);
      }
  }

  /** Invalid, array, function and generic types are not the same as anything, themselves included. */
  lemma NeverSameKinds(a: Type, b: Type)
    requires a.Invalid? || a.ArrayOf? || a.FunctionOf? || a.Generic? || a.GenericParam?
    ensures !TypeIsSame(a, b) && !TypeIsSame(b, a)
  {
  }

  /** Sameness implies equal kinds. */
  lemma SameImpliesSameKind(a: Type, b: Type)
    requires TypeIsSame(a, b)
    ensures a.Void? == b.Void? && a.Prim? == b.Prim? && a.PointerTo? == b.PointerTo?
    ensures a.SliceOf? == b.SliceOf? && a.StructOf? == b.StructOf?
    ensures a.Prim? ==> a == b
  {
  }

  /** Struct comparison only looks at the fields of the left struct. */
  lemma StructSameIsOneDirectional()
    ensures var a := StructOf("S", [Field("x", Prim(Int))]);
            var b := StructOf("S", [Field("x", Prim(Int)), Field("y", Prim(Long))]);
            TypeIsSame(a, b) && !TypeIsSame(b, a)
  {
    var a := StructOf("S", [Field("x", Prim(Int))]);
    var b := StructOf("S", [Field("x", Prim(Int)), Field("y", Prim(Long))]);
    assert Field("y", Prim(Long)) in b.fields;
    assert LookupField(a.fields, "y") == None;
    assert forall f | f in a.fields :: f == Field("x", Prim(Int));
  }

  /** type_can_convert. */
  predicate TypeCanConvert(from: Type, to: Type)
  {
    if TypeIsSame(from, to) then true
    else if from.Prim? && to.Prim? then PrimCanConvert(from.prim, to.prim)
    else false
  }

  lemma TypeCanConvertRule(from: Type, to: Type)
    ensures TypeCanConvert(from, to) <==>
      TypeIsSame(from, to) || (from.Prim? && to.Prim? && PrimCanConvert(from.prim, to.prim))
    ensures from.Prim? && to.Prim? ==> (TypeCanConvert(from, to) <==> PrimCanConvert(from.prim, to.prim))
  {
  }

  /** The outcome of primitive_coercion. */
  datatype Coercion = Coercion(greater: Type, isRightPromoted: bool)

  /** primitive_coercion: both sides primitive with equal signedness, else invalid. */
  function PrimitiveCoercion(p: Type, q: Type): (c: Coercion)
    ensures c.greater != Invalid <==> p.Prim? && q.Prim? && IsUnsigned(p.prim) == IsUnsigned(q.prim)
    ensures c.greater == Invalid ==> !c.isRightPromoted
    ensures c.greater != Invalid ==>
      c.greater.Prim? &&
      PrimCanConvert(p.prim, c.greater.prim) && PrimCanConvert(q.prim, c.greater.prim) &&
      (c.greater == p || c.greater == q) &&
      (c.isRightPromoted <==> Ord(p.prim) > Ord(q.prim))
  {
    if !p.Prim? || !q.Prim? || IsUnsigned(p.prim) != IsUnsigned(q.prim) then
      Coercion(Invalid, false)
    else
      var bigger := if Ord(p.prim) > Ord(q.prim) then p else q;
      Coercion(bigger, Ord(p.prim) > Ord(q.prim))
  }

  /** The coerced type is the least common target of both sides. */
  lemma CoercionIsLeastUpperBound(p: Primitive, q: Primitive, r: Primitive)
    requires IsUnsigned(p) == IsUnsigned(q)
    requires PrimCanConvert(p, r) && PrimCanConvert(q, r)
    ensures PrimCanConvert(PrimitiveCoercion(Prim(p), Prim(q)).greater.prim, r)
  {
  }

  /** Swapping the operands keeps the coerced type. */
  lemma CoercionSymmetric(p: Type, q: Type)
    ensures PrimitiveCoercion(p, q).greater == PrimitiveCoercion(q, p).greater
  {
    if p.Prim? && q.Prim? && IsUnsigned(p.prim) == IsUnsigned(q.prim) && Ord(p.prim) == Ord(q.prim) {
      OrdInjective(p.prim, q.prim);
    }
  }
}

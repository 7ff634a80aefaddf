/**
 * Conversions between values (src/compiler/conversions.c): which LLVM cast
 * a primitive conversion emits, in-place conversion, the implicit coercion
 * of the two operands of a binary operator, and explicit casts.
 */
module Conversions {
  import opened Types
  import opened Values
  import opened Mem
  import opened Wrappers

  /** Bit width of each primitive's LLVM type (i1, i8, i16, i32, i64, float, double). */
  function Width(p: Primitive): nat
  {
    match p
    case Bool => 1
    case Byte => 8
    case UByte => 8
    case Short => 16
    case UShort => 16
    case Int => 32
    case UInt => 32
    case Long => 64
    case ULong => 64
    case Float => 32
    case Double => 64
  }

  /**
   * The cast primitive_convert chooses between two different primitives, as
   * written: integer truncation versus extension is decided by enumeration
   * order, not by width.
   */
  function CastKindAsWritten(from: Primitive, to: Primitive): CastOp
    requires from != to
  {
    if IsIntegral(from) && IsIntegral(to) then
      if Ord(from) > Ord(to) then Trunc
      else if IsUnsigned(from) then ZExt else SExt
    else if !IsIntegral(from) && !IsIntegral(to) then
      if Ord(from) < Ord(to) then FPExt else FPTrunc
    else if IsIntegral(from) then
      if IsUnsigned(from) then UIToFP else SIToFP
    else
      if IsUnsigned(to) then FPToUI else FPToSI
  }

  /** The decision table of the as-written choice. */
  lemma CastKindAsWrittenTable(from: Primitive, to: Primitive)
    requires from != to
    ensures CastKindAsWritten(from, to) == Trunc <==> IsIntegral(from) && IsIntegral(to) && Ord(from) > Ord(to)
    ensures CastKindAsWritten(from, to) == ZExt <==> IsIntegral(to) && IsUnsigned(from) && Ord(from) < Ord(to)
    ensures CastKindAsWritten(from, to) == SExt <==> IsIntegral(from) && IsIntegral(to) && !IsUnsigned(from) && Ord(from) < Ord(to)
    ensures CastKindAsWritten(from, to) == FPExt <==> from == Float && to == Double
    ensures CastKindAsWritten(from, to) == FPTrunc <==> from == Double && to == Float
    ensures CastKindAsWritten(from, to) == UIToFP <==> IsUnsigned(from) && !IsIntegral(to)
    ensures CastKindAsWritten(from, to) == SIToFP <==> IsIntegral(from) && !IsUnsigned(from) && !IsIntegral(to)
    ensures CastKindAsWritten(from, to) == FPToUI <==> !IsIntegral(from) && IsUnsigned(to)
    ensures CastKindAsWritten(from, to) == FPToSI <==> !IsIntegral(from) && IsIntegral(to) && !IsUnsigned(to)
  {
  }

  /**
   * Between the equal-width signed/unsigned pairs the as-written choice names
   * an extension or truncation that changes no width. LLVM's IRBuilder folds
   * such a cast away (CreateCast returns its operand when the types are
   * equal), so the IR is that of CastKind's None.
   */
  lemma SameWidthCastIsNotAWidthChange()
    ensures CastKindAsWritten(Int, UInt) == SExt && Width(Int) == Width(UInt)
    ensures CastKindAsWritten(UInt, Int) == Trunc && Width(UInt) == Width(Int)
    ensures CastKindAsWritten(Byte, UByte) == SExt && CastKindAsWritten(ULong, Long) == Trunc
  {
  }

  /** LLVM's rule for the width of each cast. */
  predicate WidthRespected(op: CastOp, from: Primitive, to: Primitive)
  {
    match op
    case Trunc => Width(from) > Width(to)
    case ZExt => Width(from) < Width(to)
    case SExt => Width(from) < Width(to)
    case FPExt => Width(from) < Width(to)
    case FPTrunc => Width(from) > Width(to)
    case _ => true
  }

  /**
   * The cast a primitive conversion evidently intends: as written, except
   * that between integers of equal width no instruction is needed (None).
   */
  function CastKind(from: Primitive, to: Primitive): (r: Option<CastOp>)
    requires from != to
    ensures r.Some? ==> WidthRespected(r.value, from, to)
    ensures r.None? <==> IsIntegral(from) && IsIntegral(to) && Width(from) == Width(to)
  {
    if IsIntegral(from) && IsIntegral(to) && Width(from) == Width(to) then None
    else if IsIntegral(from) && IsIntegral(to) && Width(from) > Width(to) then Some(Trunc)
    else Some(CastKindAsWritten(from, to))
  }

  /** Implicit conversions never reach the corrected case: there the two choices agree and only widen. */
  lemma ImplicitConversionsWiden(from: Primitive, to: Primitive)
    requires from != to && PrimCanConvert(from, to)
    ensures CastKind(from, to) == Some(CastKindAsWritten(from, to))
    ensures CastKindAsWritten(from, to) in {ZExt, SExt, FPExt, SIToFP}
  {
  }

  /** primitive_convert: a value of the target type; CONSTEXPR stays CONSTEXPR, anything else becomes RVALUE. */
  function PrimitiveConvert(v: Value, to: Type): (r: Value)
    requires v.typ.Prim? && to.Prim?
    ensures v.typ.prim == to.prim ==> r == v
    ensures v.typ.prim != to.prim ==>
      r.typ == to && r.lvaluePtr == Null &&
      (r.cls == Constexpr <==> v.cls == Constexpr) && (r.cls != Constexpr ==> r.cls == Rvalue)
    ensures v.typ.prim != to.prim && CastKind(v.typ.prim, to.prim).Some? ==>
      r.llvm == Cast(CastKind(v.typ.prim, to.prim).value, v.llvm, to)
  {
    if v.typ.prim == to.prim then v
    else
      var cls := if v.cls == Constexpr then Constexpr else Rvalue;
      match CastKind(v.typ.prim, to.prim)
      case None => Value(cls, v.llvm, to, Null)
      case Some(op) => Value(cls, Cast(op, v.llvm, to), to, Null)
  }

  /** primitive_convert as written: every conversion between different primitives emits CastKindAsWritten. */
  function PrimitiveConvertAsWritten(v: Value, to: Type): (r: Value)
    requires v.typ.Prim? && to.Prim?
    ensures v.typ.prim == to.prim ==> r == v
    ensures v.typ.prim != to.prim ==>
      r.typ == to && r.lvaluePtr == Null && r.llvm == Cast(CastKindAsWritten(v.typ.prim, to.prim), v.llvm, to) &&
      (r.cls == Constexpr <==> v.cls == Constexpr) && (r.cls != Constexpr ==> r.cls == Rvalue)
  {
    if v.typ.prim == to.prim then v
    else
      var cls := if v.cls == Constexpr then Constexpr else Rvalue;
      Value(cls, Cast(CastKindAsWritten(v.typ.prim, to.prim), v.llvm, to), to, Null)
  }

  /**
   * The two conversions differ only between distinct integers of equal
   * width, where the as-written one emits an extension or truncation that
   * keeps the width and the corrected one reuses the value.
   */
  lemma ConvertCorrection(v: Value, to: Type)
    requires v.typ.Prim? && to.Prim?
    ensures var a, b := v.typ.prim, to.prim;
            PrimitiveConvertAsWritten(v, to) != PrimitiveConvert(v, to) <==>
              a != b && IsIntegral(a) && IsIntegral(b) && Width(a) == Width(b)
    ensures var a, b := v.typ.prim, to.prim;
            a != b && IsIntegral(a) && IsIntegral(b) && Width(a) == Width(b) ==>
              !WidthRespected(CastKindAsWritten(a, b), a, b) && PrimitiveConvert(v, to).llvm == v.llvm
  {
    var a, b := v.typ.prim, to.prim;
    if a != b && IsIntegral(a) && IsIntegral(b) && Width(a) == Width(b) {
      CastIsNew(CastKindAsWritten(a, b), v.llvm, to);
    }
  }

  /** A cast is a new LLVM value, never the one it casts. */
  lemma {:induction false} CastIsNew(op: CastOp, h: Handle, t: Type)
    ensures Cast(op, h, t) != h
  {
    if h.Cast? {
      CastIsNew(op, h.arg, t);
    }
  }

  /** The value convert_inplace leaves behind. */
  function Converted(v: Value, to: Type): (r: Value)
    ensures TypeIsSame(v.typ, to) ==> r == v
    ensures !TypeIsSame(v.typ, to) && !(v.typ.Prim? && to.Prim?) ==> r == InvalidValue()
    ensures !TypeIsSame(v.typ, to) && v.typ.Prim? && to.Prim? ==> r.typ == to
  {
    if TypeIsSame(v.typ, to) then v
    else if v.typ.Prim? && to.Prim? then PrimitiveConvert(v, to)
    else InvalidValue()
  }

  /** convert_inplace: true when the slot now holds a value of the target type. */
  method ConvertInplace(slot: ValueSlot, to: Type) returns (ok: bool)
    modifies slot
    ensures slot.v == Converted(old(slot.v), to)
    ensures ok <==> TypeIsSame(old(slot.v).typ, to) || (old(slot.v).typ.Prim? && to.Prim?)
    ensures ok ==> TypeIsSame(slot.v.typ, to) || slot.v.typ == to
  {
    if TypeIsSame(slot.v.typ, to) {
      return true;
    }
    if slot.v.typ.Prim? && to.Prim? {
      slot.v := PrimitiveConvert(slot.v, to);
      return true;
    }
    slot.v := InvalidValue();
    return false;
  }

  /** convert: a primitive conversion, or invalid. */
  function Convert(v: Value, to: Type): (r: Value)
    ensures v.typ.Prim? && to.Prim? ==> r.typ == to
    ensures !(v.typ.Prim? && to.Prim?) ==> r == InvalidValue()
  {
    if v.typ.Prim? && to.Prim? then PrimitiveConvert(v, to) else InvalidValue()
  }

  /** What coerce_primitives produces. */
  datatype Coerced = Coerced(coercion: Coercion, lhs: Value, rhs: Value, diag: Diag)

  /**
   * The operands of a binary operator after coercion: both loaded, and the
   * smaller one converted to the greater type.
   */
  function Coerce(d: Diag, left: Value, right: Value): (r: Coerced)
    ensures r.coercion == PrimitiveCoercion(left.typ, right.typ)
    ensures r.coercion.greater.Invalid? ==>
      r.lhs == InvalidValue() && r.rhs == InvalidValue() && r.diag == ErrImplicitConv(d, left.typ, right.typ)
    ensures !r.coercion.greater.Invalid? ==>
      r.diag == d && r.lhs.typ == r.coercion.greater && r.rhs.typ == r.coercion.greater
    ensures !r.coercion.greater.Invalid? && !r.coercion.isRightPromoted ==> r.lhs.typ == r.rhs.typ && r.rhs == TryLoad(right)
    ensures !r.coercion.greater.Invalid? && r.coercion.isRightPromoted ==> r.lhs == TryLoad(left)
  {
    var c := PrimitiveCoercion(left.typ, right.typ);
    if c.greater.Invalid? then
      Coerced(c, InvalidValue(), InvalidValue(), ErrImplicitConv(d, left.typ, right.typ))
    else
      var l := TryLoad(left);
      var r := TryLoad(right);
      if left.typ.prim == right.typ.prim then Coerced(c, l, r, d)
      else if c.isRightPromoted then Coerced(c, l, Converted(r, c.greater), d)
      else Coerced(c, Converted(l, c.greater), r, d)
  }

  /** coerce_primitives, writing both outputs through value slots as the C does through pointers. */
  method CoercePrimitives(d: Diag, left: Value, right: Value) returns (c: Coercion, lhs: Value, rhs: Value, d2: Diag)
    ensures Coerced(c, lhs, rhs, d2) == Coerce(d, left, right)
  {
    c := PrimitiveCoercion(left.typ, right.typ);
    if c.greater.Invalid? {
      d2 := ErrImplicitConv(d, left.typ, right.typ);
      lhs, rhs := InvalidValue(), InvalidValue();
      return;
    }
    d2 := d;
    var ls := new ValueSlot(TryLoad(left));
    var rs := new ValueSlot(TryLoad(right));
    if left.typ.prim == right.typ.prim {
    } else if c.isRightPromoted {
      var _ := ConvertInplace(rs, c.greater);
    } else {
      var _ := ConvertInplace(ls, c.greater);
    }
    lhs, rhs := ls.v, rs.v;
  }

  /** pointer_to_int: the loaded pointer as a `ulong` RVALUE. */
  function PointerToInt(p: Value): (r: Value)
    ensures r.typ == Prim(ULong) && r.cls == Rvalue
    ensures r.llvm == Cast(PtrToInt, TryLoad(p).llvm, Prim(ULong))
  {
    Value(Rvalue, Cast(PtrToInt, TryLoad(p).llvm, Prim(ULong)), Prim(ULong), Null)
  }

  /** cast: an explicit conversion `v as to`. */
  function ExplicitCast(d: Diag, v: Value, to: Type): (r: Out)
    ensures TypeIsSame(v.typ, to) ==> r == Out(TryLoad(v), d)
    ensures !TypeIsSame(v.typ, to) && v.typ.Prim? && to.Prim? ==> r == Out(PrimitiveConvert(TryLoad(v), to), d)
    ensures !TypeIsSame(v.typ, to) && v.typ.Prim? && to.PointerTo? ==>
      if IsIntegral(v.typ.prim) then r == Out(Value(Rvalue, Cast(IntToPtr, TryLoad(v).llvm, to), to, Null), d)
      else r == Out(InvalidValue(), ErrExplicitConv(d, v.typ, to))
    ensures !TypeIsSame(v.typ, to) && v.typ.PointerTo? && to.Prim? ==>
      if IsIntegral(to.prim) then r == Out(Value(Rvalue, Cast(PtrToInt, TryLoad(v).llvm, to), to, Null), d)
      else r == Out(InvalidValue(), ErrExplicitConv(d, v.typ, to))
    ensures r.diag != d ==> r.val == InvalidValue()
    ensures r.val.cls != Alloca
  {
    var from := TryLoad(v);
    if TypeIsSame(from.typ, to) then Out(from, d)
    else if from.typ.Prim? && to.Prim? then Out(PrimitiveConvert(from, to), d)
    else if from.typ.Prim? && to.PointerTo? then
      if !IsIntegral(from.typ.prim) then Out(InvalidValue(), ErrExplicitConv(d, from.typ, to))
      else Out(Value(Rvalue, Cast(IntToPtr, from.llvm, to), to, Null), d)
    else if from.typ.PointerTo? && to.Prim? then
      if !IsIntegral(to.prim) then Out(InvalidValue(), ErrExplicitConv(d, from.typ, to))
      else Out(Value(Rvalue, Cast(PtrToInt, from.llvm, to), to, Null), d)
    else Out(InvalidValue(), d)
  }

  /** An explicit cast reports an error only between a pointer and a floating point type. */
  lemma CastOnlyErrsOnFloatPointer(d: Diag, v: Value, to: Type)
    requires !d.hasError
    ensures ExplicitCast(d, v, to).diag.hasError <==>
      !TypeIsSame(v.typ, to) &&
      ((v.typ.Prim? && to.PointerTo? && !IsIntegral(v.typ.prim)) ||
       (v.typ.PointerTo? && to.Prim? && !IsIntegral(to.prim)))
  {
  }
}

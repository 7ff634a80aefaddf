/**
 * Arithmetic on compiled values (src/compiler/arithmetic.c): binary
 * arithmetic on primitives, pointer offsets and differences, and the unary
 * plus and minus.
 */
module Arithmetic {
  import opened Types
  import opened Values
  import opened Mem
  import opened Conversions
  import opened Ops

  /** The LLVM opcode primitive_arithmetic picks for an operation on the greater type. */
  function ArithOpcode(op: ArithOp, p: Primitive): (r: Opcode)
    ensures IsIntegral(p) <==> r in {Add, Sub, Mul, SDiv, UDiv, SRem, URem}
    ensures (r == UDiv || r == URem) <==> IsUnsigned(p) && (op == ArithDiv || op == ArithRem)
  {
    match op
    case ArithAdd => if IsIntegral(p) then Add else FAdd
    case ArithSub => if IsIntegral(p) then Sub else FSub
    case ArithMul => if IsIntegral(p) then Mul else FMul
    case ArithDiv => if !IsIntegral(p) then FDiv else if IsUnsigned(p) then UDiv else SDiv
    case ArithRem => if !IsIntegral(p) then FRem else if IsUnsigned(p) then URem else SRem
  }

  /** Every operation keeps its identity across types: the opcode determines the operation. */
  lemma ArithOpcodeDeterminesOp(a: ArithOp, b: ArithOp, p: Primitive, q: Primitive)
    ensures ArithOpcode(a, p) == ArithOpcode(b, q) ==> a == b
  {
  }

  /**
   * primitive_arithmetic: both operands are coerced to the greater type; on
   * a coercion failure, or any error already recorded, the result is
   * invalid. The result is CONSTEXPR only when both operands are.
   */
  function PrimitiveArithmetic(d: Diag, left: Value, right: Value, op: ArithOp): (r: Out)
    requires left.typ.Prim? && right.typ.Prim?
    ensures r.diag == Coerce(d, left, right).diag
    ensures r.diag.hasError <==> r.val == InvalidValue()
    ensures !r.diag.hasError ==>
      r.val.typ == PrimitiveCoercion(left.typ, right.typ).greater && r.val.lvaluePtr == Null &&
      (r.val.cls == Constexpr <==> left.cls == Constexpr && right.cls == Constexpr) &&
      (r.val.cls != Constexpr ==> r.val.cls == Rvalue) &&
      r.val.llvm == BinOp(ArithOpcode(op, r.val.typ.prim), Coerce(d, left, right).lhs.llvm, Coerce(d, left, right).rhs.llvm)
  {
    var c := Coerce(d, left, right);
    if c.diag.hasError then Out(InvalidValue(), c.diag)
    else
      var t := c.coercion.greater;
      var cls := if left.cls == Constexpr && right.cls == Constexpr then Constexpr else Rvalue;
      Out(Value(cls, BinOp(ArithOpcode(op, t.prim), c.lhs.llvm, c.rhs.llvm), t, Null), c.diag)
  }

  /** Swapping the operands of a primitive operation changes neither its type nor its class nor whether it fails. */
  lemma PrimitiveArithmeticOperandOrder(d: Diag, a: Value, b: Value, op: ArithOp)
    requires a.typ.Prim? && b.typ.Prim?
    ensures PrimitiveArithmetic(d, a, b, op).diag.hasError == PrimitiveArithmetic(d, b, a, op).diag.hasError
    ensures PrimitiveArithmetic(d, a, b, op).val.typ == PrimitiveArithmetic(d, b, a, op).val.typ
    ensures PrimitiveArithmetic(d, a, b, op).val.cls == PrimitiveArithmetic(d, b, a, op).val.cls
  {
    CoercionSymmetric(a.typ, b.typ);
  }

  /** Mixing signedness (say `int` and `uint`) fails with an implicit-conversion error, on a clean state. */
  lemma MixedSignednessFails(d: Diag, a: Value, b: Value, op: ArithOp)
    requires a.typ == Prim(Int) && b.typ == Prim(UInt) && !d.hasError
    ensures PrimitiveArithmetic(d, a, b, op) == Out(InvalidValue(), ErrImplicitConv(d, a.typ, b.typ))
  {
  }

  /**
   * pointer_arithmetic on the operands exactly as given: a pointer minus a
   * pointer of the same type is the element count between them (a `long`);
   * a pointer plus or minus an integer is an offset; anything else is an
   * illegal operation.
   */
  function PointerArithmetic(d: Diag, left: Value, right: Value, op: ArithOp): (r: Out)
    requires left.typ.PointerTo? || right.typ.PointerTo?
    ensures r.val != InvalidValue() <==>
      (op == ArithSub && left.typ.PointerTo? && right.typ.PointerTo? && TypeIsSame(left.typ, right.typ)) ||
      ((op == ArithAdd || op == ArithSub) && left.typ.PointerTo? != right.typ.PointerTo?)
    ensures r.val == InvalidValue() ==> r.diag == ErrIllegalOp(d, left.typ, right.typ, ArithSymbol(op))
    ensures r.val != InvalidValue() ==> r.diag == d && r.val.cls == Rvalue
    ensures r.val != InvalidValue() && left.typ.PointerTo? && right.typ.PointerTo? ==>
      r.val.typ == Prim(Long) &&
      r.val.llvm == BinOp(SDiv, BinOp(Sub, PointerToInt(left).llvm, PointerToInt(right).llvm), SizeOf(left.typ.elem))
    ensures r.val != InvalidValue() && left.typ.PointerTo? && !right.typ.PointerTo? ==>
      r.val.typ == left.typ &&
      r.val.llvm == Gep(left.typ.elem, left.llvm, if op == ArithSub then Neg(right.llvm) else right.llvm)
    ensures r.val != InvalidValue() && !left.typ.PointerTo? ==>
      r.val.typ == right.typ &&
      r.val.llvm == Gep(right.typ.elem, right.llvm, if op == ArithSub then Neg(left.llvm) else left.llvm)
  {
    if op != ArithAdd && op != ArithSub then
      Out(InvalidValue(), ErrIllegalOp(d, left.typ, right.typ, ArithSymbol(op)))
    else if left.typ.PointerTo? == right.typ.PointerTo? then
      if op != ArithSub || !TypeIsSame(left.typ, right.typ) then
        Out(InvalidValue(), ErrIllegalOp(d, left.typ, right.typ, ArithSymbol(op)))
      else
        var diff := BinOp(Sub, PointerToInt(left).llvm, PointerToInt(right).llvm);
        Out(Value(Rvalue, BinOp(SDiv, diff, SizeOf(left.typ.elem)), Prim(Long), Null), d)
    else
      var ptr := if left.typ.PointerTo? then left else right;
      var offsetVal := if left.typ.PointerTo? then right else left;
      var offset := if op == ArithSub then Neg(offsetVal.llvm) else offsetVal.llvm;
      Out(Value(Rvalue, Gep(ptr.typ.elem, ptr.llvm, offset), ptr.typ, Null), d)
  }

  /** An operand that can take part in pointer arithmetic: a pointer or an integer. */
  predicate PointerCompatible(t: Type)
  {
    t.PointerTo? || (t.Prim? && IsIntegral(t.prim))
  }

  /**
   * arithmetic as written: it loads both operands but hands the unloaded
   * ones to pointer_arithmetic. Operands that are not primitives or
   * pointer-compatible give an invalid value with no diagnostic.
   */
  function ArithmeticAsWritten(d: Diag, lhs: Value, rhs: Value, op: ArithOp): (r: Out)
    ensures lhs.typ.Prim? && rhs.typ.Prim? ==> r == PrimitiveArithmetic(d, lhs, rhs, op)
    ensures !(lhs.typ.Prim? && rhs.typ.Prim?) && PointerCompatible(lhs.typ) && PointerCompatible(rhs.typ) ==>
      r == PointerArithmetic(d, lhs, rhs, op)
    ensures !(lhs.typ.Prim? && rhs.typ.Prim?) && !(PointerCompatible(lhs.typ) && PointerCompatible(rhs.typ)) ==>
      r == Out(InvalidValue(), d)
  {
    if lhs.typ.Prim? && rhs.typ.Prim? then PrimitiveArithmetic(d, lhs, rhs, op)
    else if PointerCompatible(lhs.typ) && PointerCompatible(rhs.typ) then PointerArithmetic(d, lhs, rhs, op)
    else Out(InvalidValue(), d)
  }

  /**
   * With `p` a pointer variable (an ALLOCA), `p + 1` offsets the address of
   * the variable itself rather than the pointer stored in it.
   */
  lemma PointerOffsetUsesVariableAddress(d: Diag, slot: nat, one: Handle)
    ensures var p := Value(Alloca, Ref(slot), PointerTo(Prim(Int)), Null);
            var k := Value(Constexpr, one, Prim(Int), Null);
            ArithmeticAsWritten(d, p, k, ArithAdd).val.llvm == Gep(Prim(Int), Ref(slot), one) &&
            TryLoad(p).llvm == Load(PointerTo(Prim(Int)), Ref(slot)) &&
            TryLoad(p).llvm != Ref(slot)
  {
  }

  /**
   * arithmetic as intended: pointer arithmetic works on the loaded operands,
   * so the pointer offset is taken from the pointer's value.
   */
  function Arithmetic(d: Diag, lhs: Value, rhs: Value, op: ArithOp): (r: Out)
  {
    if lhs.typ.Prim? && rhs.typ.Prim? then PrimitiveArithmetic(d, lhs, rhs, op)
    else if PointerCompatible(lhs.typ) && PointerCompatible(rhs.typ) then PointerArithmetic(d, TryLoad(lhs), TryLoad(rhs), op)
    else Out(InvalidValue(), d)
  }

  /** In the corrected dispatch an offset pointer is built from the loaded pointer and the loaded offset. */
  lemma PointerOffsetUsesLoadedValues(d: Diag, p: Value, k: Value, op: ArithOp)
    requires p.typ.PointerTo? && k.typ.Prim? && IsIntegral(k.typ.prim)
    requires op == ArithAdd || op == ArithSub
    ensures var off := if op == ArithSub then Neg(TryLoad(k).llvm) else TryLoad(k).llvm;
            Arithmetic(d, p, k, op) == Out(Value(Rvalue, Gep(p.typ.elem, TryLoad(p).llvm, off), p.typ, Null), d) &&
            Arithmetic(d, k, p, op) == Out(Value(Rvalue, Gep(p.typ.elem, TryLoad(p).llvm, off), p.typ, Null), d)
  {
  }

  /** Operands that are already loaded are treated alike by both dispatches. */
  lemma CorrectionOnlyAffectsAllocas(d: Diag, lhs: Value, rhs: Value, op: ArithOp)
    requires lhs.cls != Alloca && rhs.cls != Alloca
    ensures Arithmetic(d, lhs, rhs, op) == ArithmeticAsWritten(d, lhs, rhs, op)
  {
  }

  /** The difference of two pointers is the same whether or not the operands were loaded first. */
  lemma PointerDifferenceLoadsAnyway(d: Diag, p: Value, q: Value)
    requires p.typ.PointerTo? && q.typ.PointerTo? && TypeIsSame(p.typ, q.typ)
    ensures Arithmetic(d, p, q, ArithSub) == ArithmeticAsWritten(d, p, q, ArithSub)
  {
    TryLoadIdempotent(p);
    TryLoadIdempotent(q);
  }

  /**
   * unary_arithmetic: on a loaded primitive, `+` yields the same LLVM value
   * as an RVALUE and `-` negates it; `-` on an unsigned type is an error;
   * anything else is an invalid value with no diagnostic.
   */
  function UnaryArithmetic(d: Diag, v: Value, op: UnaryOp): (r: Out)
    ensures r.diag.hasError != d.hasError ==> r.val == InvalidValue()
    ensures v.typ.Prim? && op == Identity ==> r == Out(Value(Rvalue, TryLoad(v).llvm, v.typ, Null), d)
    ensures v.typ.Prim? && op == Negation && IsUnsigned(v.typ.prim) ==>
      r == Out(InvalidValue(), Report(d, "use of unary minus '-' on unsigned type", IncompatibleType))
    ensures v.typ.Prim? && op == Negation && !IsUnsigned(v.typ.prim) ==>
      r.diag == d && r.val.cls == Rvalue && r.val.typ == v.typ &&
      r.val.llvm == (if IsIntegral(v.typ.prim) then Neg(TryLoad(v).llvm) else FNeg(TryLoad(v).llvm))
    ensures !v.typ.Prim? ==> r == Out(InvalidValue(), d)
  {
    var operand := TryLoad(v);
    if !operand.typ.Prim? then Out(InvalidValue(), d)
    else match op
      case Identity => Out(Value(Rvalue, operand.llvm, operand.typ, Null), d)
      case Negation =>
        if IsUnsigned(operand.typ.prim) then
          Out(InvalidValue(), Report(d, "use of unary minus '-' on unsigned type", IncompatibleType))
        else
          var result := if IsIntegral(operand.typ.prim) then Neg(operand.llvm) else FNeg(operand.llvm);
          Out(Value(Rvalue, result, operand.typ, Null), d)
  }

  /** Unary plus emits no instruction: it only turns its operand into an RVALUE. */
  lemma UnaryPlusIsCopy(d: Diag, v: Value)
    requires v.typ.Prim? && v.cls != Alloca
    ensures UnaryArithmetic(d, v, Identity) == Out(v.(cls := Rvalue, lvaluePtr := Null), d)
  {
  }
}

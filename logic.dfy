/**
 * Comparisons and the logical operators on compiled values
 * (src/compiler/logic.c).
 */
module Logic {
  import opened Types
  import opened Values
  import opened Mem
  import opened Conversions
  import opened Ops

  /** The integer predicate for a comparison: equality ignores signedness, ordering does not. */
  function IntPredicateOf(op: CompareOp, signed: bool): (p: IntPredicate)
    ensures (op == CmpEqual <==> p == IntEQ) && (op == CmpInequal <==> p == IntNE)
    ensures p in {IntSGT, IntSGE, IntSLT, IntSLE} <==> signed && op != CmpEqual && op != CmpInequal
  {
    match op
    case CmpEqual => IntEQ
    case CmpInequal => IntNE
    case CmpGt => if signed then IntSGT else IntUGT
    case CmpGte => if signed then IntSGE else IntUGE
    case CmpLt => if signed then IntSLT else IntULT
    case CmpLte => if signed then IntSLE else IntULE
  }

  /** The ordered floating point predicate for a comparison. */
  function RealPredicateOf(op: CompareOp): RealPredicate
  {
    match op
    case CmpEqual => RealOEQ
    case CmpInequal => RealONE
    case CmpGt => RealOGT
    case CmpGte => RealOGE
    case CmpLt => RealOLT
    case CmpLte => RealOLE
  }

  /** The comparison that holds of (b, a) exactly when op holds of (a, b). */
  function Mirror(op: CompareOp): (m: CompareOp)
    ensures (m == op) <==> (op == CmpEqual || op == CmpInequal)
  {
    match op
    case CmpEqual => CmpEqual
    case CmpInequal => CmpInequal
    case CmpGt => CmpLt
    case CmpGte => CmpLte
    case CmpLt => CmpGt
    case CmpLte => CmpGte
  }

  /** The same mirroring on the LLVM integer predicates. */
  function MirrorInt(p: IntPredicate): IntPredicate
  {
    match p
    case IntEQ => IntEQ
    case IntNE => IntNE
    case IntSGT => IntSLT
    case IntSGE => IntSLE
    case IntSLT => IntSGT
    case IntSLE => IntSGE
    case IntUGT => IntULT
    case IntUGE => IntULE
    case IntULT => IntUGT
    case IntULE => IntUGE
  }

  /** Mirroring is an involution and agrees with mirroring the chosen predicate. */
  lemma MirrorCommutes(op: CompareOp, signed: bool)
    ensures Mirror(Mirror(op)) == op
    ensures IntPredicateOf(Mirror(op), signed) == MirrorInt(IntPredicateOf(op, signed))
  {
  }

  /**
   * primitive_comparison: the operands are coerced to the greater type and
   * compared with an integer or a floating point predicate; the result is a
   * `bool` RVALUE. Unlike arithmetic it does not look at errors recorded
   * before: only an invalid operand or coercion makes the result invalid.
   */
  function PrimitiveComparison(d: Diag, left: Value, right: Value, op: CompareOp): (r: Out)
    requires left.typ.Prim? && right.typ.Prim?
    ensures r.diag == Coerce(d, left, right).diag
    ensures var c := Coerce(d, left, right);
      r.val != InvalidValue() <==> IsValid(c.lhs) && IsValid(c.rhs) && !c.coercion.greater.Invalid?
    ensures var c := Coerce(d, left, right);
      r.val != InvalidValue() ==>
        r.val.typ == Prim(Bool) && r.val.cls == Rvalue &&
        r.val.llvm == (if IsIntegral(c.coercion.greater.prim)
                       then ICmp(IntPredicateOf(op, !IsUnsigned(c.coercion.greater.prim)), c.lhs.llvm, c.rhs.llvm)
                       else FCmp(RealPredicateOf(op), c.lhs.llvm, c.rhs.llvm))
  {
    var c := Coerce(d, left, right);
    if !IsValid(c.lhs) || !IsValid(c.rhs) || c.coercion.greater.Invalid? then Out(InvalidValue(), c.diag)
    else
      var p := c.coercion.greater.prim;
      var result := if IsIntegral(p) then ICmp(IntPredicateOf(op, !IsUnsigned(p)), c.lhs.llvm, c.rhs.llvm)
                    else FCmp(RealPredicateOf(op), c.lhs.llvm, c.rhs.llvm);
      Out(Value(Rvalue, result, BoolType(), Null), c.diag)
  }

  /**
   * comparison: primitives are loaded and compared; two pointers to the same
   * type compare as unsigned integers; pointers to different types are an
   * illegal operation; any other pairing is invalid with no diagnostic.
   */
  function Comparison(d: Diag, lhs: Value, rhs: Value, op: CompareOp): (r: Out)
    ensures lhs.typ.Prim? && rhs.typ.Prim? ==> r == PrimitiveComparison(d, TryLoad(lhs), TryLoad(rhs), op)
    ensures lhs.typ.PointerTo? && rhs.typ.PointerTo? && !TypeIsSame(lhs.typ.elem, rhs.typ.elem) ==>
      r == Out(InvalidValue(), ErrIllegalOp(d, lhs.typ, rhs.typ, CompareSymbol(op)))
    ensures lhs.typ.PointerTo? && rhs.typ.PointerTo? && TypeIsSame(lhs.typ.elem, rhs.typ.elem) ==>
      r == Out(Value(Rvalue, ICmp(IntPredicateOf(op, false), TryLoad(lhs).llvm, TryLoad(rhs).llvm), Prim(Bool), Null), d)
    ensures !(lhs.typ.Prim? && rhs.typ.Prim?) && !(lhs.typ.PointerTo? && rhs.typ.PointerTo?) ==>
      r == Out(InvalidValue(), d)
    ensures r.val != InvalidValue() ==> r.val.typ == Prim(Bool) && r.val.cls == Rvalue
  {
    if lhs.typ.Prim? && rhs.typ.Prim? then
      PrimitiveComparison(d, TryLoad(lhs), TryLoad(rhs), op)
    else if lhs.typ.PointerTo? && rhs.typ.PointerTo? then
      if !TypeIsSame(lhs.typ.elem, rhs.typ.elem) then
        Out(InvalidValue(), ErrIllegalOp(d, lhs.typ, rhs.typ, CompareSymbol(op)))
      else
        Out(Value(Rvalue, ICmp(IntPredicateOf(op, false), TryLoad(lhs).llvm, TryLoad(rhs).llvm), BoolType(), Null), d)
    else Out(InvalidValue(), d)
  }

  /**
   * Comparing integers of one type the other way round, with the mirrored
   * operator, compares the same two values with the mirrored predicate.
   */
  lemma MirroredIntegerComparison(d: Diag, a: Value, b: Value, op: CompareOp)
    requires a.typ.Prim? && a.typ == b.typ && IsIntegral(a.typ.prim)
    requires IsValid(a) && IsValid(b)
    ensures var x := Comparison(d, a, b, op);
            var y := Comparison(d, b, a, Mirror(op));
            x.val != InvalidValue() && y.val != InvalidValue() &&
            x.val.llvm.ICmp? && y.val.llvm.ICmp? &&
            y.val.llvm.ipred == MirrorInt(x.val.llvm.ipred) &&
            y.val.llvm.lhs == x.val.llvm.rhs && y.val.llvm.rhs == x.val.llvm.lhs
  {
    MirrorCommutes(op, !IsUnsigned(a.typ.prim));
  }

  /** Pointers of the same pointee type always compare as unsigned integers. */
  lemma PointerComparisonIsUnsigned(d: Diag, p: Value, q: Value, op: CompareOp)
    requires p.typ.PointerTo? && q.typ.PointerTo? && TypeIsSame(p.typ.elem, q.typ.elem)
    ensures Comparison(d, p, q, op).val.llvm.ICmp?
    ensures Comparison(d, p, q, op).val.llvm.ipred !in {IntSGT, IntSGE, IntSLT, IntSLE}
  {
  }

  /** The LLVM opcode of each logical operator. */
  function LogicOpcode(op: LogicOp): Opcode
  {
    match op
    case LogicOr => Or
    case LogicXor => Xor
    case LogicAnd => And
  }

  /**
   * The result binary_logic computes: both operands loaded and converted to
   * `bool`, then combined bitwise; an operand that cannot convert to `bool`
   * (the left one reported first) gives an invalid value.
   */
  function BinaryLogicSpec(d: Diag, lhs: Value, rhs: Value, op: LogicOp): (r: Out)
  {
    var l := TryLoad(lhs);
    var r := TryLoad(rhs);
    if !TypeCanConvert(l.typ, BoolType()) then Out(InvalidValue(), ErrImplicitConv(d, l.typ, BoolType()))
    else if !TypeCanConvert(r.typ, BoolType()) then Out(InvalidValue(), ErrImplicitConv(d, r.typ, BoolType()))
    else
      var l2 := TryLoad(Converted(l, BoolType()));
      var r2 := TryLoad(Converted(r, BoolType()));
      Out(Value(Rvalue, BinOp(LogicOpcode(op), l2.llvm, r2.llvm), BoolType(), Null), d)
  }

  /** binary_logic, overwriting its loaded operands in place as the C does. */
  method BinaryLogic(d: Diag, lhs: Value, rhs: Value, op: LogicOp) returns (r: Out)
    ensures r == BinaryLogicSpec(d, lhs, rhs, op)
    ensures r.val != InvalidValue() ==> r.val.typ == Prim(Bool) && r.diag == d
  {
    var left := new ValueSlot(TryLoad(lhs));
    var right := new ValueSlot(TryLoad(rhs));
    var boolType := BoolType();
    if !TypeCanConvert(left.v.typ, boolType) {
      return Out(InvalidValue(), ErrImplicitConv(d, left.v.typ, boolType));
    }
    if !TypeCanConvert(right.v.typ, boolType) {
      return Out(InvalidValue(), ErrImplicitConv(d, right.v.typ, boolType));
    }
    var _ := ConvertInplace(left, boolType);
    var _ := ConvertInplace(right, boolType);
    TryLoadInplace(left);
    TryLoadInplace(right);
    var result := BinOp(LogicOpcode(op), left.v.llvm, right.v.llvm);
    return Out(Value(Rvalue, result, boolType, Null), d);
  }

  /** Only `bool` operands are accepted, and then no conversion is emitted. */
  lemma LogicNeedsBools(d: Diag, lhs: Value, rhs: Value, op: LogicOp)
    ensures BinaryLogicSpec(d, lhs, rhs, op).val != InvalidValue() <==> lhs.typ == Prim(Bool) && rhs.typ == Prim(Bool)
    ensures lhs.typ == Prim(Bool) && rhs.typ == Prim(Bool) ==>
      BinaryLogicSpec(d, lhs, rhs, op) ==
        Out(Value(Rvalue, BinOp(LogicOpcode(op), TryLoad(lhs).llvm, TryLoad(rhs).llvm), Prim(Bool), Null), d)
  {
    var l := TryLoad(lhs);
    var r := TryLoad(rhs);
    TypeCanConvertRule(l.typ, BoolType());
    TypeCanConvertRule(r.typ, BoolType());
    if l.typ.Prim? {
      OnlyBoolConvertsToBool(l.typ.prim);
    }
    if r.typ.Prim? {
      OnlyBoolConvertsToBool(r.typ.prim);
    }
    if l.typ.Prim? && l.typ.prim == Bool && r.typ.Prim? && r.typ.prim == Bool {
      TryLoadIdempotent(lhs);
      TryLoadIdempotent(rhs);
    }
  }
}

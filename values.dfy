/**
 * Compiled values, symbolic LLVM handles and the compiler's sticky
 * diagnostic state (src/compiler/value.c, src/compiler/errors.c).
 *
 * An LLVM value is represented by the builder call that produced it: a
 * `Handle` term. Nothing about the IR itself is modelled.
 */
module Values {
  import opened Types

  /** The value classes, in the order of the C enumeration. */
  datatype ValueClass = InvalidClass | Alloca | Lvalue | Rvalue | Constexpr

  /** LLVM cast opcodes the compiler emits. */
  datatype CastOp = Trunc | ZExt | SExt | FPExt | FPTrunc | UIToFP | SIToFP | FPToUI | FPToSI | IntToPtr | PtrToInt

  /** LLVM binary opcodes the compiler emits. */
  datatype Opcode = Add | FAdd | Sub | FSub | Mul | FMul | SDiv | UDiv | FDiv | SRem | URem | FRem | Or | Xor | And

  /** Integer comparison predicates. */
  datatype IntPredicate = IntEQ | IntNE | IntSGT | IntSGE | IntSLT | IntSLE | IntUGT | IntUGE | IntULT | IntULE

  /** Ordered floating point comparison predicates. */
  datatype RealPredicate = RealOEQ | RealONE | RealOGT | RealOGE | RealOLT | RealOLE

  /** An LLVM value: NULL, one that exists already, or the result of one builder call. */
  datatype Handle =
    | Null
    | Ref(id: nat)
    | Load(loadType: Type, from: Handle)
    | Cast(op: CastOp, arg: Handle, target: Type)
    | BinOp(opcode: Opcode, lhs: Handle, rhs: Handle)
    | ICmp(ipred: IntPredicate, lhs: Handle, rhs: Handle)
    | FCmp(rpred: RealPredicate, lhs: Handle, rhs: Handle)
    | Neg(arg: Handle)
    | FNeg(arg: Handle)
    | Gep(elemType: Type, base: Handle, offset: Handle)
    | SizeOf(sizeType: Type)

  /** A compiled value. `lvaluePtr` is NULL unless set. */
  datatype Value = Value(cls: ValueClass, llvm: Handle, typ: Type, lvaluePtr: Handle)

  /** invalid_value. */
  function InvalidValue(): Value
  {
    Value(InvalidClass, Null, Invalid, Null)
  }

  /** value_is_valid. */
  predicate IsValid(v: Value)
  {
    !v.typ.Invalid? && v.llvm != Null && v.cls != InvalidClass
  }

  lemma InvalidValueIsInvalid()
    ensures !IsValid(InvalidValue())
  {
  }

  /** The compile status codes, in the order of the C enumeration. */
  datatype Status =
    | StatusNone | StatusLlvm | DuplicateIdentifier | UndeclaredIdentifier | Redeclaration
    | IncompatibleType | IllegalNode | MissingReturn | IncompatibleValueClass

  /** The error part of the compiler state: only the first message is kept. */
  datatype Diag = Diag(hasError: bool, error: string, status: Status)

  function NoDiag(): Diag { Diag(false, "", StatusNone) }

  /** puts_err: record a message unless one is recorded already; the status is not touched. */
  function PutsErr(d: Diag, msg: string): (r: Diag)
    ensures r.hasError && r.status == d.status
    ensures r.error == if d.hasError then d.error else msg
  {
    if d.hasError then d else d.(hasError := true, error := msg)
  }

  /** Every err_* helper: puts_err, then the status is always overwritten. */
  function Report(d: Diag, msg: string, status: Status): (r: Diag)
    ensures r.hasError && r.status == status
    ensures r.error == if d.hasError then d.error else msg
  {
    PutsErr(d, msg).(status := status)
  }

  /** Reporting twice keeps the first message and the last status. */
  lemma FirstMessageWins(d: Diag, m1: string, s1: Status, m2: string, s2: Status)
    ensures Report(Report(d, m1, s1), m2, s2) == Report(d, m1, s2)
  {
  }

  function Quoted(s: string): string { "'" + s + "'" }

  function ErrImplicitConv(d: Diag, from: Type, to: Type): Diag
  {
    Report(d, "cannot implicitly convert " + Quoted(TypeToStr(from)) + " into " + Quoted(TypeToStr(to)), IncompatibleType)
  }

  function ErrExplicitConv(d: Diag, from: Type, to: Type): Diag
  {
    Report(d, "no such conversion from " + Quoted(TypeToStr(from)) + " to " + Quoted(TypeToStr(to)) + " exists", IncompatibleType)
  }

  function ErrRvalueAssign(d: Diag, t: Type): Diag
  {
    Report(d, "assigning to rvalue of type " + Quoted(TypeToStr(t)), IncompatibleValueClass)
  }

  function ErrDeref(d: Diag, t: Type): Diag
  {
    Report(d, "use of '@' on incompatible type " + Quoted(TypeToStr(t)), IncompatibleType)
  }

  function ErrIllegalOp(d: Diag, l: Type, r: Type, op: string): Diag
  {
    Report(d, "illegal op " + Quoted(op) + " on types " + Quoted(TypeToStr(l)) + " and " + Quoted(TypeToStr(r)), IncompatibleType)
  }

  function ErrConstAssign(d: Diag, t: Type): Diag
  {
    Report(d, "assigning to constant value of type " + Quoted(TypeToStr(t)), IncompatibleType)
  }

  function ErrDiscardConst(d: Diag, from: Type, to: Type): Diag
  {
    Report(d, "converting from " + Quoted(TypeToStr(from)) + " into " + Quoted(TypeToStr(to)) + " discards const qualifiers", IncompatibleType)
  }

  /** A value together with the diagnostic state after producing it. */
  datatype Out = Out(val: Value, diag: Diag)
}

/**
 * Assignment (assign in src/compiler/mem.c). It needs convert_inplace,
 * which in turn needs try_load, so it lives beside the two modules it uses.
 *
 * The const checks consult `type.is_const` and `init_respects_constness`,
 * which the type representation in this model does not define; their
 * answers are parameters.
 */
module Assignment {
  import opened Types
  import opened Values
  import opened Mem
  import opened Conversions
  import opened Wrappers

  /** What assign returns, plus the store it emits on success. */
  datatype Assigned = Assigned(val: Value, diag: Diag, effect: Option<Effect>)

  /** assign: `target = from`. */
  method Assign(d: Diag, target: Value, from: Value, targetIsConst: bool, respectsConstness: bool)
    returns (r: Assigned)
    ensures r.effect.Some? <==>
      (target.cls == Alloca || target.cls == Lvalue) && !targetIsConst && respectsConstness &&
      TypeCanConvert(from.typ, target.typ)
    ensures target.cls != Alloca && target.cls != Lvalue ==> r == Assigned(InvalidValue(), ErrRvalueAssign(d, target.typ), None)
    ensures (target.cls == Alloca || target.cls == Lvalue) && targetIsConst ==>
      r == Assigned(InvalidValue(), ErrConstAssign(d, target.typ), None)
    ensures (target.cls == Alloca || target.cls == Lvalue) && !targetIsConst && !respectsConstness ==>
      r == Assigned(InvalidValue(), ErrDiscardConst(d, from.typ, target.typ), None)
    ensures ((target.cls == Alloca || target.cls == Lvalue) && !targetIsConst && respectsConstness &&
             !TypeCanConvert(from.typ, target.typ)) ==>
      r == Assigned(InvalidValue(), ErrImplicitConv(d, from.typ, target.typ), None)
    ensures r.effect.Some? ==>
      r.diag == d && r.val.cls == Rvalue &&
      (r.val.typ == target.typ || TypeIsSame(r.val.typ, target.typ)) &&
      r.effect.value == StoreEffect(Converted(TryLoad(from), target.typ), if target.cls == Alloca then target.llvm else target.lvaluePtr)
  {
    var ptr: Handle;
    match target.cls {
      case Alloca => ptr := target.llvm;
      case Lvalue => ptr := target.lvaluePtr;
      case _ =>
        return Assigned(InvalidValue(), ErrRvalueAssign(d, target.typ), None);
    }
    if targetIsConst {
      return Assigned(InvalidValue(), ErrConstAssign(d, target.typ), None);
    }
    if !respectsConstness {
      return Assigned(InvalidValue(), ErrDiscardConst(d, from.typ, target.typ), None);
    }
    var loaded := new ValueSlot(TryLoad(from));
    if !TypeCanConvert(loaded.v.typ, target.typ) {
      return Assigned(InvalidValue(), ErrImplicitConv(d, loaded.v.typ, target.typ), None);
    }
    var _ := ConvertInplace(loaded, target.typ);
    var effect := StoreEffect(loaded.v, ptr);
    loaded.v := loaded.v.(cls := Rvalue);
    return Assigned(loaded.v, d, Some(effect));
  }
}

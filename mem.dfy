/**
 * Value-class transitions of src/compiler/mem.c: loading from an alloca,
 * taking addresses, dereferencing, and the store that an assignment emits.
 */
module Mem {
  import opened Types
  import opened Values

  /** try_load: an ALLOCA becomes an LVALUE that remembers its address; anything else is copied. */
  function TryLoad(v: Value): (r: Value)
    ensures r.typ == v.typ && r.cls != Alloca
    ensures v.cls != Alloca ==> r == v
    ensures v.cls == Alloca ==> r.cls == Lvalue && r.lvaluePtr == v.llvm
    ensures v.cls == Alloca && v.typ.StructOf? ==> r.llvm == v.llvm
    ensures v.cls == Alloca && !v.typ.StructOf? ==> r.llvm == Load(v.typ, v.llvm)
  {
    if v.cls != Alloca then v
    else if v.typ.StructOf? then Value(Lvalue, v.llvm, v.typ, v.llvm)
    else Value(Lvalue, Load(v.typ, v.llvm), v.typ, v.llvm)
  }

  /** Loading twice is loading once. */
  lemma TryLoadIdempotent(v: Value)
    ensures TryLoad(TryLoad(v)) == TryLoad(v)
  {
  }

  /** A value slot that the compiler overwrites through a pointer. */
  class ValueSlot {
    var v: Value

    constructor (init: Value)
      ensures v == init
    {
      v := init;
    }
  }

  /** try_load_inplace: overwrite the slot with its loaded form. */
  method TryLoadInplace(slot: ValueSlot)
    modifies slot
    ensures slot.v == TryLoad(old(slot.v))
  {
    if slot.v.cls != Alloca {
      return;
    }
    if slot.v.typ.StructOf? {
      slot.v := Value(Lvalue, slot.v.llvm, slot.v.typ, slot.v.llvm);
      return;
    }
    var loaded := Load(slot.v.typ, slot.v.llvm);
    slot.v := Value(Lvalue, loaded, slot.v.typ, slot.v.llvm);
  }

  /** address_of: the address of an ALLOCA or LVALUE as a pointer RVALUE; anything else is an error. */
  function AddressOf(d: Diag, v: Value): (r: Out)
    ensures v.cls == Alloca || v.cls == Lvalue <==> r.val != InvalidValue()
    ensures v.cls == Alloca ==> r.val == Value(Rvalue, v.llvm, PointerTo(v.typ), Null) && r.diag == d
    ensures v.cls == Lvalue ==> r.val == Value(Rvalue, v.lvaluePtr, PointerTo(v.typ), Null) && r.diag == d
    ensures v.cls != Alloca && v.cls != Lvalue ==>
      r.diag == PutsErr(d, "taking address of rvalue of type " + Quoted(TypeToStr(v.typ)))
  {
    match v.cls
    case Alloca => Out(Value(Rvalue, v.llvm, PointerTo(v.typ), Null), d)
    case Lvalue => Out(Value(Rvalue, v.lvaluePtr, PointerTo(v.typ), Null), d)
    case _ => Out(InvalidValue(), PutsErr(d, "taking address of rvalue of type " + Quoted(TypeToStr(v.typ))))
  }

  /** deref: `@p` on a pointer gives an LVALUE of the pointee type located at the pointer. */
  function Deref(d: Diag, v: Value): (r: Out)
    ensures !v.typ.PointerTo? <==> r.val == InvalidValue()
    ensures !v.typ.PointerTo? ==> r.diag == ErrDeref(d, v.typ)
    ensures v.typ.PointerTo? ==>
      r.diag == d && r.val.cls == Lvalue && r.val.typ == v.typ.elem &&
      r.val.lvaluePtr == TryLoad(v).llvm &&
      (v.typ.elem.StructOf? <==> r.val.llvm == TryLoad(v).llvm)
  {
    var operand := TryLoad(v);
    if !operand.typ.PointerTo? then
      Out(InvalidValue(), ErrDeref(d, operand.typ))
    else if operand.typ.elem.StructOf? then
      Out(Value(Lvalue, operand.llvm, operand.typ.elem, operand.llvm), d)
    else
      var loaded := Load(operand.typ.elem, operand.llvm);
      assert loaded != operand.llvm by { HandleNotOwnLoad(operand.typ.elem, operand.llvm); }
      Out(Value(Lvalue, loaded, operand.typ.elem, operand.llvm), d)
  }

  lemma HandleNotOwnLoad(t: Type, h: Handle)
    ensures Load(t, h) != h
  {
    assert h < Load(t, h);
  }

  /** Dereferencing the address of a variable is the same as loading the variable. */
  lemma DerefOfAddressOfIsLoad(d: Diag, v: Value)
    requires v.cls == Alloca
    ensures Deref(d, AddressOf(d, v).val) == Out(TryLoad(v), d)
  {
  }

  /** Taking the address of a dereferenced pointer gives back the pointer's value. */
  lemma AddressOfDerefIsPointer(d: Diag, p: Value)
    requires p.typ.PointerTo? && p.cls != Alloca
    ensures AddressOf(d, Deref(d, p).val) == Out(Value(Rvalue, p.llvm, p.typ, Null), d)
  {
  }

  /** The store an assignment emits. */
  datatype Effect = MemCpy(dest: Handle, src: Handle, size: Handle) | Store(stored: Handle, into: Handle)

  /** store: struct values are copied with memcpy, everything else with a plain store. */
  function StoreEffect(v: Value, into: Handle): (e: Effect)
    ensures e.MemCpy? <==> v.typ.StructOf?
    ensures e.MemCpy? ==> e.dest == into && e.src == v.llvm && e.size == SizeOf(v.typ)
    ensures e.Store? ==> e.into == into && e.stored == v.llvm
  {
    if v.typ.StructOf? then MemCpy(into, v.llvm, SizeOf(v.typ)) else Store(v.llvm, into)
  }
}

/**
 * Symbol attributes attached to declarations (src/parser/attributes.c).
 */
module Attributes {

  /** enum gramina_symbol_attribute_kind. */
  datatype SymAttrKind = NoneKind | Extern | MethodKind

  /** struct gramina_symbol_attribute: a kind and its string argument. */
  datatype SymAttr = SymAttr(kind: SymAttrKind, text: seq<char>)

  /** get_attrib_kind: "extern" and "method" name their kinds; every other name is NONE. */
  function GetAttribKind(name: seq<char>): (k: SymAttrKind)
    ensures k == Extern <==> name == "extern"
    ensures k == MethodKind <==> name == "method"
  {
    if name == "extern" then Extern
    else if name == "method" then MethodKind
    else NoneKind
  }

  /** The spelling each named kind is recognised from. */
  function AttribName(k: SymAttrKind): seq<char>
    requires k != NoneKind
  {
    if k == Extern then "extern" else "method"
  }

  /** Names round-trip through kinds, and matching is case-sensitive. */
  lemma AttribNameRoundTrip(k: SymAttrKind)
    requires k != NoneKind
    ensures GetAttribKind(AttribName(k)) == k
    ensures GetAttribKind("Extern") == NoneKind && GetAttribKind("METHOD") == NoneKind
  {
  }

  /**
   * symattr_free: the kind becomes NONE; the string is released only for
   * EXTERN (a METHOD's string is kept, as the source leaks it).
   */
  function SymattrFree(a: SymAttr): (r: SymAttr)
    ensures r.kind == NoneKind
    ensures a.kind == Extern ==> r.text == []
    ensures a.kind != Extern ==> r.text == a.text
  {
    if a.kind == Extern then SymAttr(NoneKind, []) else a.(kind := NoneKind)
  }

  /** Freeing twice is freeing once. */
  lemma SymattrFreeIdempotent(a: SymAttr)
    ensures SymattrFree(SymattrFree(a)) == SymattrFree(a)
  {
  }
}

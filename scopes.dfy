/**
 * Identifiers, scopes and the compiler's scope and reflection stacks
 * (src/compiler/identifier.c, src/compiler/scope.c,
 * src/compiler/stackops.c). A scope is a hash map from names to
 * identifiers; it lives inside the scope stack by value, so it is modelled
 * as a bucket table. Identifiers are heap objects that popping a scope frees.
 */
module Scopes {
  import opened Wrappers
  import opened Types
  import opened Values
  import opened Attributes
  import opened Hashmaps

  /** GRAMINA_SCOPE_BUCKETS. */
  const SCOPE_BUCKETS: nat := 128

  /** enum gramina_identifier_kind. */
  datatype IdentKind = VarKind | FuncKind | TypeKind

  /** struct gramina_identifier. */
  class Identifier {
    var kind: IdentKind
    var typ: Type
    var attributes: seq<SymAttr>
    var llvm: Handle

    constructor (kind: IdentKind, typ: Type, attributes: seq<SymAttr>, llvm: Handle)
      ensures this.kind == kind && this.typ == typ && this.attributes == attributes && this.llvm == llvm
    {
      this.kind := kind;
      this.typ := typ;
      this.attributes := attributes;
      this.llvm := llvm;
    }

    /** identifier_free: the type becomes INVALID and the attributes are released; kind and value stay. */
    method Free()
      modifies this
      ensures typ == Invalid && attributes == []
      ensures kind == old(kind) && llvm == old(llvm)
    {
      typ := Invalid;
      attributes := [];
    }
  }

  /** The identifier table of one scope. */
  type Table = seq<seq<Item<Identifier>>>

  /** mk_scope: a map of 128 empty buckets. */
  function EmptyScope(): (t: Table)
    ensures |t| == SCOPE_BUCKETS
    ensures forall name :: Lookup(t, name) == None
  {
    seq(SCOPE_BUCKETS, _ => [])
  }

  /** Every table on the stack has buckets, so each lookup is defined. */
  predicate HasBuckets(scopes: seq<Table>)
  {
    forall i :: 0 <= i < |scopes| ==> |scopes[i]| > 0
  }

  /** What resolve finds: the binding of the innermost scope that has the name. */
  function ResolveIn(scopes: seq<Table>, name: seq<char>): Option<Identifier>
    requires HasBuckets(scopes)
    decreases |scopes|
  {
    if |scopes| == 0 then None
    else
      var outer := scopes[..|scopes| - 1];
      assert forall i :: 0 <= i < |outer| ==> outer[i] == scopes[i];
      match Lookup(scopes[|scopes| - 1], name)
      case Some(id) => Some(id)
      case None => ResolveIn(outer, name)
  }

  /** Resolution finds nothing exactly when no scope has the name. */
  lemma {:induction false} ResolveInNone(scopes: seq<Table>, name: seq<char>)
    requires HasBuckets(scopes)
    ensures ResolveIn(scopes, name).None? <==> forall i :: 0 <= i < |scopes| ==> Lookup(scopes[i], name).None?
    decreases |scopes|
  {
    if |scopes| > 0 {
      var outer := scopes[..|scopes| - 1];
      assert forall i :: 0 <= i < |outer| ==> outer[i] == scopes[i];
      ResolveInNone(outer, name);
    }
  }

  /** A name bound in scope i and in no scope inside it resolves to scope i's binding. */
  lemma {:induction false} ResolveInInnermost(scopes: seq<Table>, name: seq<char>, i: nat)
    requires HasBuckets(scopes) && i < |scopes| && Lookup(scopes[i], name).Some?
    requires forall j :: i < j < |scopes| ==> Lookup(scopes[j], name).None?
    ensures ResolveIn(scopes, name) == Lookup(scopes[i], name)
    decreases |scopes|
  {
    var last := |scopes| - 1;
    if i < last {
      var outer := scopes[..last];
      assert forall k :: 0 <= k < |outer| ==> outer[k] == scopes[k];
      assert Lookup(scopes[last], name).None?;
      ResolveInInnermost(outer, name, i);
    }
  }

  /** A reflected type and the reflection depth it was pushed at. */
  datatype Reflection = Reflection(typ: Type, depth: nat)

  /** The part of struct gramina_compiler_state that the stack operations touch. */
  class CompilerState {
    var reflectionDepth: nat
    var reflection: seq<Reflection>
    var scopes: seq<Table>

    /** Every scope on the stack was made by mk_scope. */
    ghost predicate Valid()
      reads this
    {
      forall i :: 0 <= i < |scopes| ==> |scopes[i]| == SCOPE_BUCKETS
    }

    constructor ()
      ensures Valid() && reflectionDepth == 0 && reflection == [] && scopes == []
    {
      reflectionDepth := 0;
      reflection := [];
      scopes := [];
    }

    /** resolve: the scopes are searched from the innermost outwards; an empty stack finds nothing. */
    method Resolve(name: seq<char>) returns (r: Option<Identifier>)
      requires Valid()
      ensures r == ResolveIn(scopes, name)
    {
      if |scopes| == 0 {
        return None;
      }
      var i := |scopes| - 1;
      assert scopes[..i + 1] == scopes;
      while i >= 0
        invariant -1 <= i < |scopes|
        invariant HasBuckets(scopes[..i + 1])
        invariant ResolveIn(scopes[..i + 1], name) == ResolveIn(scopes, name)
      {
        var candidate := Find(scopes[i], name);
        assert scopes[..i + 1][..i] == scopes[..i];
        if candidate.Some? {
          return candidate;
        }
        i := i - 1;
      }
      return None;
    }

    /** push_scope: a new empty scope goes on top; its index is returned. */
    method PushScope() returns (top: nat)
      requires Valid()
      modifies this
      ensures Valid() && scopes == old(scopes) + [EmptyScope()] && top == |old(scopes)|
      ensures reflection == old(reflection) && reflectionDepth == old(reflectionDepth)
    {
      scopes := scopes + [EmptyScope()];
      top := |scopes| - 1;
    }

    /**
     * pop_scope: the top scope is freed, which frees every identifier in it,
     * and removed. The source has no guard for an empty stack.
     */
    method PopScope()
      requires Valid() && |scopes| > 0
      modifies this, AllValues(scopes[|scopes| - 1])
      ensures Valid() && scopes == old(scopes)[..|old(scopes)| - 1]
      ensures reflection == old(reflection) && reflectionDepth == old(reflectionDepth)
      ensures forall id :: id in old(AllValues(scopes[|scopes| - 1])) ==> id.typ == Invalid && id.attributes == []
    {
      var all := Hashmap<Identifier>.Collect(scopes[|scopes| - 1]);
      FreeAll(all);
      scopes := scopes[..|scopes| - 1];
    }

    /** push_reflection: the type is recorded with the current reflection depth. */
    method PushReflection(t: Type)
      modifies this
      ensures reflection == old(reflection) + [Reflection(t, reflectionDepth)]
      ensures scopes == old(scopes) && reflectionDepth == old(reflectionDepth)
    {
      reflection := reflection + [Reflection(t, reflectionDepth)];
    }

    /** pop_reflection: the top reflection is dropped. The source has no guard for an empty stack. */
    method PopReflection()
      requires |reflection| > 0
      modifies this
      ensures reflection == old(reflection)[..|old(reflection)| - 1]
      ensures scopes == old(scopes) && reflectionDepth == old(reflectionDepth)
    {
      reflection := reflection[..|reflection| - 1];
    }
  }

  /** The free_identifier calls hashmap_free makes, one per stored identifier. */
  method FreeAll(all: seq<Identifier>)
    modifies all
    ensures forall id :: id in all ==> id.typ == Invalid && id.attributes == []
  {
    var k := 0;
    while k < |all|
      invariant 0 <= k <= |all|
      invariant forall m :: 0 <= m < k ==> all[m].typ == Invalid && all[m].attributes == []
    {
      all[k].Free();
      k := k + 1;
    }
  }

  /** A fresh scope holds no identifiers. */
  lemma {:induction false} NoValuesInEmptyBuckets(n: nat)
    ensures AllValues(seq<seq<Item<Identifier>>>(n, _ => [])) == []
  {
    if n > 0 {
      var b := seq<seq<Item<Identifier>>>(n, _ => []);
      assert b[..n - 1] == seq<seq<Item<Identifier>>>(n - 1, _ => []);
      NoValuesInEmptyBuckets(n - 1);
    }
  }

  /** Pushing a scope hides nothing: every name resolves as before. */
  lemma PushedScopeResolvesAsBefore(scopes: seq<Table>, name: seq<char>)
    requires HasBuckets(scopes)
    ensures HasBuckets(scopes + [EmptyScope()])
    ensures ResolveIn(scopes + [EmptyScope()], name) == ResolveIn(scopes, name)
  {
    assert (scopes + [EmptyScope()])[..|scopes|] == scopes;
  }

  /**
   * A name declared in the innermost scope resolves to that declaration,
   * shadowing any outer one. declaration (src/compiler/statement.c:15-19)
   * rejects a name the innermost scope already holds before it calls
   * hashmap_set, so the set as written appends and agrees with the intended one.
   */
  lemma DeclarationShadows(scopes: seq<Table>, name: seq<char>, id: Identifier)
    requires HasBuckets(scopes) && |scopes| > 0 && Lookup(scopes[|scopes| - 1], name) == None
    ensures var s := scopes[|scopes| - 1 := InsertedAsWritten(scopes[|scopes| - 1], name, id)];
            HasBuckets(s) && ResolveIn(s, name) == Some(id)
  {
    FreshNameSetAsIntended(scopes[|scopes| - 1], name, id);
    GetAfterSet(scopes[|scopes| - 1], name, id);
  }

  /** Declaring a fresh name in the innermost scope leaves every other name resolving as before. */
  lemma DeclarationLeavesOthers(scopes: seq<Table>, name: seq<char>, id: Identifier, other: seq<char>)
    requires HasBuckets(scopes) && |scopes| > 0 && other != name && Lookup(scopes[|scopes| - 1], name) == None
    ensures var s := scopes[|scopes| - 1 := InsertedAsWritten(scopes[|scopes| - 1], name, id)];
            HasBuckets(s) && ResolveIn(s, other) == ResolveIn(scopes, other)
  {
    var s := scopes[|scopes| - 1 := InsertedAsWritten(scopes[|scopes| - 1], name, id)];
    FreshNameSetAsIntended(scopes[|scopes| - 1], name, id);
    GetAfterSetOther(scopes[|scopes| - 1], name, id, other);
    assert s[..|s| - 1] == scopes[..|scopes| - 1];
  }

  /** For a name the table does not hold, hashmap_set as written is the intended set. */
  lemma FreshNameSetAsIntended(t: Table, name: seq<char>, id: Identifier)
    requires |t| > 0 && Lookup(t, name) == None
    ensures InsertedAsWritten(t, name, id) == Inserted(t, name, id)
  {
    assert FindIn(t[BucketOf(name, |t|)], name) == None;
  }

  /** Pushing a scope and popping it again leaves both stacks as they were. */
  method ScopeRoundTrip(S: CompilerState)
    requires S.Valid()
    modifies S
    ensures S.Valid() && S.scopes == old(S.scopes) && S.reflection == old(S.reflection)
  {
    var _ := S.PushScope();
    NoValuesInEmptyBuckets(SCOPE_BUCKETS);
    S.PopScope();
    assert S.scopes == old(S.scopes);
  }
}

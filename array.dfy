/**
 * The generic growable array of include/common/array.h
 * (GRAMINA_IMPLEMENT_ARRAY): a heap buffer `items` whose size is the
 * capacity, and a `length` counting the items in use.
 *
 * Other modules keep their arrays as sequences; this class models the
 * buffer operations once.
 */
module Arrays {
  import opened Wrappers

  function Max(a: nat, b: nat): nat { if a >= b then a else b }

  /** GRAMINA_ARRAY_GROW_EXP: the capacity after one growth step. */
  function GrowExp(cap: nat): nat { cap * 3 / 2 }

  /** The capacity __gramina_array_grow_at_least leaves when at least n items are needed. */
  function GrownCapacity(cap: nat, n: nat): (c: nat)
    ensures c >= n && c >= cap
    ensures cap < n ==> c == Max(GrowExp(cap), n)
  {
    if cap >= n then cap else Max(GrowExp(cap), n)
  }

  /** Growing is only ever by half the capacity at least, so appends reallocate rarely. */
  lemma GrowthIsGeometric(cap: nat)
    requires cap >= 2
    ensures GrownCapacity(cap, cap + 1) == cap * 3 / 2
    ensures GrownCapacity(cap, cap + 1) >= cap + cap / 2
  {
  }

  class Array<T(0)> {
    var items: array<T>
    var length: nat

    ghost predicate Valid()
      reads this
    {
      length <= items.Length
    }

    /** The items in use. */
    function Contents(): seq<T>
      reads this, items
      requires Valid()
    {
      items[..length]
    }

    function Capacity(): nat
      reads this
    {
      items.Length
    }

    /** mk_array: no buffer, no items. */
    constructor Empty()
      ensures Valid() && fresh(items) && Contents() == [] && Capacity() == 0
    {
      items := new T[0];
      length := 0;
    }

    /** mk_array_capacity: an empty array whose buffer holds cap items. */
    constructor WithCapacity(cap: nat)
      ensures Valid() && fresh(items) && Contents() == [] && Capacity() == cap
    {
      items := new T[cap];
      length := 0;
    }

    /** mk_array_prefilled: n copies of v. */
    constructor Prefilled(n: nat, v: T)
      ensures Valid() && fresh(items) && Capacity() == n
      ensures Contents() == seq(n, _ => v)
    {
      items := new T[n];
      length := n;
      new;
      var i := 0;
      while i < n
        modifies items
        invariant 0 <= i <= n && length == n && items.Length == n
        invariant forall k :: 0 <= k < i ==> items[k] == v
      {
        items[i] := v;
        i := i + 1;
      }
    }

    /** mk_array_c: a copy of a C array of n items. */
    constructor FromSeq(c: seq<T>)
      ensures Valid() && fresh(items) && Capacity() == |c| && Contents() == c
    {
      items := new T[|c|];
      length := |c|;
      new;
      var i := 0;
      while i < |c|
        modifies items
        invariant 0 <= i <= |c| && length == |c| && items.Length == |c|
        invariant forall k :: 0 <= k < i ==> items[k] == c[k]
      {
        items[i] := c[i];
        i := i + 1;
      }
    }

    /** The realloc step: a fresh buffer of newCap items holding the same items in use. */
    method Realloc(newCap: nat)
      requires Valid() && length <= newCap
      modifies this
      ensures Valid() && fresh(items) && items.Length == newCap
      ensures length == old(length) && Contents() == old(Contents())
    {
      var fresh_ := new T[newCap];
      var i := 0;
      while i < length
        invariant 0 <= i <= length <= items.Length && length <= fresh_.Length == newCap
        invariant length == old(length) && items == old(items)
        invariant forall k :: 0 <= k < i ==> fresh_[k] == items[k]
      {
        fresh_[i] := items[i];
        i := i + 1;
      }
      assert fresh_[..length] == items[..length];
      items := fresh_;
    }

    /** __gramina_array_grow_at_least. */
    method GrowAtLeast(n: nat)
      requires Valid()
      modifies this
      ensures Valid() && length == old(length) && Contents() == old(Contents())
      ensures Capacity() == GrownCapacity(old(Capacity()), n)
      ensures old(Capacity()) >= n ==> items == old(items)
      ensures old(Capacity()) < n ==> fresh(items)
    {
      if items.Length >= n {
        return;
      }
      var cap := GrowExp(items.Length);
      if cap < n {
        cap := n;
      }
      Realloc(cap);
    }

    /** array_reserve: the capacity becomes minCap exactly when it was smaller. */
    method Reserve(minCap: nat)
      requires Valid()
      modifies this
      ensures Valid() && length == old(length) && Contents() == old(Contents())
      ensures Capacity() == Max(old(Capacity()), minCap)
    {
      if items.Length >= minCap {
        return;
      }
      Realloc(minCap);
    }

    /** array_append: v becomes the last item; the items before it are unchanged. */
    method Append(v: T)
      requires Valid()
      modifies this, items
      ensures Valid() && Contents() == old(Contents()) + [v]
      ensures Capacity() == GrownCapacity(old(Capacity()), old(length) + 1)
    {
      GrowAtLeast(length + 1);
      items[length] := v;
      length := length + 1;
    }

    /** array_pop: drops the last item; a no-op on an empty array. */
    method Pop()
      requires Valid()
      modifies this
      ensures Valid() && items == old(items)
      ensures Contents() == if old(length) == 0 then [] else old(Contents())[..old(length) - 1]
    {
      if length != 0 {
        length := length - 1;
      }
    }

    /** array_remove: deletes the item at index, keeping the order of the rest; a no-op out of range. */
    method Remove(index: nat)
      requires Valid()
      modifies this, items
      ensures Valid() && items == old(items)
      ensures index >= old(length) ==> Contents() == old(Contents())
      ensures index < old(length) ==> Contents() == old(Contents())[..index] + old(Contents())[index + 1..]
    {
      if index >= length {
        return;
      }
      ghost var s := items[..length];
      var i := index;
      while i < length - 1
        invariant index <= i <= length - 1
        invariant length == |s| && items == old(items)
        invariant forall k :: 0 <= k < index ==> items[k] == s[k]
        invariant forall k :: index <= k < i ==> items[k] == s[k + 1]
        invariant forall k :: i <= k < length ==> items[k] == s[k]
      {
        items[i] := items[i + 1];
        i := i + 1;
      }
      Pop();
      assert Contents() == s[..index] + s[index + 1..] by {
        forall k | 0 <= k < |s| - 1
          ensures Contents()[k] == (s[..index] + s[index + 1..])[k]
        {
          if k < index {
          } else {
            assert Contents()[k] == s[k + 1];
          }
        }
      }
    }

    /** array_slice: the window [start, end) of the items in use. */
    function Slice(start: nat, end: nat): (w: seq<T>)
      reads this, items
      requires Valid() && start <= end <= length
      ensures |w| == end - start
      ensures forall k :: 0 <= k < |w| ==> w[k] == Contents()[start + k]
    {
      items[start..end]
    }

    /** array_last: the last item, or nothing on an empty array. */
    function Last(): (r: Option<T>)
      reads this, items
      requires Valid()
      ensures r.None? <==> Contents() == []
      ensures r.Some? ==> r.value == Contents()[|Contents()| - 1]
    {
      if length == 0 then None else Some(items[length - 1])
    }

    /**
     * array_dup as written: a buffer of the same capacity receives a copy of
     * every item, but the copy's length is never set and stays 0.
     */
    method DupAsWritten() returns (that: Array<T>)
      requires Valid()
      ensures fresh(that) && fresh(that.items) && that.Valid()
      ensures that.Capacity() == Capacity() && that.items[..length] == Contents()
      ensures that.Contents() == []
      ensures Contents() != [] ==> that.Contents() != Contents()
    {
      that := new Array.WithCapacity(items.Length);
      var i := 0;
      while i < length
        modifies that.items
        invariant 0 <= i <= length
        invariant that.length == 0 && that.items.Length == items.Length
        invariant forall k :: 0 <= k < i ==> that.items[k] == items[k]
      {
        that.items[i] := items[i];
        i := i + 1;
      }
    }

    /** array_dup as intended: the copy also takes over the length, so it holds the same items. */
    method Dup() returns (that: Array<T>)
      requires Valid()
      ensures fresh(that) && fresh(that.items) && that.Valid()
      ensures that.Capacity() == Capacity() && that.Contents() == Contents()
    {
      that := new Array.WithCapacity(items.Length);
      var i := 0;
      while i < length
        modifies that.items
        invariant 0 <= i <= length
        invariant that.length == 0 && that.items.Length == items.Length
        invariant forall k :: 0 <= k < i ==> that.items[k] == items[k]
      {
        that.items[i] := items[i];
        i := i + 1;
      }
      that.length := length;
    }

    /** array_free: no buffer and no items. */
    method Free()
      modifies this
      ensures Valid() && Contents() == [] && Capacity() == 0
    {
      items := new T[0];
      length := 0;
    }
  }

  /** Appending then popping gives back the same items. */
  method AppendThenPop<T(0)>(a: Array<T>, v: T)
    requires a.Valid()
    modifies a, a.items
    ensures a.Valid() && a.Contents() == old(a.Contents())
  {
    a.Append(v);
    a.Pop();
  }

  /** Removing the item at index keeps every other item, in order, and shortens the array by one. */
  lemma RemoveKeepsOthers<T>(s: seq<T>, index: nat)
    requires index < |s|
    ensures var r := s[..index] + s[index + 1..];
            |r| == |s| - 1 &&
            (forall k :: 0 <= k < index ==> r[k] == s[k]) &&
            (forall k :: index <= k < |r| ==> r[k] == s[k + 1])
  {
  }
}

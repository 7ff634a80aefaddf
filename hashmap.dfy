/**
 * The string-keyed hash map of src/common/hashmap.c: a fixed number of
 * buckets, each an array of (key, value) items searched in order. The
 * buckets are a sequence of sequences that the methods reassign; values
 * stand for the `void *` the map stores, and `released` records the values
 * handed to `object_freer`.
 */
module Hashmaps {
  import opened Wrappers
  import Str

  const FNV_OFFSET: bv64 := 0xCBF2_9CE4_8422_2325
  const FNV_PRIME: bv64 := 0x100_0000_01B3

  /**
   * A key byte as hash_str mixes it in: `char` is signed, so a byte of
   * 0x80 or more is sign-extended to 64 bits before the exclusive or.
   */
  function ByteBits(c: char): bv64
  {
    var u := (c as int) % 256;
    if u < 128 then u as bv64 else (u as bv64) | 0xFFFF_FFFF_FFFF_FF00
  }

  /** One FNV-1a round: exclusive or with the byte, then multiplication by the prime, modulo 2^64. */
  function Mix(h: bv64, c: char): bv64
  {
    (h ^ ByteBits(c)) * FNV_PRIME
  }

  /** The rounds over the bytes of s, starting from the hash h. */
  function HashFrom(h: bv64, s: seq<char>): bv64
    decreases |s|
  {
    if |s| == 0 then h else HashFrom(Mix(h, s[0]), s[1..])
  }

  /** hash_str: FNV-1a over the key, from the offset basis. */
  function Hash(s: seq<char>): bv64
  {
    HashFrom(FNV_OFFSET, s)
  }

  /** Hashing a concatenation continues from the hash of its first part. */
  lemma {:induction false} HashFromConcat(h: bv64, s: seq<char>, t: seq<char>)
    ensures HashFrom(h, s + t) == HashFrom(HashFrom(h, s), t)
    decreases |s|
  {
    if |s| > 0 {
      assert (s + t)[1..] == s[1..] + t;
      HashFromConcat(Mix(h, s[0]), s[1..], t);
    } else {
      assert s + t == t;
    }
  }

  /** Keys that share a prefix hash alike after it: the hash is a left fold. */
  lemma HashOfConcat(s: seq<char>, t: seq<char>)
    ensures Hash(s + t) == HashFrom(Hash(s), t)
  {
    HashFromConcat(FNV_OFFSET, s, t);
  }

  /** hash_str, as the loop over the key's bytes. */
  method HashStr(s: seq<char>) returns (h: bv64)
    ensures h == Hash(s)
  {
    h := FNV_OFFSET;
    var i := 0;
    while i < |s|
      invariant 0 <= i <= |s|
      invariant HashFrom(h, s[i..]) == Hash(s)
    {
      assert s[i..][1..] == s[i + 1..];
      h := Mix(h, s[i]);
      i := i + 1;
    }
  }

  /** get_bucket: the hash modulo the bucket count. */
  function BucketOf(key: seq<char>, nBuckets: nat): (i: nat)
    requires nBuckets > 0
    ensures i < nBuckets
  {
    (Hash(key) as int) % nBuckets
  }

  datatype Item<V> = Item(key: seq<char>, value: V)

  /** The index of the first item of a bucket with the given key. */
  function FindIn<V>(bucket: seq<Item<V>>, key: seq<char>): (r: Option<nat>)
    ensures r.Some? ==> r.value < |bucket| && bucket[r.value].key == key
    ensures r.Some? ==> forall m :: 0 <= m < r.value ==> bucket[m].key != key
    ensures r.None? ==> forall m :: 0 <= m < |bucket| ==> bucket[m].key != key
  {
    if |bucket| == 0 then None
    else if bucket[0].key == key then Some(0)
    else match FindIn(bucket[1..], key)
      case None => None
      case Some(j) => Some(j + 1)
  }

  /** The value of the first item with the given key. */
  function LookupIn<V>(bucket: seq<Item<V>>, key: seq<char>): Option<V>
  {
    match FindIn(bucket, key)
    case None => None
    case Some(j) => Some(bucket[j].value)
  }

  /** hashmap_get: the value under an equal key in the key's bucket, or nothing. */
  function Lookup<V>(buckets: seq<seq<Item<V>>>, key: seq<char>): Option<V>
    requires |buckets| > 0
  {
    LookupIn(buckets[BucketOf(key, |buckets|)], key)
  }

  /** hashmap_set as intended: an existing entry takes the new value; otherwise one entry is appended. */
  function Inserted<V>(buckets: seq<seq<Item<V>>>, key: seq<char>, v: V): (r: seq<seq<Item<V>>>)
    requires |buckets| > 0
    ensures |r| == |buckets|
    ensures forall i :: 0 <= i < |r| && i != BucketOf(key, |buckets|) ==> r[i] == buckets[i]
  {
    var i := BucketOf(key, |buckets|);
    match FindIn(buckets[i], key)
    case None => buckets[i := buckets[i] + [Item(key, v)]]
    case Some(j) => buckets[i := buckets[i][j := Item(key, v)]]
  }

  /**
   * hashmap_set as written: an existing entry takes the new value, but its
   * key string is freed, which leaves it empty.
   */
  function InsertedAsWritten<V>(buckets: seq<seq<Item<V>>>, key: seq<char>, v: V): (r: seq<seq<Item<V>>>)
    requires |buckets| > 0
    ensures |r| == |buckets|
  {
    var i := BucketOf(key, |buckets|);
    match FindIn(buckets[i], key)
    case None => buckets[i := buckets[i] + [Item(key, v)]]
    case Some(j) => buckets[i := buckets[i][j := Item([], v)]]
  }

  /** hashmap_remove: the first entry with the key goes; the others keep their order. */
  function Deleted<V>(buckets: seq<seq<Item<V>>>, key: seq<char>): (r: seq<seq<Item<V>>>)
    requires |buckets| > 0
    ensures |r| == |buckets|
    ensures forall i :: 0 <= i < |r| && i != BucketOf(key, |buckets|) ==> r[i] == buckets[i]
  {
    var i := BucketOf(key, |buckets|);
    match FindIn(buckets[i], key)
    case None => buckets
    case Some(j) => buckets[i := buckets[i][..j] + buckets[i][j + 1..]]
  }

  /** The value found before a set, if the key was present: object_freer receives it. */
  function Replaced<V>(buckets: seq<seq<Item<V>>>, key: seq<char>): seq<V>
    requires |buckets| > 0
  {
    match Lookup(buckets, key)
    case None => []
    case Some(v) => [v]
  }

  /** Every value stored, bucket by bucket, in order. */
  function AllValues<V>(buckets: seq<seq<Item<V>>>): seq<V>
  {
    if |buckets| == 0 then [] else AllValues(buckets[..|buckets| - 1]) + ValuesOf(buckets[|buckets| - 1])
  }

  function ValuesOf<V>(bucket: seq<Item<V>>): (vs: seq<V>)
    ensures |vs| == |bucket|
    ensures forall k :: 0 <= k < |bucket| ==> vs[k] == bucket[k].value
  {
    if |bucket| == 0 then [] else [bucket[0].value] + ValuesOf(bucket[1..])
  }

  /** No bucket holds two items with the same key. */
  ghost predicate UniqueKeys<V>(buckets: seq<seq<Item<V>>>)
  {
    forall i, j, k :: 0 <= i < |buckets| && 0 <= j < k < |buckets[i]| ==> buckets[i][j].key != buckets[i][k].key
  }

  // ----- lemmas about the table operations -----

  /** Appending an item with another key does not change what a key finds. */
  lemma LookupInAppendOther<V>(bucket: seq<Item<V>>, it: Item<V>, key: seq<char>)
    requires it.key != key
    ensures LookupIn(bucket + [it], key) == LookupIn(bucket, key)
  {
    var b2 := bucket + [it];
    assert forall m :: 0 <= m < |bucket| ==> b2[m] == bucket[m];
    match FindIn(bucket, key)
    case None => FindInAbsent(b2, key);
    case Some(p) => FindInFirst(b2, key, p);
  }

  /** Overwriting an item that holds one key does not change what another key finds. */
  lemma LookupInUpdateOther<V>(bucket: seq<Item<V>>, j: nat, it: Item<V>, key: seq<char>)
    requires j < |bucket| && bucket[j].key != key && it.key != key
    ensures LookupIn(bucket[j := it], key) == LookupIn(bucket, key)
  {
    var b2 := bucket[j := it];
    match FindIn(bucket, key)
    case None => FindInAbsent(b2, key);
    case Some(p) => FindInFirst(b2, key, p);
  }

  /** Removing an item that holds one key does not change what another key finds. */
  lemma LookupInRemoveOther<V>(bucket: seq<Item<V>>, j: nat, key: seq<char>)
    requires j < |bucket| && bucket[j].key != key
    ensures LookupIn(bucket[..j] + bucket[j + 1..], key) == LookupIn(bucket, key)
  {
    var b2 := bucket[..j] + bucket[j + 1..];
    assert forall m :: 0 <= m < j ==> b2[m] == bucket[m];
    assert forall m :: j <= m < |b2| ==> b2[m] == bucket[m + 1];
    match FindIn(bucket, key)
    case None =>
      forall m | 0 <= m < |b2|
        ensures b2[m].key != key
      {
        if m >= j {
          assert b2[m] == bucket[m + 1];
        }
      }
      FindInAbsent(b2, key);
    case Some(p) =>
      var shifted := if p < j then p else p - 1;
      assert b2[shifted] == bucket[p];
      forall m | 0 <= m < shifted
        ensures b2[m].key != key
      {
        if m >= j {
          assert b2[m] == bucket[m + 1];
        }
      }
      FindInFirst(b2, key, shifted);
  }

  /** After a set, the key finds the new value. */
  lemma GetAfterSet<V>(buckets: seq<seq<Item<V>>>, key: seq<char>, v: V)
    requires |buckets| > 0
    ensures Lookup(Inserted(buckets, key, v), key) == Some(v)
  {
    var i := BucketOf(key, |buckets|);
    var b := buckets[i];
    match FindIn(b, key)
    case None =>
      var b2 := b + [Item(key, v)];
      assert forall m :: 0 <= m < |b| ==> b2[m] == b[m];
      FindInFirst(b2, key, |b|);
    case Some(j) =>
      FindInFirst(b[j := Item(key, v)], key, j);
  }

  /** A set does not change what any other key finds. */
  lemma GetAfterSetOther<V>(buckets: seq<seq<Item<V>>>, key: seq<char>, v: V, other: seq<char>)
    requires |buckets| > 0 && other != key
    ensures Lookup(Inserted(buckets, key, v), other) == Lookup(buckets, other)
  {
    var i := BucketOf(key, |buckets|);
    if BucketOf(other, |buckets|) == i {
      match FindIn(buckets[i], key)
      case None => LookupInAppendOther(buckets[i], Item(key, v), other);
      case Some(j) => LookupInUpdateOther(buckets[i], j, Item(key, v), other);
    }
  }

  /** A set keeps every bucket free of duplicate keys. */
  lemma SetKeepsKeysUnique<V>(buckets: seq<seq<Item<V>>>, key: seq<char>, v: V)
    requires |buckets| > 0 && UniqueKeys(buckets)
    ensures UniqueKeys(Inserted(buckets, key, v))
  {
    var i := BucketOf(key, |buckets|);
    var r: seq<seq<Item<V>>> := Inserted(buckets, key, v);
    forall a: int, j: int, k: int | 0 <= a < |r| && 0 <= j < k < |r[a]|
      ensures r[a][j].key != r[a][k].key
    {
      if a == i {
        match FindIn(buckets[i], key)
        case None =>
          if k == |buckets[i]| {
            assert r[a][j] == buckets[i][j];
          } else {
            assert r[a][j] == buckets[i][j] && r[a][k] == buckets[i][k];
          }
        case Some(m) =>
      }
    }
  }

  /** With unique keys, a removed key is gone and every other key is untouched. */
  lemma GetAfterRemove<V>(buckets: seq<seq<Item<V>>>, key: seq<char>, other: seq<char>)
    requires |buckets| > 0 && UniqueKeys(buckets)
    ensures Lookup(Deleted(buckets, key), key) == None
    ensures other != key ==> Lookup(Deleted(buckets, key), other) == Lookup(buckets, other)
  {
    var i := BucketOf(key, |buckets|);
    var b := buckets[i];
    match FindIn(b, key)
    case None =>
    case Some(j) =>
      var b2 := b[..j] + b[j + 1..];
      forall m | 0 <= m < |b2|
        ensures b2[m].key != key
      {
        if m < j {
          assert b2[m] == b[m];
        } else {
          assert b2[m] == b[m + 1];
          assert b[j].key != b[m + 1].key;
        }
      }
      if other != key && BucketOf(other, |buckets|) == i {
        LookupInRemoveOther(b, j, other);
      }
  }

  /**
   * As written, setting a new key twice loses it: the second set frees the
   * entry's key, so the entry no longer matches.
   */
  lemma OverwriteLosesKey<V>(buckets: seq<seq<Item<V>>>, key: seq<char>, v1: V, v2: V)
    requires |buckets| > 0 && key != [] && Lookup(buckets, key) == None
    ensures Lookup(InsertedAsWritten(InsertedAsWritten(buckets, key, v1), key, v2), key) == None
    ensures Lookup(Inserted(Inserted(buckets, key, v1), key, v2), key) == Some(v2)
  {
    SecondSetMisses(buckets, key, v1, v2);
    GetAfterSet(Inserted(buckets, key, v1), key, v2);
  }

  /** The as-written half: after the second set the entry's key is empty. */
  lemma SecondSetMisses<V>(buckets: seq<seq<Item<V>>>, key: seq<char>, v1: V, v2: V)
    requires |buckets| > 0 && key != [] && Lookup(buckets, key) == None
    ensures Lookup(InsertedAsWritten(InsertedAsWritten(buckets, key, v1), key, v2), key) == None
  {
    var i := BucketOf(key, |buckets|);
    var b := buckets[i];
    var b1 := b + [Item(key, v1)];
    assert FindIn(b, key).None?;
    var w1 := InsertedAsWritten(buckets, key, v1);
    assert w1 == buckets[i := b1];
    assert FindIn(b1, key) == Some(|b|) by {
      assert b1[|b|].key == key;
      assert forall m :: 0 <= m < |b| ==> b1[m] == b[m];
    }
    var b2 := b1[|b| := Item([], v2)];
    assert InsertedAsWritten(w1, key, v2)[i] == b2;
    assert forall m :: 0 <= m < |b2| ==> b2[m].key != key by {
      assert forall m :: 0 <= m < |b| ==> b2[m] == b[m];
    }
    assert FindIn(b2, key).None?;
  }

  /** The lookup hashmap_get performs, on the buckets of any map. */
  method Find<V>(buckets: seq<seq<Item<V>>>, key: seq<char>) returns (r: Option<V>)
    requires |buckets| > 0
    ensures r == Lookup(buckets, key)
  {
    var h := HashStr(key);
    var i := (h as int) % |buckets|;
    var j := Hashmap.Scan(buckets[i], key);
    if j.None? {
      return None;
    }
    return Some(buckets[i][j.value].value);
  }

  /** The hash map itself. */
  class Hashmap<V> {
    var buckets: seq<seq<Item<V>>>
    var objectFreer: bool
    /** Values passed to object_freer, oldest first. */
    var released: seq<V>

    /** mk_hashmap: n empty buckets and no object_freer; with n == 0 there are no buckets at all. */
    constructor (nBuckets: nat)
      ensures buckets == seq(nBuckets, _ => []) && !objectFreer && released == []
    {
      buckets := seq(nBuckets, _ => []);
      objectFreer := false;
      released := [];
    }

    /** The bucket scan each operation performs with sv_cmp. */
    static method Scan(bucket: seq<Item<V>>, key: seq<char>) returns (r: Option<nat>)
      ensures r == FindIn(bucket, key)
    {
      var j := 0;
      while j < |bucket|
        invariant 0 <= j <= |bucket|
        invariant forall m :: 0 <= m < j ==> bucket[m].key != key
      {
        var c := Str.SvCmp(bucket[j].key, key);
        if c == 0 {
          FindInFirst(bucket, key, j);
          return Some(j);
        }
        j := j + 1;
      }
      return None;
    }

    /** hashmap_get. */
    method Get(key: seq<char>) returns (r: Option<V>)
      requires |buckets| > 0
      ensures r == Lookup(buckets, key)
    {
      r := Find(buckets, key);
    }

    /** hashmap_set as intended. */
    method Set(key: seq<char>, v: V)
      requires |buckets| > 0
      modifies this
      ensures buckets == Inserted(old(buckets), key, v) && objectFreer == old(objectFreer)
      ensures released == old(released) + (if objectFreer then Replaced(old(buckets), key) else [])
    {
      var h := HashStr(key);
      var i := (h as int) % |buckets|;
      var j := Scan(buckets[i], key);
      if j.Some? {
        if objectFreer {
          released := released + [buckets[i][j.value].value];
        }
        buckets := buckets[i := buckets[i][j.value := Item(key, v)]];
        return;
      }
      buckets := buckets[i := buckets[i] + [Item(key, v)]];
    }

    /** hashmap_set as written: the matched entry's key is freed along with the old value. */
    method SetAsWritten(key: seq<char>, v: V)
      requires |buckets| > 0
      modifies this
      ensures buckets == InsertedAsWritten(old(buckets), key, v) && objectFreer == old(objectFreer)
      ensures released == old(released) + (if objectFreer then Replaced(old(buckets), key) else [])
    {
      var h := HashStr(key);
      var i := (h as int) % |buckets|;
      var j := Scan(buckets[i], key);
      if j.Some? {
        if objectFreer {
          released := released + [buckets[i][j.value].value];
        }
        buckets := buckets[i := buckets[i][j.value := Item([], v)]];
        return;
      }
      buckets := buckets[i := buckets[i] + [Item(key, v)]];
    }

    /** hashmap_remove: the value goes to object_freer and the entry is removed; a no-op for an absent key. */
    method Remove(key: seq<char>)
      requires |buckets| > 0
      modifies this
      ensures buckets == Deleted(old(buckets), key) && objectFreer == old(objectFreer)
      ensures released == old(released) + (if objectFreer then Replaced(old(buckets), key) else [])
    {
      var h := HashStr(key);
      var i := (h as int) % |buckets|;
      var j := Scan(buckets[i], key);
      if j.None? {
        return;
      }
      if objectFreer {
        released := released + [buckets[i][j.value].value];
      }
      buckets := buckets[i := buckets[i][..j.value] + buckets[i][j.value + 1..]];
    }

    /**
     * hashmap_dup as written: each bucket is copied by array_dup, whose copy
     * keeps length 0, so the duplicate has the right number of buckets and
     * no entries.
     */
    method DupAsWritten() returns (that: Hashmap<V>)
      ensures fresh(that)
      ensures that.buckets == seq(|buckets|, _ => []) && that.objectFreer == objectFreer && that.released == []
    {
      that := new Hashmap(|buckets|);
      that.objectFreer := objectFreer;
    }

    /** hashmap_dup, with each bucket copied by the corrected array_dup. */
    method Dup() returns (that: Hashmap<V>)
      ensures fresh(that)
      ensures that.buckets == buckets && that.objectFreer == objectFreer && that.released == []
    {
      that := new Hashmap(|buckets|);
      that.objectFreer := objectFreer;
      var i := 0;
      while i < |buckets|
        modifies that
        invariant 0 <= i <= |buckets| == |that.buckets|
        invariant that.objectFreer == objectFreer && that.released == []
        invariant that.buckets[..i] == buckets[..i]
      {
        that.buckets := that.buckets[i := buckets[i]];
        i := i + 1;
      }
      assert that.buckets == that.buckets[..|buckets|];
    }

    /**
     * hashmap_free: every stored value goes to object_freer, bucket by bucket.
     * The model empties `buckets`; the C frees the bucket arrays but leaves
     * n_buckets as it was.
     */
    method Free()
      modifies this
      ensures buckets == [] && !objectFreer
      ensures released == old(released) + (if old(objectFreer) then AllValues(old(buckets)) else [])
    {
      if objectFreer {
        var all := Collect(buckets);
        released := released + all;
      }
      buckets := [];
      objectFreer := false;
    }

    /** The walk over every bucket and item that hashmap_free makes. */
    static method Collect(b: seq<seq<Item<V>>>) returns (all: seq<V>)
      ensures all == AllValues(b)
    {
      all := [];
      var i := 0;
      while i < |b|
        invariant 0 <= i <= |b|
        invariant all == AllValues(b[..i])
      {
        AllValuesStep(b, i);
        all := all + ValuesOf(b[i]);
        i := i + 1;
      }
      assert b[..|b|] == b;
    }
  }

  lemma AllValuesStep<V>(b: seq<seq<Item<V>>>, i: nat)
    requires i < |b|
    ensures AllValues(b[..i + 1]) == AllValues(b[..i]) + ValuesOf(b[i])
  {
    assert b[..i + 1][..i] == b[..i];
  }

  /** A scan hit at the first matching index is what FindIn returns. */
  lemma FindInFirst<V>(bucket: seq<Item<V>>, key: seq<char>, j: nat)
    requires j < |bucket| && bucket[j].key == key
    requires forall m :: 0 <= m < j ==> bucket[m].key != key
    ensures FindIn(bucket, key) == Some(j)
  {
  }

  /** A bucket without the key finds nothing. */
  lemma FindInAbsent<V>(bucket: seq<Item<V>>, key: seq<char>)
    requires forall m :: 0 <= m < |bucket| ==> bucket[m].key != key
    ensures FindIn(bucket, key) == None
  {
  }

  /** A copy made by the as-written hashmap_dup finds no key, whatever the original held. */
  lemma DupAsWrittenFindsNothing<V>(buckets: seq<seq<Item<V>>>, key: seq<char>, v: V)
    requires |buckets| > 0
    ensures Lookup(Inserted(buckets, key, v), key) == Some(v)
    ensures Lookup(seq<seq<Item<V>>>(|Inserted(buckets, key, v)|, _ => []), key) == None
  {
    GetAfterSet(buckets, key, v);
  }

  /** A fresh map finds nothing. */
  lemma FreshMapIsEmpty<V>(n: nat, key: seq<char>)
    requires n > 0
    ensures Lookup(seq<seq<Item<V>>>(n, _ => []), key) == None
  {
  }
}

/**
 * `IndexingService`: the flag index of a record store, an `AVLTree` from a
 * single-bit flag to the indexes of the records carrying it.  A record is
 * indexed under each bit of its flags byte; `MetadataFlags.None` is bit 0,
 * so a record flagged `None` sits in the bucket of key 1.
 *
 * The index is specified by its buckets, the list of indexes each key
 * holds (`Bucket`), and each operation by what it does to every bucket.
 */
module IndexingServices {
  import opened Bytes
  import opened SortedEntries
  import opened AVLTrees
  import opened Metadatas
  import opened BitFields

  /** The values stored under key `k`, none when the key is absent. */
  function Bucket(es: seq<Entry<int>>, k: int): seq<int>
  {
    var o := Lookup(es, k);
    if o.Some? then o.value else []
  }

  /** The key of the flag whose only bit is bit `j`. */
  function FlagKey(j: nat): int
    requires j < 8
  {
    Mask(j) as int
  }

  /** Distinct bits have distinct keys. */
  lemma FlagKeyInjective(j: nat, m: nat)
    requires j < 8 && m < 8 && j != m
    ensures FlagKey(j) != FlagKey(m)
  {
  }

  /** Whether `k` is the key of a bit of `flags` at position `j` or above. */
  predicate KeyOf(flags: bv8, k: int, j: nat)
    requires j <= 8
    decreases 8 - j
  {
    j < 8 && ((BitOf(flags, j) && FlagKey(j) == k) || KeyOf(flags, k, j + 1))
  }

  /** The key of a set bit is a key of the flags. */
  lemma {:induction false} KeyOfBit(flags: bv8, j: nat, m: nat)
    requires j <= m < 8 && BitOf(flags, m)
    ensures KeyOf(flags, FlagKey(m), j)
    decreases m - j
  {
    if j < m {
      KeyOfBit(flags, j + 1, m);
    }
  }

  /** A key of the flags is the key of one of their set bits. */
  lemma {:induction false} KeyOfInverse(flags: bv8, k: int, j: nat) returns (m: nat)
    requires j <= 8 && KeyOf(flags, k, j)
    ensures j <= m < 8 && BitOf(flags, m) && FlagKey(m) == k
    decreases 8 - j
  {
    if BitOf(flags, j) && FlagKey(j) == k {
      m := j;
    } else {
      m := KeyOfInverse(flags, k, j + 1);
    }
  }

  // ---------------------------------------------------- buckets of the tree

  /** `Put` replaces one bucket. */
  lemma BucketPut(es: seq<Entry<int>>, k: int, vs: seq<int>, x: int)
    ensures Bucket(Put(es, k, vs), x) == if x == k then vs else Bucket(es, x)
  {
    PutLookup(es, k, vs, x);
  }

  /** `Remove` empties one bucket. */
  lemma BucketRemove(es: seq<Entry<int>>, k: int, x: int)
    requires Sorted(es)
    ensures Bucket(Remove(es, k), x) == if x == k then [] else Bucket(es, x)
  {
    RemoveSpec(es, k, x);
  }

  /** The tree's `Add(k, idx)`, keeping the values already there. */
  function AddUnder(es: seq<Entry<int>>, k: int, idx: int): seq<Entry<int>>
  {
    Put(es, k, AddedValues(Lookup(es, k), idx, false))
  }

  /** The tree's `Remove(k, idx)`: the first occurrence goes, and the key once its list is empty. */
  function RemoveUnder(es: seq<Entry<int>>, k: int, idx: int): seq<Entry<int>>
  {
    var o := Lookup(es, k);
    if o.None? then es
    else if RemoveFirst(o.value, idx).1 == [] then Remove(es, k)
    else Put(es, k, RemoveFirst(o.value, idx).1)
  }

  lemma BucketAdd(es: seq<Entry<int>>, k: int, idx: int, x: int)
    ensures Sorted(es) ==> Sorted(AddUnder(es, k, idx))
    ensures Bucket(AddUnder(es, k, idx), x) == if x == k then Bucket(es, k) + [idx] else Bucket(es, x)
  {
    BucketPut(es, k, AddedValues(Lookup(es, k), idx, false), x);
    if Sorted(es) {
      PutSorted(es, k, AddedValues(Lookup(es, k), idx, false));
    }
  }

  lemma BucketRemoveUnder(es: seq<Entry<int>>, k: int, idx: int, x: int)
    requires Sorted(es)
    ensures Sorted(RemoveUnder(es, k, idx))
    ensures Bucket(RemoveUnder(es, k, idx), x) == if x == k then RemoveFirst(Bucket(es, k), idx).1 else Bucket(es, x)
  {
    var o := Lookup(es, k);
    if o.Some? {
      var rest := RemoveFirst(o.value, idx).1;
      if rest == [] {
        BucketRemove(es, k, x);
        RemoveSpec(es, k, x);
      } else {
        BucketPut(es, k, rest, x);
        PutSorted(es, k, rest);
      }
    }
  }

  // ------------------------------------------------------ the index's folds

  /** `IndexByFlags` from bit `j` on: the index is added under the key of every set bit. */
  function IndexedFrom(es: seq<Entry<int>>, flags: bv8, idx: int, j: nat): seq<Entry<int>>
    requires j <= 8
    decreases 8 - j
  {
    if j == 8 then es
    else IndexedFrom(if BitOf(flags, j) then AddUnder(es, FlagKey(j), idx) else es, flags, idx, j + 1)
  }

  /** Removal from bit `j` on: one occurrence of the index leaves the bucket of every set bit. */
  function RemovedFrom(es: seq<Entry<int>>, flags: bv8, idx: int, j: nat): seq<Entry<int>>
    requires j <= 8
    decreases 8 - j
  {
    if j == 8 then es
    else RemovedFrom(if BitOf(flags, j) then RemoveUnder(es, FlagKey(j), idx) else es, flags, idx, j + 1)
  }

  /** One step of the removal loop: the bucket of bit `j` loses the index when the bit is set. */
  lemma RemovedStep(es: seq<Entry<int>>, es': seq<Entry<int>>, flags: bv8, idx: int, j: nat)
    requires j < 8 && es' == if BitOf(flags, j) then RemoveUnder(es, FlagKey(j), idx) else es
    ensures RemovedFrom(es', flags, idx, j + 1) == RemovedFrom(es, flags, idx, j)
  {
  }

  /** `FindByFlags` from bit `j` on: the buckets of the set bits, lowest bit first. */
  function FoundFrom(es: seq<Entry<int>>, flags: bv8, j: nat): seq<int>
    requires j <= 8
    decreases 8 - j
  {
    if j == 8 then []
    else (if BitOf(flags, j) then Bucket(es, FlagKey(j)) else []) + FoundFrom(es, flags, j + 1)
  }

  /** Indexing adds the index once to the bucket of every key of the flags, and touches no other bucket. */
  lemma {:induction false} IndexedBucket(es: seq<Entry<int>>, flags: bv8, idx: int, j: nat, x: int)
    requires j <= 8
    ensures Sorted(es) ==> Sorted(IndexedFrom(es, flags, idx, j))
    ensures Bucket(IndexedFrom(es, flags, idx, j), x) == Bucket(es, x) + (if KeyOf(flags, x, j) then [idx] else [])
    decreases 8 - j
  {
    if j < 8 {
      var next := if BitOf(flags, j) then AddUnder(es, FlagKey(j), idx) else es;
      BucketAdd(es, FlagKey(j), idx, x);
      IndexedBucket(next, flags, idx, j + 1, x);
      if BitOf(flags, j) && FlagKey(j) == x && KeyOf(flags, x, j + 1) {
        var m := KeyOfInverse(flags, x, j + 1);
        FlagKeyInjective(j, m);
      }
    } else {
      assert Bucket(es, x) + [] == Bucket(es, x);
    }
  }

  /** Removal takes the first occurrence of the index out of the bucket of every key of the flags. */
  lemma {:induction false} RemovedBucket(es: seq<Entry<int>>, flags: bv8, idx: int, j: nat, x: int)
    requires j <= 8 && Sorted(es)
    ensures Sorted(RemovedFrom(es, flags, idx, j))
    ensures Bucket(RemovedFrom(es, flags, idx, j), x)
         == if KeyOf(flags, x, j) then RemoveFirst(Bucket(es, x), idx).1 else Bucket(es, x)
    decreases 8 - j
  {
    if j < 8 {
      var next := if BitOf(flags, j) then RemoveUnder(es, FlagKey(j), idx) else es;
      BucketRemoveUnder(es, FlagKey(j), idx, x);
      RemovedBucket(next, flags, idx, j + 1, x);
      if BitOf(flags, j) && FlagKey(j) == x && KeyOf(flags, x, j + 1) {
        var m := KeyOfInverse(flags, x, j + 1);
        FlagKeyInjective(j, m);
      }
    }
  }

  /** `None` is bit 0 alone, so indexing a `None` record is one `Add` under key 1. */
  lemma NoneIndexedOnce(es: seq<Entry<int>>, idx: int)
    ensures IndexedFrom(es, FlagNone, idx, 0) == AddUnder(es, 1, idx)
  {
    assert BitOf(FlagNone, 0) && FlagKey(0) == 1;
    assert forall j: nat :: 0 < j < 8 ==> !BitOf(FlagNone, j);
  }

  /** The same holds for removal. */
  lemma NoneRemovedOnce(es: seq<Entry<int>>, idx: int)
    ensures RemovedFrom(es, FlagNone, idx, 0) == RemoveUnder(es, 1, idx)
  {
    assert BitOf(FlagNone, 0) && FlagKey(0) == 1;
    assert forall j: nat :: 0 < j < 8 ==> !BitOf(FlagNone, j);
  }

  /**
   * Removal undoes indexing: an index that was in none of its buckets is
   * in none of them again, and every bucket holds what it held before.
   */
  lemma RemoveAfterIndex(es: seq<Entry<int>>, flags: bv8, idx: int, x: int)
    requires Sorted(es) && idx !in Bucket(es, x)
    ensures Bucket(RemovedFrom(IndexedFrom(es, flags, idx, 0), flags, idx, 0), x) == Bucket(es, x)
  {
    IndexedBucket(es, flags, idx, 0, x);
    RemovedBucket(IndexedFrom(es, flags, idx, 0), flags, idx, 0, x);
    if KeyOf(flags, x, 0) {
      RemoveFirstAppended(Bucket(es, x), idx);
    }
  }

  /** Taking out the only occurrence of an appended value gives the list back. */
  lemma {:induction false} RemoveFirstAppended(vs: seq<int>, v: int)
    requires v !in vs
    ensures RemoveFirst(vs + [v], v).1 == vs
  {
    if vs != [] {
      assert (vs + [v])[1..] == vs[1..] + [v];
      RemoveFirstAppended(vs[1..], v);
    }
  }

  /** What `FindByFlags` lists: an index in the bucket of a bit that is set in the flags asked for. */
  lemma {:induction false} FoundMembers(es: seq<Entry<int>>, flags: bv8, j: nat, idx: int)
    requires j <= 8
    ensures idx in FoundFrom(es, flags, j) <==>
              exists m: nat :: j <= m < 8 && BitOf(flags, m) && idx in Bucket(es, FlagKey(m))
    decreases 8 - j
  {
    if j < 8 {
      FoundMembers(es, flags, j + 1, idx);
      var here := if BitOf(flags, j) then Bucket(es, FlagKey(j)) else [];
      var later := FoundFrom(es, flags, j + 1);
      assert FoundFrom(es, flags, j) == here + later;
      assert idx in here + later <==> idx in here || idx in later;
      if exists m: nat :: j <= m < 8 && BitOf(flags, m) && idx in Bucket(es, FlagKey(m)) {
        var m: nat :| j <= m < 8 && BitOf(flags, m) && idx in Bucket(es, FlagKey(m));
        assert m == j ==> idx in here;
      }
    }
  }

  /** One step of `FindByFlags`: the bucket of bit `j`, when set, joins what was found before it. */
  lemma FoundStep(es: seq<Entry<int>>, flags: bv8, j: nat, before: seq<int>, found: seq<int>)
    requires j < 8
    requires found == if BitOf(flags, j) then Bucket(es, FlagKey(j)) else []
    ensures before + FoundFrom(es, flags, j) == (before + found) + FoundFrom(es, flags, j + 1)
  {
  }

  // ------------------------------------------------------------------- class

  class IndexingService {
    /** `index_Flags`. */
    const indexFlags: AVLTree<int>

    ghost predicate Valid()
      reads this, indexFlags
    {
      indexFlags.Valid()
    }

    ghost function Buckets(): seq<Entry<int>>
      reads this, indexFlags
    {
      indexFlags.Contents()
    }

    constructor()
      ensures Valid() && Buckets() == [] && fresh(indexFlags)
    {
      indexFlags := new AVLTree<int>();
    }

    /** `IndexByFlags`: `None` is added under its key; any other flags under the key of each set bit. */
    method IndexByFlags(m: Metadata)
      requires Valid()
      modifies indexFlags
      ensures Valid()
      ensures Buckets() == IndexedFrom(old(Buckets()), m.flags, m.index, 0)
    {
      if m.flags == FlagNone {
        NoneIndexedOnce(Buckets(), m.index);
        indexFlags.Add(FlagNone as int, m.index, false);
        return;
      }
      var flags := m.flags;
      for i := 0 to 8
        invariant Valid()
        invariant IndexedFrom(Buckets(), flags, m.index, i) == IndexedFrom(old(Buckets()), flags, m.index, 0)
      {
        var mask := Mask(i);
        if flags & mask != 0 {
          indexFlags.Add(mask as int, m.index, false);
        }
      }
    }

    /**
     * `Remove` as written: a `None` record leaves its bucket, but a record
     * with any other flags is added again under each of its bits.
     */
    method RemoveAsWritten(m: Metadata)
      requires Valid()
      modifies indexFlags
      ensures Valid()
      ensures Buckets() == if m.flags == FlagNone then RemoveUnder(old(Buckets()), 1, m.index)
                           else IndexedFrom(old(Buckets()), m.flags, m.index, 0)
    {
      if m.flags == FlagNone {
        indexFlags.RemoveValue(FlagNone as int, m.index);
        return;
      }
      var flags := m.flags;
      for i := 0 to 8
        invariant Valid()
        invariant IndexedFrom(Buckets(), flags, m.index, i) == IndexedFrom(old(Buckets()), flags, m.index, 0)
      {
        var mask := Mask(i);
        if flags & mask != 0 {
          indexFlags.Add(mask as int, m.index, false);
        }
      }
    }

    /** `Remove` as intended: the record leaves the bucket of each bit of its flags. */
    method Remove(m: Metadata)
      requires Valid()
      modifies indexFlags
      ensures Valid()
      ensures Buckets() == RemovedFrom(old(Buckets()), m.flags, m.index, 0)
    {
      if m.flags == FlagNone {
        NoneRemovedOnce(Buckets(), m.index);
        indexFlags.RemoveValue(FlagNone as int, m.index);
        return;
      }
      var flags := m.flags;
      for i := 0 to 8
        invariant Valid()
        invariant RemovedFrom(Buckets(), flags, m.index, i) == RemovedFrom(old(Buckets()), flags, m.index, 0)
      {
        ghost var before := Buckets();
        var mask := Mask(i);
        if flags & mask != 0 {
          indexFlags.RemoveValue(mask as int, m.index);
        }
        RemovedStep(before, Buckets(), flags, m.index, i);
      }
    }

    /** `FindByFlags`: the buckets of the bits set in `flags`, lowest bit first. */
    method FindByFlags(flags: bv8) returns (result: seq<int>)
      requires Valid()
      ensures result == FoundFrom(Buckets(), flags, 0)
    {
      result := [];
      for i := 0 to 8
        invariant result + FoundFrom(Buckets(), flags, i) == FoundFrom(Buckets(), flags, 0)
      {
        var indexes := indexFlags.Find(Mask(i) as int);
        var found := if flags & Mask(i) != 0 && indexes.Some? then indexes.value else [];
        FoundStep(Buckets(), flags, i, result, found);
        result := result + found;
      }
    }

    /** `Clear`: the flag index is emptied. */
    method Clear()
      modifies indexFlags
      ensures Valid() && Buckets() == []
    {
      indexFlags.Clear();
    }
  }

  /**
   * A record flagged `Locked` that is removed as written is indexed once
   * more, so `FindByFlags(Locked)` keeps finding it, now twice.
   */
  lemma RemoveAsWrittenReindexes()
    ensures var indexed := IndexedFrom([], FlagLocked, 7, 0);
            var removed := IndexedFrom(indexed, FlagLocked, 7, 0);
            FoundFrom(removed, FlagLocked, 0) == [7, 7]
  {
    var indexed := IndexedFrom([], FlagLocked, 7, 0);
    var removed := IndexedFrom(indexed, FlagLocked, 7, 0);
    assert FlagKey(2) == 4;
    IndexedBucket([], FlagLocked, 7, 0, 4);
    IndexedBucket(indexed, FlagLocked, 7, 0, 4);
    KeyOfBit(FlagLocked, 0, 2);
    assert Bucket(removed, 4) == [7, 7];
    assert forall j: nat :: j < 8 && j != 2 ==> !BitOf(FlagLocked, j);
    assert BitOf(FlagLocked, 2);
    assert FoundFrom(removed, FlagLocked, 3) == [];
    assert FoundFrom(removed, FlagLocked, 2) == [7, 7];
  }

  /** Removed as intended, the same record is found no more. */
  lemma RemoveFindsNothing()
    ensures var indexed := IndexedFrom([], FlagLocked, 7, 0);
            FoundFrom(RemovedFrom(indexed, FlagLocked, 7, 0), FlagLocked, 0) == []
  {
    var indexed := IndexedFrom([], FlagLocked, 7, 0);
    var removed := RemovedFrom(indexed, FlagLocked, 7, 0);
    forall x
      ensures Bucket(removed, x) == []
    {
      RemoveAfterIndex([], FlagLocked, 7, x);
    }
    assert forall j: nat :: j < 8 ==> Bucket(removed, FlagKey(j)) == [];
    assert FoundFrom(removed, FlagLocked, 8) == [];
  }
}

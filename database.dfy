/**
 * `Database`: a store of records kept in slots.  Each slot holds a metadata
 * record, the fields its typed store adds to the record, and its content.
 * A deleted record keeps its slot, which a later record may take over.
 * The flag index lists every live record under each bit of its flags; a
 * record is deleted only when it is not locked; and the store is dirty
 * from its first change until the next `Save`.
 */
module Databases {
  import opened Bytes
  import opened SortedEntries
  import opened AVLTrees
  import opened Metadatas
  import opened BitFields
  import opened IndexingServices

  /** A slot: the metadata record, the typed store's own fields, and the content kept for it. */
  datatype Slot<E, C> = Slot(meta: Metadata, extra: E, content: C)

  predicate Live<E, C>(s: Slot<E, C>)
  {
    !IsDeleted(s.meta)
  }

  /** The slot as `MetadataService.Remove` leaves it: marked for delete. */
  function Deleted<E, C>(s: Slot<E, C>): (r: Slot<E, C>)
    ensures !Live(r) && r.meta.index == s.meta.index && r.meta.flags == s.meta.flags
    ensures r.extra == s.extra && r.content == s.content
    ensures !Live(s) ==> r == s
  {
    s.(meta := MarkForDelete(s.meta))
  }

  /** How a store picks the slot of a new record. */
  datatype Finder =
    | AppendFinder       // `DefaultEmptyMetadataIndexFinder`: always after the last slot
    | FirstDeletedFinder // `FindDeletedMetadataIndexFinder`: the first deleted slot, else after the last

  /** The first deleted slot from `j` on, or the end. */
  function FirstDeletedFrom<E, C>(slots: seq<Slot<E, C>>, j: nat): (i: nat)
    requires j <= |slots|
    ensures j <= i <= |slots|
    ensures i < |slots| ==> !Live(slots[i])
    ensures forall k :: j <= k < i ==> Live(slots[k])
    decreases |slots| - j
  {
    if j == |slots| || !Live(slots[j]) then j else FirstDeletedFrom(slots, j + 1)
  }

  /** The slot a finder picks, which is free: after the last slot or deleted. */
  function FreeIndex<E, C>(slots: seq<Slot<E, C>>, finder: Finder): (i: nat)
    ensures i <= |slots| && (i < |slots| ==> !Live(slots[i]))
    ensures finder == AppendFinder ==> i == |slots|
  {
    match finder
    case AppendFinder => |slots|
    case FirstDeletedFinder => FirstDeletedFrom(slots, 0)
  }

  /** The slots with `s` placed at `i`: appended at the end, or replacing a slot. */
  function Placed<E, C>(slots: seq<Slot<E, C>>, i: nat, s: Slot<E, C>): (r: seq<Slot<E, C>>)
    requires i <= |slots|
    ensures |r| == if i == |slots| then |slots| + 1 else |slots|
    ensures r[i] == s && forall k :: 0 <= k < |slots| && k != i ==> r[k] == slots[k]
  {
    if i == |slots| then slots + [s] else slots[i := s]
  }

  /** How often the flag index should hold slot `i` under key `k`: once for a live record with that bit, else never. */
  function Expected<E, C>(slots: seq<Slot<E, C>>, k: int, i: int): nat
  {
    if 0 <= i < |slots| && Live(slots[i]) && KeyOf(slots[i].meta.flags, k, 0) then 1 else 0
  }

  /**
   * The flag index agrees with the slots: every bucket holds each live
   * record whose flags have the bucket's bit exactly once, and nothing else.
   */
  ghost predicate Indexed<E, C>(slots: seq<Slot<E, C>>, es: seq<Entry<int>>)
  {
    forall k: int, i: int {:trigger multiset(Bucket(es, k))[i]} :: multiset(Bucket(es, k))[i] == Expected(slots, k, i)
  }

  /** Indexing a live record placed in a free slot keeps the index in agreement. */
  lemma AddIndexed<E, C>(slots: seq<Slot<E, C>>, es: seq<Entry<int>>, idx: nat, s: Slot<E, C>)
    requires Indexed(slots, es)
    requires idx <= |slots| && (idx < |slots| ==> !Live(slots[idx]))
    requires Live(s)
    ensures Indexed(Placed(slots, idx, s), IndexedFrom(es, s.meta.flags, idx, 0))
  {
    forall k: int, i: int
      ensures multiset(Bucket(IndexedFrom(es, s.meta.flags, idx, 0), k))[i] == Expected(Placed(slots, idx, s), k, i)
    {
      AddIndexedAt(slots, es, idx, s, k, i);
    }
  }

  lemma AddIndexedAt<E, C>(slots: seq<Slot<E, C>>, es: seq<Entry<int>>, idx: nat, s: Slot<E, C>, k: int, i: int)
    requires multiset(Bucket(es, k))[i] == Expected(slots, k, i)
    requires idx <= |slots| && (idx < |slots| ==> !Live(slots[idx]))
    requires Live(s)
    ensures multiset(Bucket(IndexedFrom(es, s.meta.flags, idx, 0), k))[i] == Expected(Placed(slots, idx, s), k, i)
  {
    var flags := s.meta.flags;
    var added: seq<int> := if KeyOf(flags, k, 0) then [idx] else [];
    IndexedBucket(es, flags, idx, 0, k);
    assert Bucket(IndexedFrom(es, flags, idx, 0), k) == Bucket(es, k) + added;
    assert multiset(Bucket(es, k) + added)[i] == multiset(Bucket(es, k))[i] + multiset(added)[i];
    var after := Placed(slots, idx, s);
    if i == idx {
      assert Expected(slots, k, i) == 0;
      assert Expected(after, k, i) == multiset(added)[i];
    } else {
      assert multiset(added)[i] == 0;
      assert Expected(after, k, i) == Expected(slots, k, i);
    }
  }

  /** Changing the typed store's fields of a record keeps the index in agreement. */
  lemma ExtraIndexed<E, C>(slots: seq<Slot<E, C>>, es: seq<Entry<int>>, idx: nat, e: E)
    requires Indexed(slots, es) && idx < |slots|
    ensures Indexed(slots[idx := slots[idx].(extra := e)], es)
  {
    var after := slots[idx := slots[idx].(extra := e)];
    forall k: int, i: int
      ensures multiset(Bucket(es, k))[i] == Expected(after, k, i)
    {
      assert Expected(after, k, i) == Expected(slots, k, i);
    }
  }

  /** Removing a record from the index of its flags and marking it deleted keeps the index in agreement. */
  lemma RemoveIndexed<E, C>(slots: seq<Slot<E, C>>, es: seq<Entry<int>>, idx: nat)
    requires Indexed(slots, es) && Sorted(es) && idx < |slots|
    ensures Indexed(slots[idx := Deleted(slots[idx])], RemovedFrom(es, slots[idx].meta.flags, idx, 0))
  {
    var after := slots[idx := Deleted(slots[idx])];
    var es' := RemovedFrom(es, slots[idx].meta.flags, idx, 0);
    forall k: int, i: int
      ensures multiset(Bucket(es', k))[i] == Expected(after, k, i)
    {
      RemoveIndexedAt(slots, es, idx, k, i);
    }
  }

  lemma RemoveIndexedAt<E, C>(slots: seq<Slot<E, C>>, es: seq<Entry<int>>, idx: nat, k: int, i: int)
    requires multiset(Bucket(es, k))[i] == Expected(slots, k, i)
    requires multiset(Bucket(es, k))[idx] == Expected(slots, k, idx)
    requires Sorted(es) && idx < |slots|
    ensures multiset(Bucket(RemovedFrom(es, slots[idx].meta.flags, idx, 0), k))[i]
         == Expected(slots[idx := Deleted(slots[idx])], k, i)
  {
    RemovedBucket(es, slots[idx].meta.flags, idx, 0, k);
  }

  /** The key of bit `m` is a key of the flags exactly when bit `m` is set. */
  lemma KeyOfFlagKey(flags: bv8, m: nat)
    requires m < 8
    ensures KeyOf(flags, FlagKey(m), 0) <==> BitOf(flags, m)
  {
    if BitOf(flags, m) {
      KeyOfBit(flags, 0, m);
    }
    if KeyOf(flags, FlagKey(m), 0) {
      var n := KeyOfInverse(flags, FlagKey(m), 0);
      if n != m {
        FlagKeyInjective(n, m);
      }
    }
  }

  /** A flag byte that is not zero has a set bit. */
  lemma NonZeroHasBit(x: bv8) returns (m: nat)
    requires x != 0
    ensures m < 8 && BitOf(x, m)
  {
    if x & 1 != 0 {
      m := 0;
    } else if x & 2 != 0 {
      m := 1;
    } else if x & 4 != 0 {
      m := 2;
    } else if x & 8 != 0 {
      m := 3;
    } else if x & 0x10 != 0 {
      m := 4;
    } else if x & 0x20 != 0 {
      m := 5;
    } else if x & 0x40 != 0 {
      m := 6;
    } else {
      m := 7;
      assert x & 0x80 != 0;
    }
  }

  /** Two flag bytes share a set bit exactly when their conjunction is not zero. */
  lemma SharesBit(f: bv8, g: bv8)
    ensures (exists m: nat :: m < 8 && BitOf(f, m) && BitOf(g, m)) <==> f & g != 0
  {
    forall m: nat | m < 8
      ensures BitOf(f & g, m) == (BitOf(f, m) && BitOf(g, m))
    {
      AndBit(f, g, m);
    }
    if f & g != 0 {
      var m := NonZeroHasBit(f & g);
      assert BitOf(f, m) && BitOf(g, m);
    }
  }

  /**
   * What `FindByFlags(f)` lists, when the index agrees with the slots: the
   * live records whose flags share a bit with `f`.
   */
  lemma FoundLive<E, C>(slots: seq<Slot<E, C>>, es: seq<Entry<int>>, f: bv8, i: int)
    requires Indexed(slots, es)
    ensures i in FoundFrom(es, f, 0)
        <==> 0 <= i < |slots| && Live(slots[i]) && slots[i].meta.flags & f != 0
  {
    FoundMembers(es, f, 0, i);
    var live := 0 <= i < |slots| && Live(slots[i]);
    forall m: nat | m < 8
      ensures i in Bucket(es, FlagKey(m)) <==> live && BitOf(slots[i].meta.flags, m)
    {
      assert i in Bucket(es, FlagKey(m)) <==> multiset(Bucket(es, FlagKey(m)))[i] > 0;
      if live {
        KeyOfFlagKey(slots[i].meta.flags, m);
      }
    }
    if live {
      SharesBit(slots[i].meta.flags, f);
    }
  }

  lemma FoundLiveAll<E, C>(slots: seq<Slot<E, C>>, es: seq<Entry<int>>, f: bv8)
    requires Indexed(slots, es)
    ensures forall j :: 0 <= j < |FoundFrom(es, f, 0)| ==> 0 <= FoundFrom(es, f, 0)[j] < |slots|
    ensures forall i :: i in FoundFrom(es, f, 0) <==> 0 <= i < |slots| && Live(slots[i]) && slots[i].meta.flags & f != 0
  {
    forall i
      ensures i in FoundFrom(es, f, 0) <==> 0 <= i < |slots| && Live(slots[i]) && slots[i].meta.flags & f != 0
    {
      FoundLive(slots, es, f, i);
    }
    assert forall j :: 0 <= j < |FoundFrom(es, f, 0)| ==> FoundFrom(es, f, 0)[j] in FoundFrom(es, f, 0);
  }

  /** The listed slots whose records are not locked, in the order listed. */
  function UnlockedOf<E, C>(slots: seq<Slot<E, C>>, indexes: seq<int>): (r: seq<nat>)
    requires forall j :: 0 <= j < |indexes| ==> 0 <= indexes[j] < |slots|
  {
    if indexes == [] then []
    else
      var last := indexes[|indexes| - 1];
      UnlockedOf(slots, indexes[..|indexes| - 1]) + (if IsLocked(slots[last].meta) then [] else [last])
  }

  /** The slots with every listed record marked deleted. */
  function DeleteAll<E, C>(slots: seq<Slot<E, C>>, ds: seq<int>): (r: seq<Slot<E, C>>)
    ensures |r| == |slots|
  {
    seq(|slots|, i requires 0 <= i < |slots| => if i in ds then Deleted(slots[i]) else slots[i])
  }

  lemma DeleteAllNothing<E, C>(slots: seq<Slot<E, C>>)
    ensures DeleteAll(slots, []) == slots
  {
  }

  /** Deleting one more record, already deleted or not, extends the list of deletions. */
  lemma DeleteAllStep<E, C>(slots: seq<Slot<E, C>>, ds: seq<int>, idx: nat)
    requires idx < |slots|
    ensures var now := DeleteAll(slots, ds);
            now[idx := Deleted(now[idx])] == DeleteAll(slots, ds + [idx])
  {
  }

  /** A slot is in the unlocked list exactly when it is listed and its record is not locked. */
  lemma {:induction false} UnlockedMembers<E, C>(slots: seq<Slot<E, C>>, indexes: seq<int>, i: int)
    requires forall j :: 0 <= j < |indexes| ==> 0 <= indexes[j] < |slots|
    ensures i in UnlockedOf(slots, indexes) <==> i in indexes && !IsLocked(slots[i].meta)
    decreases |indexes|
  {
    if indexes != [] {
      var init := indexes[..|indexes| - 1];
      UnlockedMembers(slots, init, i);
      assert indexes == init + [indexes[|indexes| - 1]];
    }
  }

  /** Of the live slots found by their flags, the unlocked ones are exactly the live, unlocked slots with those flags. */
  lemma ClearedMembers<E, C>(slots: seq<Slot<E, C>>, found: seq<int>, f: bv8)
    requires forall j :: 0 <= j < |found| ==> 0 <= found[j] < |slots|
    requires forall i :: i in found <==> 0 <= i < |slots| && Live(slots[i]) && slots[i].meta.flags & f != 0
    ensures forall i :: i in UnlockedOf(slots, found)
                    <==> 0 <= i < |slots| && Live(slots[i]) && !IsLocked(slots[i].meta) && slots[i].meta.flags & f != 0
  {
    forall i
      ensures i in UnlockedOf(slots, found)
          <==> 0 <= i < |slots| && Live(slots[i]) && !IsLocked(slots[i].meta) && slots[i].meta.flags & f != 0
    {
      UnlockedMembers(slots, found, i);
    }
  }

  /** Listing one more slot adds it to the unlocked list when its record is not locked. */
  lemma UnlockedStep<E, C>(slots: seq<Slot<E, C>>, list: seq<int>, j: nat)
    requires j < |list| && forall n :: 0 <= n < |list| ==> 0 <= list[n] < |slots|
    ensures UnlockedOf(slots, list[..j + 1])
         == UnlockedOf(slots, list[..j]) + (if IsLocked(slots[list[j]].meta) then [] else [list[j]])
  {
    assert list[..j + 1][..j] == list[..j];
  }

  /**
   * The loop step of `Delete`, over the slots after the deletions so far:
   * the next listed record keeps its lock, and deleting it when unlocked
   * extends the deletions by it.
   */
  lemma DeleteEachStep<E, C>(s0: seq<Slot<E, C>>, list: seq<int>, j: nat, deleted: seq<nat>, now: seq<Slot<E, C>>)
    requires j < |list| && forall n :: 0 <= n < |list| ==> 0 <= list[n] < |s0|
    requires deleted == UnlockedOf(s0, list[..j]) && now == DeleteAll(s0, deleted)
    ensures |now| == |s0| && IsLocked(now[list[j]].meta) == IsLocked(s0[list[j]].meta)
    ensures IsLocked(s0[list[j]].meta) ==> UnlockedOf(s0, list[..j + 1]) == deleted
    ensures !IsLocked(s0[list[j]].meta) ==>
              UnlockedOf(s0, list[..j + 1]) == deleted + [list[j]]
              && now[list[j] := Deleted(now[list[j]])] == DeleteAll(s0, deleted + [list[j]])
  {
    UnlockedStep(s0, list, j);
    DeleteAllStep(s0, deleted, list[j]);
  }

  // ------------------------------------------- stores whose records are all `None`

  /** Every record is flagged `None`, as in the three typed stores. */
  ghost predicate AllNone<E, C>(slots: seq<Slot<E, C>>)
  {
    forall i :: 0 <= i < |slots| ==> slots[i].meta.flags == FlagNone
  }

  /** No record of a store of `None` records is locked. */
  lemma {:induction false} NoneUnlocked<E, C>(slots: seq<Slot<E, C>>, list: seq<int>)
    requires AllNone(slots)
    requires forall j :: 0 <= j < |list| ==> 0 <= list[j] < |slots|
    ensures UnlockedOf(slots, list) == list
    decreases |list|
  {
    if list != [] {
      var prefix, last := list[..|list| - 1], list[|list| - 1];
      NoneUnlocked(slots, prefix);
      NoneNotLocked(slots[last].meta);
      UnlockedLast(slots, list);
      assert prefix + [last] == list;
    }
  }

  /** The last listed slot joins the unlocked ones exactly when it is not locked. */
  lemma UnlockedLast<E, C>(slots: seq<Slot<E, C>>, list: seq<int>)
    requires list != [] && forall j :: 0 <= j < |list| ==> 0 <= list[j] < |slots|
    ensures var last := list[|list| - 1];
            UnlockedOf(slots, list) == UnlockedOf(slots, list[..|list| - 1]) + (if IsLocked(slots[last].meta) then [] else [last])
  {
  }

  lemma NoneNotLocked(m: Metadata)
    requires m.flags == FlagNone
    ensures !IsLocked(m)
  {
    assert !HasFlag(FlagNone, FlagLocked);
  }

  /** The indexes of the live slots from `j` on, in slot order. */
  function LiveIndexes<E, C>(slots: seq<Slot<E, C>>, j: nat): seq<int>
    requires j <= |slots|
    decreases |slots| - j
  {
    if j == |slots| then [] else (if Live(slots[j]) then [j] else []) + LiveIndexes(slots, j + 1)
  }

  /** The occurrences of `i` in a sequence with `x` in front. */
  lemma ConsCount(x: int, t: seq<int>, i: int)
    ensures multiset([x] + t)[i] == (if i == x then 1 else 0) + multiset(t)[i]
  {
    assert multiset([x] + t) == multiset([x]) + multiset(t);
  }

  /** The occurrences of `i` among the live indexes from `j` on: one from slot `j`, the rest from `j + 1` on. */
  lemma LiveIndexesStep<E, C>(slots: seq<Slot<E, C>>, j: nat, i: int)
    requires j < |slots|
    ensures multiset(LiveIndexes(slots, j))[i]
            == (if i == j && Live(slots[j]) then 1 else 0) + multiset(LiveIndexes(slots, j + 1))[i]
  {
    var tail := LiveIndexes(slots, j + 1);
    if Live(slots[j]) {
      assert LiveIndexes(slots, j) == [j] + tail;
      ConsCount(j, tail, i);
    } else {
      assert LiveIndexes(slots, j) == tail;
    }
  }

  lemma {:induction false} LiveIndexesCount<E, C>(slots: seq<Slot<E, C>>, j: nat, i: int)
    requires j <= |slots|
    ensures multiset(LiveIndexes(slots, j))[i] == if j <= i < |slots| && Live(slots[i]) then 1 else 0
    decreases |slots| - j
  {
    if j < |slots| {
      LiveIndexesCount(slots, j + 1, i);
      LiveIndexesStep(slots, j, i);
    }
  }

  /** The only key of the flags `None` is the key of bit 0. */
  lemma NoneKeys(k: int)
    ensures KeyOf(FlagNone, k, 0) <==> k == 1
  {
    assert FlagKey(0) == 1;
    if k == 1 {
      KeyOfBit(FlagNone, 0, 0);
    }
    if KeyOf(FlagNone, k, 0) {
      var m := KeyOfInverse(FlagNone, k, 0);
    }
  }

  /** A sorted index whose only non-empty bucket is key 1 holds as many values as that bucket. */
  lemma {:induction false} OnlyKeyOne(es: seq<Entry<int>>)
    requires Sorted(es) && NonEmptyLists(es)
    requires forall k :: k != 1 ==> Bucket(es, k) == []
    ensures ElemTotal(es) == |Bucket(es, 1)|
  {
    if es != [] {
      assert Bucket(es, es[0].key) == es[0].values != [];
      assert es[0].key == 1;
      var rest := es[1..];
      forall k | k != 1
        ensures Bucket(rest, k) == []
      {
        assert es[0].key != k;
        assert Lookup(es, k) == Lookup(rest, k);
        assert Bucket(es, k) == Bucket(rest, k);
      }
      assert Bucket(rest, 1) == [] by {
        LookupAbsent(rest, 1);
      }
      OnlyKeyOne(rest);
    }
  }

  /**
   * In a store of `None` records the flag index holds one value per live
   * record: its `ElemCount` counts the live records.
   */
  lemma NoneCount<E, C>(slots: seq<Slot<E, C>>, es: seq<Entry<int>>)
    requires Indexed(slots, es) && Sorted(es) && NonEmptyLists(es) && AllNone(slots)
    ensures ElemTotal(es) == |LiveIndexes(slots, 0)|
  {
    forall k | k != 1
      ensures Bucket(es, k) == []
    {
      var b := Bucket(es, k);
      if b != [] {
        assert b[0] in multiset(b);
        assert multiset(b)[b[0]] == Expected(slots, k, b[0]);
        NoneKeys(k);
      }
    }
    OnlyKeyOne(es);
    forall i
      ensures multiset(Bucket(es, 1))[i] == multiset(LiveIndexes(slots, 0))[i]
    {
      assert multiset(Bucket(es, 1))[i] == Expected(slots, 1, i);
      NoneKeys(1);
      LiveIndexesCount(slots, 0, i);
    }
    assert multiset(Bucket(es, 1)) == multiset(LiveIndexes(slots, 0));
  }

  class Database<E, C> {
    /** `MetadataService.Metadatas`, with the extra fields and the content of each record. */
    var slots: seq<Slot<E, C>>
    const indexing: IndexingService
    var isDirty: bool
    /** The slots as the last `Save` wrote them. */
    var saved: seq<Slot<E, C>>

    /**
     * Every record knows its slot, the flag index agrees with the slots,
     * and a store that is not dirty holds what was saved last.
     */
    ghost predicate Valid()
      reads this, indexing, indexing.indexFlags
    {
      indexing.Valid()
      && (forall i :: 0 <= i < |slots| ==> slots[i].meta.index == i)
      && Indexed(slots, indexing.Buckets())
      && (!isDirty ==> saved == slots)
    }

    /** An empty store, clean. */
    constructor()
      ensures Valid() && slots == [] && !isDirty
      ensures fresh(indexing) && fresh(indexing.indexFlags)
    {
      slots := [];
      indexing := new IndexingService();
      isDirty := false;
      saved := [];
    }

    /**
     * `MetadataService.Create` followed by `FlagDirty`: a record with the
     * given flags goes to the slot the finder picks and is indexed under
     * its flags.  Its position and length come from the disk manager.
     */
    method Add(extra: E, content: C, flags: bv8, finder: Finder, filePosition: Int32, length: Int32)
        returns (idx: nat)
      requires Valid() && filePosition >= 0
      modifies this, indexing.indexFlags
      ensures Valid() && isDirty
      ensures idx == FreeIndex(old(slots), finder)
      ensures slots == Placed(old(slots), idx, Slot(Metadata(idx, filePosition, length, flags), extra, content))
      ensures saved == old(saved)
    {
      if finder == AppendFinder {
        idx := |slots|;
      } else {
        idx := FindFirstDeleted();
      }
      var m := Metadata(idx, filePosition, length, flags);
      var s := Slot(m, extra, content);
      AddIndexed(slots, indexing.Buckets(), idx, s);
      indexing.IndexByFlags(m);
      slots := Placed(slots, idx, s);
      isDirty := true;
    }

    /**
     * A typed store's own field of a record changed in place, in a dirty
     * store; neither the flags nor the liveness of the record change, so the
     * flag index still agrees.
     */
    method UpdateExtra(i: nat, e: E)
      requires Valid() && i < |slots| && isDirty
      modifies this
      ensures Valid() && isDirty && saved == old(saved)
      ensures slots == old(slots)[i := old(slots)[i].(extra := e)]
    {
      ExtraIndexed(slots, indexing.Buckets(), i, e);
      slots := slots[i := slots[i].(extra := e)];
    }

    /** The scan of `FindDeletedMetadataIndexFinder`. */
    method FindFirstDeleted() returns (idx: nat)
      ensures idx == FirstDeletedFrom(slots, 0)
    {
      idx := 0;
      while idx < |slots| && Live(slots[idx])
        invariant idx <= |slots|
        invariant FirstDeletedFrom(slots, idx) == FirstDeletedFrom(slots, 0)
      {
        idx := idx + 1;
      }
    }

    /**
     * `DeleteMetadata`: a record that is not locked leaves the flag index
     * and is marked deleted, and the store becomes dirty; a locked record is
     * left alone.  The answer is whether the record was not locked.
     */
    method DeleteMetadata(i: nat) returns (deleted: bool)
      requires Valid() && i < |slots|
      modifies this, indexing.indexFlags
      ensures Valid()
      ensures deleted == !IsLocked(old(slots[i].meta))
      ensures slots == if deleted then old(slots)[i := Deleted(old(slots[i]))] else old(slots)
      ensures isDirty == (old(isDirty) || deleted)
      ensures saved == old(saved)
    {
      var m := slots[i].meta;
      if !IsLocked(m) {
        RemoveIndexed(slots, indexing.Buckets(), i);
        indexing.Remove(m);
        slots := slots[i := Deleted(slots[i])];
        FlagDirty(true);
      }
      deleted := !IsLocked(m);
    }

    /** `FlagDirty`: the store becomes dirty when `dirty` is set, and stays as it was otherwise. */
    method FlagDirty(dirty: bool)
      modifies this
      ensures isDirty == (old(isDirty) || dirty)
      ensures slots == old(slots) && saved == old(saved)
      ensures old(Valid()) ==> Valid()
    {
      if dirty && !isDirty {
        isDirty := true;
      }
    }

    /**
     * `Delete(indexes)`: nothing for a null list; otherwise every listed
     * record that is not locked is deleted, and the answer counts them,
     * once per time a slot is listed.
     */
    method Delete(indexes: Option<seq<int>>) returns (count: nat, deleted: seq<nat>)
      requires Valid()
      requires indexes.Some? ==> forall j :: 0 <= j < |indexes.value| ==> 0 <= indexes.value[j] < |slots|
      modifies this, indexing.indexFlags
      ensures Valid()
      ensures deleted == if indexes.None? then [] else UnlockedOf(old(slots), indexes.value)
      ensures count == |deleted|
      ensures slots == DeleteAll(old(slots), deleted)
      ensures isDirty == (old(isDirty) || count > 0)
      ensures saved == old(saved)
    {
      DeleteAllNothing(slots);
      if indexes.None? {
        return 0, [];
      }
      count, deleted := DeleteEach(indexes.value);
      FlagDirty(count > 0);
    }

    /** The loop of `Delete`: `DeleteMetadata` on each listed slot, counting the records deleted. */
    method DeleteEach(list: seq<int>) returns (count: nat, deleted: seq<nat>)
      requires Valid()
      requires forall j :: 0 <= j < |list| ==> 0 <= list[j] < |slots|
      modifies this, indexing.indexFlags
      ensures Valid()
      ensures deleted == UnlockedOf(old(slots), list) && count == |deleted|
      ensures slots == DeleteAll(old(slots), deleted)
      ensures isDirty == (old(isDirty) || count > 0)
      ensures saved == old(saved)
    {
      ghost var s0, dirty0 := slots, isDirty;
      DeleteAllNothing(s0);
      count, deleted := 0, [];
      for j := 0 to |list|
        invariant Valid() && |slots| == |s0|
        invariant deleted == UnlockedOf(s0, list[..j]) && count == |deleted|
        invariant slots == DeleteAll(s0, deleted)
        invariant isDirty == (dirty0 || count > 0)
        invariant saved == old(saved)
      {
        var ok := DeleteListed(s0, list, j, deleted);
        if ok {
          count, deleted := count + 1, deleted + [list[j]];
        }
      }
      assert list[..|list|] == list;
    }

    /** One turn of `DeleteEach`: `DeleteMetadata` on the `j`-th listed slot. */
    method DeleteListed(ghost s0: seq<Slot<E, C>>, list: seq<int>, j: nat, ghost deleted: seq<nat>) returns (ok: bool)
      requires Valid() && j < |list| && forall n :: 0 <= n < |list| ==> 0 <= list[n] < |s0|
      requires deleted == UnlockedOf(s0, list[..j]) && slots == DeleteAll(s0, deleted)
      modifies this, indexing.indexFlags
      ensures Valid() && |slots| == |s0|
      ensures ok ==> UnlockedOf(s0, list[..j + 1]) == deleted + [list[j]] && slots == DeleteAll(s0, deleted + [list[j]])
      ensures !ok ==> UnlockedOf(s0, list[..j + 1]) == deleted && slots == old(slots)
      ensures isDirty == (old(isDirty) || ok) && saved == old(saved)
    {
      DeleteEachStep(s0, list, j, deleted, slots);
      ok := DeleteMetadata(list[j]);
    }

    /**
     * `Clear(keepUserAdded)`: every record that is neither locked nor, when
     * `keepUserAdded` is set, user-added is deleted; the answer counts the
     * deletions.
     */
    method Clear(keepUserAdded: bool) returns (count: nat, deleted: seq<nat>)
      requires Valid()
      modifies this, indexing.indexFlags
      ensures Valid()
      ensures count == |deleted|
      ensures forall i :: i in deleted <==> 0 <= i < |old(slots)| && Live(old(slots)[i]) && !IsLocked(old(slots)[i].meta)
                                            && old(slots)[i].meta.flags & !KeptFlags(keepUserAdded) != 0
      ensures slots == DeleteAll(old(slots), deleted)
      ensures isDirty == (old(isDirty) || count > 0)
      ensures saved == old(saved)
    {
      var flags := KeptFlags(keepUserAdded);
      var found := FindByFlags(!flags);
      ghost var before := slots;
      count, deleted := Delete(Some(found));
      ClearedMembers(before, found, !flags);
    }

    /**
     * `FindByFlags` on the flag index: the live records whose flags share a
     * bit with `flags`, each as often as the bits they share.
     */
    method FindByFlags(flags: bv8) returns (found: seq<int>)
      requires Valid()
      ensures forall j :: 0 <= j < |found| ==> 0 <= found[j] < |slots|
      ensures forall i :: i in found <==> 0 <= i < |slots| && Live(slots[i]) && slots[i].meta.flags & flags != 0
    {
      found := indexing.FindByFlags(flags);
      FoundLiveAll(slots, indexing.Buckets(), flags);
    }

    /** `Save`: a dirty store writes its slots and becomes clean; a clean one does nothing. */
    method Save()
      requires Valid()
      modifies this
      ensures Valid() && !isDirty && saved == slots
      ensures saved == if old(isDirty) then old(slots) else old(saved)
      ensures slots == old(slots)
    {
      if !isDirty {
        return;
      }
      saved := slots;
      isDirty := false;
    }

    /**
     * `FromMetadataIndexes`: null for a null or empty list, otherwise the
     * content of each listed slot, in the order listed.
     */
    method FromMetadataIndexes(indexes: Option<seq<int>>) returns (r: Option<seq<C>>)
      requires indexes.Some? ==> forall j :: 0 <= j < |indexes.value| ==> 0 <= indexes.value[j] < |slots|
      ensures r.None? <==> indexes.None? || indexes.value == []
      ensures r.Some? ==> |r.value| == |indexes.value|
      ensures r.Some? ==> forall j :: 0 <= j < |r.value| ==> r.value[j] == slots[indexes.value[j]].content
    {
      if indexes.None? || indexes.value == [] {
        return None;
      }
      var list := indexes.value;
      var result := [];
      for j := 0 to |list|
        invariant |result| == j
        invariant forall n :: 0 <= n < j ==> result[n] == slots[list[n]].content
      {
        result := result + [slots[list[j]].content];
      }
      r := Some(result);
    }
  }

  /** The flags `Clear` keeps: `Locked`, and `UserAdded` too when asked. */
  function KeptFlags(keepUserAdded: bool): (f: bv8)
    ensures BitOf(f, 2) && BitOf(f, 1) == keepUserAdded && !BitOf(f, 0)
  {
    if keepUserAdded then FlagLocked | FlagUserAdded else FlagLocked
  }
}

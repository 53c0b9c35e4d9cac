/**
 * `UInt16Database`: a persisted set of 16-bit values, as the client keeps
 * the packet identifiers it has released (PUBREL sent, PUBCOMP awaited).
 * Each record carries its value as the metadata's own field and stores no
 * content; the value index maps a value to the one slot holding it.
 */
module UInt16Databases {
  import opened Bytes
  import opened SortedEntries
  import opened AVLTrees
  import opened Metadatas
  import opened IndexingServices
  import opened Databases
  import opened IdIndexes

  /** Every value any record carries, deleted records included. */
  ghost function AllValues<P>(slots: seq<Slot<UInt16, P>>): set<int>
  {
    set i | 0 <= i < |slots| :: slots[i].extra as int
  }

  /**
   * `(found, next)` answers `GetNext(value)` over `vals`: `next` is the
   * smallest value above `value`, and `found` is set, unless no value lies
   * strictly between `value` and `UInt16.MaxValue`, which serves as the
   * "nothing found" mark and is never answered; then the answer is `(false, 0)`.
   */
  ghost predicate IsNextOf(vals: set<int>, value: UInt16, found: bool, next: UInt16)
  {
    var above := set v | v in vals && value < v < 0xFFFF;
    if above == {} then !found && next == 0
    else found && next in above && forall v :: v in above ==> next <= v
  }

  /** The answer a scan ends with: `smallest` is below every value above `value`, and is one of them unless it is the mark. */
  lemma ScanIsNext(vals: set<int>, value: UInt16, smallest: UInt16)
    requires forall v :: v in vals && value < v ==> smallest <= v
    requires smallest < 0xFFFF ==> value < smallest && smallest in vals
    ensures IsNextOf(vals, value, smallest != 0xFFFF, if smallest != 0xFFFF then smallest else 0)
  {
    var above := set v | v in vals && value < v < 0xFFFF;
    if smallest != 0xFFFF {
      assert smallest in above;
    }
  }

  /** The answer to `GetNext` is determined by the values. */
  lemma NextIsUnique(vals: set<int>, value: UInt16, f1: bool, n1: UInt16, f2: bool, n2: UInt16)
    requires IsNextOf(vals, value, f1, n1) && IsNextOf(vals, value, f2, n2)
    ensures f1 == f2 && n1 == n2
  {
    var above := set v | v in vals && value < v < 0xFFFF;
    if above != {} {
      assert n1 in above && n2 in above;
      assert n1 <= n2 && n2 <= n1;
    }
  }

  /**
   * A store whose only record was removed: a deleted record for 5.  The
   * scan over every record answers `(true, 5)`, although no live record
   * holds a value.
   */
  lemma DeletedRecordIsNext()
    ensures var slots := [Deleted(Slot(Metadata(0, 0, 0, FlagNone), 5 as UInt16, ()))];
            Values(slots) == {} && AllValues(slots) == {5}
            && IsNextOf(AllValues(slots), 0, true, 5) && !IsNextOf(Values(slots), 0, true, 5)
  {
    var slots := [Deleted(Slot(Metadata(0, 0, 0, FlagNone), 5 as UInt16, ()))];
    assert !Live(slots[0]);
    assert Values(slots) == {};
    assert slots[0].extra == 5;
    assert AllValues(slots) == {5};
    var above := set v | v in AllValues(slots) && 0 < v < 0xFFFF;
    assert 5 in above;
  }

  /**
   * What deleting the slots listed under `value` and dropping `value` from
   * the index keeps: the listed slots hold `value` and are never locked,
   * the index stays sound with one slot per key, and an exact index stays
   * exact with `value` gone from the live values.
   */
  lemma RemoveKeeps<P>(slots: seq<Slot<UInt16, P>>, es: seq<Entry<int>>, value: UInt16)
    requires AllNone(slots) && Sound(slots, es) && Sorted(es) && Single(es) && NonEmptyLists(es)
    ensures var b := Bucket(es, value);
            (forall n :: 0 <= n < |b| ==> 0 <= b[n] < |slots| && slots[b[n]].extra == value)
            && UnlockedOf(slots, b) == b
    ensures Lookup(es, value).Some? <==> Bucket(es, value) != []
    ensures Bucket(es, value) == [] ==> SortedEntries.Remove(es, value) == es
    ensures var after, b := DeleteAll(slots, Bucket(es, value)), Bucket(es, value);
            forall n :: 0 <= n < |b| ==> 0 <= b[n] < |after| && after[b[n]].extra == value
  {
    var b := Bucket(es, value);
    assert forall n :: 0 <= n < |b| ==> Listed(slots, value, b[n]);
    NoneUnlocked(slots, b);
    if Lookup(es, value).Some? {
      LookupNonEmpty(es, value);
    } else {
      RemoveAbsentKey(es, value);
    }
  }

  /** Deleting the records listed under a value and removing the value from the index keep the index sound. */
  lemma RemoveKept<P>(slots: seq<Slot<UInt16, P>>, es: seq<Entry<int>>, value: UInt16)
    requires AllNone(slots) && Sound(slots, es) && Sorted(es) && Single(es) && NonEmptyLists(es)
    ensures var after := DeleteAll(slots, Bucket(es, value));
            AllNone(after) && Sound(after, SortedEntries.Remove(es, value)) && Single(SortedEntries.Remove(es, value))
    ensures Tracked(slots, es) && UniqueIds(slots) ==>
              var after := DeleteAll(slots, Bucket(es, value));
              Tracked(after, SortedEntries.Remove(es, value)) && UniqueIds(after)
              && IdIndexes.Values(after) == IdIndexes.Values(slots) - {value as int}
  {
    var b := Bucket(es, value);
    assert forall n :: 0 <= n < |b| ==> Listed(slots, value, b[n]);
    RemovedSound(slots, es, b, value);
    SingleRemove(es, value);
    if Tracked(slots, es) && UniqueIds(slots) {
      IndexRemovedAll(slots, es, value);
      DeletedValues(slots, b, value);
    }
  }

  /**
   * What adding `value` in the first free slot and mapping it to that slot
   * alone keeps: every record flagged `None`, a sound index with one slot
   * per key, the value added to the live values, and an exact index exact.
   */
  lemma AddKept(slots: seq<Slot<UInt16, ()>>, es: seq<Entry<int>>, value: UInt16)
    requires AllNone(slots) && Sound(slots, es) && Single(es)
    ensures var i := FreeIndex(slots, FirstDeletedFinder);
            var after := Placed(slots, i, Slot(Metadata(i, 0, 0, FlagNone), value, ()));
            var es' := Put(es, value, AddedValues(Lookup(es, value), i, true));
            AddedValues(Lookup(es, value), i, true) == [i]
            && AllNone(after) && Sound(after, es') && Single(es')
            && Lookup(es', value) == Some([i])
            && IdIndexes.Values(after) == IdIndexes.Values(slots) + {value as int}
            && (Tracked(slots, es) && UniqueIds(slots) && value as int !in IdIndexes.Values(slots) ==>
                  Tracked(after, es') && UniqueIds(after))
  {
    var i := FreeIndex(slots, FirstDeletedFinder);
    var s := Slot(Metadata(i, 0, 0, FlagNone), value, ());
    assert AddedValues(Lookup(es, value), i, true) == [i];
    PlacedSound(slots, es, i, s);
    PlacedValues(slots, i, s);
    SinglePut(es, value, i);
    PutLookup(es, value, [i], value);
    if Tracked(slots, es) && UniqueIds(slots) && value as int !in IdIndexes.Values(slots) {
      PlacedExact(slots, es, i, s);
    }
  }

  class UInt16Database {
    /** The records: each record's own field is its value; no content is stored. */
    const db: Database<UInt16, ()>
    /** The value index: each value to the slot holding it, kept with `clearValues`. */
    const index: AVLTree<int>

    ghost predicate Valid()
      reads this, db, db.indexing, db.indexing.indexFlags, index
    {
      db.Valid() && index.Valid() && index != db.indexing.indexFlags
      && AllNone(db.slots) && Sound(db.slots, index.Contents()) && Single(index.Contents())
    }

    /** The index lists every live record and no value is held twice. */
    ghost predicate Exact()
      reads this, db, index
    {
      Tracked(db.slots, index.Contents()) && UniqueIds(db.slots)
    }

    /** The values of the live records. */
    ghost function Values(): set<int>
      reads this, db
    {
      IdIndexes.Values(db.slots)
    }

    constructor()
      ensures Valid() && Exact() && Values() == {} && !db.isDirty
      ensures fresh(db) && fresh(db.indexing) && fresh(db.indexing.indexFlags) && fresh(index)
    {
      db := new Database<UInt16, ()>();
      index := new AVLTree<int>();
    }

    /**
     * `Add`: the value gets a record flagged `None` in the first deleted
     * slot (or a new one at the end), the index maps the value to that
     * slot alone, and the store is flagged dirty.
     */
    method Add(value: UInt16)
      requires Valid()
      modifies db, db.indexing.indexFlags, index
      ensures Valid() && db.isDirty
      ensures var i := FreeIndex(old(db.slots), FirstDeletedFinder);
              db.slots == Placed(old(db.slots), i, Slot(Metadata(i, 0, 0, FlagNone), value, ()))
              && index.Contents() == Put(old(index.Contents()), value, [i])
      ensures Lookup(index.Contents(), value) == Some([FreeIndex(old(db.slots), FirstDeletedFinder)])
      ensures Values() == old(Values()) + {value as int}
      ensures old(Exact()) && value !in old(Values()) ==> Exact()
    {
      AddKept(db.slots, index.Contents(), value);
      var idx := db.Add(value, (), FlagNone, FirstDeletedFinder, 0, 0);
      index.Add(value, idx, true);
      db.FlagDirty(true);
    }

    /** `Contains`: whether the index holds the value; with an exact index, whether a live record holds it. */
    method Contains(key: UInt16) returns (b: bool)
      requires Valid()
      ensures b <==> Lookup(index.Contents(), key).Some?
      ensures b ==> key in Values()
      ensures Exact() ==> (b <==> key in Values())
    {
      b := index.ContainsKey(key);
      if b {
        LookupNonEmpty(index.Contents(), key);
        assert Listed(db.slots, key, Bucket(index.Contents(), key)[0]);
      }
      if Exact() && key in Values() {
        var j :| 0 <= j < |db.slots| && Live(db.slots[j]) && db.slots[j].extra == key;
        assert j in Bucket(index.Contents(), key);
      }
    }

    /**
     * `Remove`: the slots the index lists under the value are deleted
     * (records flagged `None` are never locked), and each deleted record's
     * value leaves the index.  With an exact index, the value leaves the set.
     */
    method Remove(value: UInt16)
      requires Valid()
      modifies db, db.indexing.indexFlags, index
      ensures Valid()
      ensures db.slots == DeleteAll(old(db.slots), Bucket(old(index.Contents()), value))
      ensures index.Contents() == SortedEntries.Remove(old(index.Contents()), value)
      ensures db.isDirty == (old(db.isDirty) || Lookup(old(index.Contents()), value).Some?)
      ensures old(Exact()) ==> Exact() && Values() == old(Values()) - {value as int}
    {
      ghost var s0, es0 := db.slots, index.Contents();
      var found := index.Find(value);
      RemoveKeeps(s0, es0, value);
      RemoveKept(s0, es0, value);
      DropValue(found, value);
    }

    /** `Delete` on the records the index lists under `value`, then the value leaves the index. */
    method DropValue(found: Option<seq<int>>, value: UInt16)
      requires db.Valid() && index.Valid() && index != db.indexing.indexFlags
      requires found == Lookup(index.Contents(), value)
      requires Lookup(index.Contents(), value).Some? <==> Bucket(index.Contents(), value) != []
      requires Bucket(index.Contents(), value) == [] ==> SortedEntries.Remove(index.Contents(), value) == index.Contents()
      requires var b := Bucket(index.Contents(), value);
               (forall n :: 0 <= n < |b| ==> 0 <= b[n] < |db.slots| && db.slots[b[n]].extra == value)
               && UnlockedOf(db.slots, b) == b
      modifies db, db.indexing.indexFlags, index
      ensures db.Valid() && index.Valid()
      ensures db.slots == DeleteAll(old(db.slots), Bucket(old(index.Contents()), value))
      ensures index.Contents() == SortedEntries.Remove(old(index.Contents()), value)
      ensures db.isDirty == (old(db.isDirty) || found.Some?)
    {
      var count, deleted := db.Delete(found);
      assert deleted == Bucket(old(index.Contents()), value);
      RemovedIndex(deleted, value);
    }

    /** The index side of `MetadataService.Remove`, once per deleted record: its value leaves the index. */
    method RemovedIndex(deleted: seq<nat>, value: UInt16)
      requires index.Valid()
      requires forall n :: 0 <= n < |deleted| ==> 0 <= deleted[n] < |db.slots| && db.slots[deleted[n]].extra == value
      requires deleted == [] ==> SortedEntries.Remove(index.Contents(), value) == index.Contents()
      modifies index
      ensures index.Valid()
      ensures index.Contents() == SortedEntries.Remove(old(index.Contents()), value)
    {
      ghost var es0 := index.Contents();
      for j := 0 to |deleted|
        invariant index.Valid()
        invariant index.Contents() == if j == 0 then es0 else SortedEntries.Remove(es0, value)
      {
        var _ := index.RemoveKey(db.slots[deleted[j]].extra);
        if j > 0 {
          RemoveTwice(es0, value);
        }
      }
    }

    /**
     * `GetNext` as written: the scan visits every record, deleted ones
     * included, so its answer is over `AllValues`.
     */
    method GetNextAsWritten(value: UInt16) returns (found: bool, next: UInt16)
      ensures IsNextOf(AllValues(db.slots), value, found, next)
    {
      var smallest: UInt16 := 0xFFFF;
      for i := 0 to |db.slots|
        invariant forall j :: 0 <= j < i && value < db.slots[j].extra ==> smallest <= db.slots[j].extra
        invariant smallest < 0xFFFF ==> value < smallest && exists j :: 0 <= j < i && db.slots[j].extra == smallest
      {
        var current := db.slots[i].extra;
        if current < smallest && current > value {
          smallest := current;
        }
      }
      forall v | v in AllValues(db.slots) && value < v
        ensures smallest <= v
      {
        var j :| 0 <= j < |db.slots| && db.slots[j].extra == v;
      }
      ScanIsNext(AllValues(db.slots), value, smallest);
      if smallest == 0xFFFF {
        return false, 0;
      }
      return true, smallest;
    }

    /**
     * `GetNext` over the live records: the smallest value a live record
     * holds above `value`, or `(false, 0)` when there is none.
     */
    method GetNext(value: UInt16) returns (found: bool, next: UInt16)
      ensures IsNextOf(Values(), value, found, next)
    {
      var smallest: UInt16 := 0xFFFF;
      for i := 0 to |db.slots|
        invariant forall j :: 0 <= j < i && Live(db.slots[j]) && value < db.slots[j].extra ==> smallest <= db.slots[j].extra
        invariant smallest < 0xFFFF ==>
                    value < smallest && exists j :: 0 <= j < i && Live(db.slots[j]) && db.slots[j].extra == smallest
      {
        var s := db.slots[i];
        if Live(s) && s.extra < smallest && s.extra > value {
          smallest := s.extra;
        }
      }
      forall v | v in Values() && value < v
        ensures smallest <= v
      {
        var j :| 0 <= j < |db.slots| && Live(db.slots[j]) && db.slots[j].extra == v;
      }
      ScanIsNext(Values(), value, smallest);
      if smallest == 0xFFFF {
        return false, 0;
      }
      return true, smallest;
    }

    /** `Count`: the index's element count cast to 16 bits; with an exact index, the number of live values. */
    method Count() returns (n: UInt16)
      requires Valid()
      ensures n == |index.Contents()| % 0x1_0000
      ensures Exact() ==> n == |Values()| % 0x1_0000
    {
      SingleTotal(index.Contents());
      if Exact() {
        SortedKeys(index.Contents());
        KeysAreValues(db.slots, index.Contents());
      }
      n := index.elemCount % 0x1_0000;
    }
  }
}

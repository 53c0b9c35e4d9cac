/**
 * What each change of the topic-alias store keeps: adding a record,
 * removing a deleted record from both indexes, and changing a sent flag
 * all leave the records and their indexes mapped.
 */
module TopicAliasMappingProofs {
  import opened Bytes
  import opened SortedEntries
  import opened AVLTrees
  import opened Metadatas
  import opened IndexingServices
  import opened Databases
  import IdIndexes
  import opened TopicAliasMappings

  /** A store holding aliases counts them: one slot per alias, as many in the hash index. */
  lemma CountIsAliases(slots: seq<Slot<AliasRecord, seq<Byte>>>, hs: seq<Entry<int>>, als: seq<Entry<int>>)
    requires Mapped(slots, hs, als) && Sorted(als) && NonEmptyLists(als)
    ensures ElemTotal(hs) == |Aliases(slots)|
  {
    IdIndexes.SingleTotal(als);
    IdIndexes.SortedKeys(als);
    AliasesAreKeys(slots, als);
  }

  /**
   * Adding a record in a free slot `i` under an alias the store does not
   * hold keeps the store mapped: the hash index appends `i` under the
   * record's hash, the alias index lists `i` alone under its alias, and the
   * alias then names the record's topic.
   */
  lemma AddKeeps(slots: seq<Slot<AliasRecord, seq<Byte>>>, hs: seq<Entry<int>>, als: seq<Entry<int>>,
                 i: nat, s: Slot<AliasRecord, seq<Byte>>)
    requires Mapped(slots, hs, als) && Sorted(hs) && Sorted(als) && Lookup(als, s.extra.alias).None?
    requires i <= |slots| && (i < |slots| ==> !Live(slots[i]))
    requires Live(s) && s.meta.flags == FlagNone
    requires |s.content| < 0x1_0000_0000 && s.extra.hash == TopicHash(s.content)
    ensures var h, a := s.extra.hash, s.extra.alias;
            var after := Placed(slots, i, s);
            var hs', als' := Put(hs, h, Bucket(hs, h) + [i]), Put(als, a, [i]);
            Mapped(after, hs', als')
            && Lookup(als', a) == Some([i])
            && (a != 0 ==> TopicOf(after, als', a) == Some(s.content))
            && Lookup(hs', h) == Some(Bucket(hs, h) + [i])
            && Aliases(after) == Aliases(slots) + {a as int}
  {
    var h, a := s.extra.hash, s.extra.alias;
    var after := Placed(slots, i, s);
    var hs', als' := Put(hs, h, Bucket(hs, h) + [i]), Put(als, a, [i]);
    assert Bucket(als, a) == [];
    assert Mapped(after, hs', als') by {
      assert Sound(after, hs', ByHash) && i !in Bucket(hs, h) by { PlacedSound(slots, hs, ByHash, i, s); }
      assert TopicAliasMappings.KeyOf(s.extra, ByAlias) == a as int && Bucket(als, a) + [i] == [i];
      assert Sound(after, als', ByAlias) by { PlacedSound(slots, als, ByAlias, i, s); }
      assert Tracked(after, hs', ByHash) by { PlacedTracked(slots, hs, ByHash, i, s); }
      assert Tracked(after, als', ByAlias) by { PlacedTracked(slots, als, ByAlias, i, s); }
      assert NoRepeats(hs') by { PlacedNoRepeats(hs, h, i); }
      assert AllNone(after) && Hashed(after) by { PlacedHashed(slots, i, s); }
      assert IdIndexes.Single(als') by { IdIndexes.SinglePut(als, a, i); }
      assert ElemTotal(hs') == ElemTotal(als') by {
        PutCounts(hs, h, Bucket(hs, h) + [i]);
        PutCounts(als, a, [i]);
      }
    }
    assert Aliases(after) == Aliases(slots) + {a as int} by { PlacedAliases(slots, i, s); }
    PutLookup(hs, h, Bucket(hs, h) + [i], h);
    PutLookup(als, a, [i], a);
  }

  /**
   * `IndexingService.Remove` for a record just deleted, with the hash
   * list losing only the record's slot: the store stays mapped.
   */
  lemma UnindexKeeps(slots: seq<Slot<AliasRecord, seq<Byte>>>, hs: seq<Entry<int>>, als: seq<Entry<int>>, d: nat)
    requires Mapped(slots, hs, als) && Sorted(hs) && Sorted(als) && NonEmptyLists(hs) && NonEmptyLists(als)
    requires d < |slots|
    requires forall e :: 0 <= e < |slots| && e != d && Live(slots[e]) ==> slots[e].extra.alias != slots[d].extra.alias
    ensures Mapped(slots[d := Deleted(slots[d])], RemoveUnder(hs, slots[d].extra.hash, d),
                   SortedEntries.Remove(als, slots[d].extra.alias))
  {
    var h, a := slots[d].extra.hash, slots[d].extra.alias;
    HashListedOnce(slots, hs, d);
    UnindexHashSound(slots, hs, d);
    UnindexHashTracked(slots, hs, d);
    UnindexHashRepeats(hs, h, d);
    RemoveUnderTotal(hs, h, d);
    AliasBucketOf(slots, als, d);
    UnindexAliasSound(slots, als, d);
    UnindexAliasTracked(slots, als, d);
    IdIndexes.SingleRemove(als, a);
    RemoveSpec(als, a, a);
    DeletedKeeps(slots, d);
  }

  /**
   * One step of removing deleted records from the indexes: with the first
   * `j` already removed, removing the next keeps the store mapped.  Each
   * record was live before the deletions, so its alias is its own.
   */
  lemma UnindexStep(s0: seq<Slot<AliasRecord, seq<Byte>>>, ds: seq<nat>, j: nat, hs: seq<Entry<int>>, als: seq<Entry<int>>)
    requires j < |ds| && forall n :: 0 <= n < |ds| ==> ds[n] < |s0| && Live(s0[ds[n]])
    requires UniqueAliases(s0)
    requires Mapped(DeleteAll(s0, ds[..j]), hs, als) && Sorted(hs) && Sorted(als) && NonEmptyLists(hs) && NonEmptyLists(als)
    ensures DeleteAll(s0, ds)[ds[j]].extra == s0[ds[j]].extra
    ensures Mapped(DeleteAll(s0, ds[..j + 1]), RemoveUnder(hs, s0[ds[j]].extra.hash, ds[j]),
                   SortedEntries.Remove(als, s0[ds[j]].extra.alias))
  {
    var d := ds[j];
    var now := DeleteAll(s0, ds[..j]);
    assert ds[..j + 1] == ds[..j] + [d];
    DeleteAllStep(s0, ds[..j], d);
    assert now[d].extra == s0[d].extra;
    forall e | 0 <= e < |now| && e != d && Live(now[e])
      ensures now[e].extra.alias != now[d].extra.alias
    {
      assert e !in ds[..j] && now[e] == s0[e];
    }
    UnindexKeeps(now, hs, als, d);
  }

  /**
   * The loop step of unindexing deleted records, phrased over the store
   * after all the deletions: unindexing the next record by what its slot
   * now holds extends the unindexed prefix by one.
   */
  lemma UnindexedNext(s0: seq<Slot<AliasRecord, seq<Byte>>>, ds: seq<nat>, j: nat, hs: seq<Entry<int>>, als: seq<Entry<int>>,
                      slots: seq<Slot<AliasRecord, seq<Byte>>>, hs': seq<Entry<int>>, als': seq<Entry<int>>)
    requires j < |ds| && forall n :: 0 <= n < |ds| ==> ds[n] < |s0| && Live(s0[ds[n]])
    requires UniqueAliases(s0) && slots == DeleteAll(s0, ds) && ds[j] < |slots|
    requires Mapped(DeleteAll(s0, ds[..j]), hs, als) && Sorted(hs) && Sorted(als) && NonEmptyLists(hs) && NonEmptyLists(als)
    requires hs' == RemoveUnder(hs, slots[ds[j]].extra.hash, ds[j])
    requires als' == SortedEntries.Remove(als, slots[ds[j]].extra.alias)
    ensures Mapped(DeleteAll(s0, ds[..j + 1]), hs', als')
  {
    UnindexStep(s0, ds, j, hs, als);
  }

  /** Changing only sent flags keeps the store mapped and every alias naming the same topic. */
  lemma SentKeeps(slots: seq<Slot<AliasRecord, seq<Byte>>>, after: seq<Slot<AliasRecord, seq<Byte>>>,
                  hs: seq<Entry<int>>, als: seq<Entry<int>>)
    requires Mapped(slots, hs, als) && SameButSent(slots, after)
    ensures Mapped(after, hs, als)
    ensures forall a :: TopicOf(after, als, a) == TopicOf(slots, als, a)
  {
    SentSound(slots, after, hs, ByHash);
    SentSound(slots, after, als, ByAlias);
    SentTracked(slots, after, hs, ByHash);
    SentTracked(slots, after, als, ByAlias);
    SentHashed(slots, after, als);
  }

  /** The slots a mapped store lists under an alias: at least one, all live, none locked. */
  lemma ListedForDelete(slots: seq<Slot<AliasRecord, seq<Byte>>>, hs: seq<Entry<int>>, als: seq<Entry<int>>,
                        alias: UInt16, list: seq<int>)
    requires Mapped(slots, hs, als) && NonEmptyLists(als) && Lookup(als, alias) == Some(list)
    ensures |list| > 0 && list == Bucket(als, alias)
    ensures forall j :: 0 <= j < |list| ==> 0 <= list[j] < |slots| && Live(slots[list[j]])
    ensures UnlockedOf(slots, list) == list
  {
    IdIndexes.LookupNonEmpty(als, alias);
    forall j | 0 <= j < |list|
      ensures 0 <= list[j] < |slots| && Live(slots[list[j]])
    {
      assert Listed(slots, ByAlias, alias, Bucket(als, alias)[j]);
    }
    NoneUnlocked(slots, list);
  }

  /** Once the slots listed under an alias are deleted and the store mapped again, the alias is free. */
  lemma DeletedListGone(s0: seq<Slot<AliasRecord, seq<Byte>>>, hs0: seq<Entry<int>>, als0: seq<Entry<int>>,
                        alias: UInt16, list: seq<int>, hs: seq<Entry<int>>, als: seq<Entry<int>>)
    requires Mapped(s0, hs0, als0) && Lookup(als0, alias) == Some(list)
    requires Mapped(DeleteAll(s0, list), hs, als) && NonEmptyLists(als)
    ensures Lookup(als, alias).None?
    ensures Aliases(DeleteAll(s0, list)) == Aliases(s0) - {alias as int}
  {
    assert list == Bucket(als0, alias);
    AliasGone(s0, als0, alias, als);
  }

  /**
   * `Clear` on a store of `None` records picks every live record: none is
   * locked, and `None` is never a kept flag.  Afterwards no record is live.
   */
  lemma ClearedAll(slots: seq<Slot<AliasRecord, seq<Byte>>>, deleted: seq<nat>, keepUserAdded: bool)
    requires AllNone(slots)
    requires forall i :: i in deleted <==> (0 <= i < |slots| && Live(slots[i]) && !IsLocked(slots[i].meta)
                                          && slots[i].meta.flags & !KeptFlags(keepUserAdded) != 0)
    ensures forall n :: 0 <= n < |deleted| ==> deleted[n] < |slots| && Live(slots[deleted[n]])
    ensures forall i :: 0 <= i < |slots| ==> !Live(DeleteAll(slots, deleted)[i])
  {
    forall i | 0 <= i < |slots| && Live(slots[i])
      ensures i in deleted
    {
      assert slots[i].meta.flags == FlagNone;
      assert !HasFlag(FlagNone, FlagLocked);
    }
    forall n | 0 <= n < |deleted|
      ensures deleted[n] < |slots| && Live(slots[deleted[n]])
    {
      assert deleted[n] in deleted;
    }
  }

  /** A mapped store with no live record has empty indexes and no alias in use. */
  lemma Emptied(slots: seq<Slot<AliasRecord, seq<Byte>>>, hs: seq<Entry<int>>, als: seq<Entry<int>>)
    requires Mapped(slots, hs, als) && NonEmptyLists(hs) && NonEmptyLists(als)
    requires forall i :: 0 <= i < |slots| ==> !Live(slots[i])
    ensures hs == [] && als == [] && Aliases(slots) == {}
  {
    IndexedLive(slots, hs, ByHash);
    IndexedLive(slots, als, ByAlias);
  }

  /** The two-alias store is a mapped store: both slots under the hash, each under its alias. */
  lemma TwoAliasesMapped(topic: seq<Byte>)
    requires |topic| < 0x1_0000_0000
    ensures Mapped(TwoAliases(topic, TopicHash(topic)), [Entry(TopicHash(topic), [0, 1])], [Entry(1, [0]), Entry(2, [1])])
  {
    TwoAliasesSound(topic, TopicHash(topic));
    TwoAliasesTracked(topic, TopicHash(topic));
    TwoAliasesHashed(topic);
    TwoAliasesCounts(TopicHash(topic));
  }
}

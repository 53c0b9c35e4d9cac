/**
 * `TopicAliasMappingDatabase`: the topic aliases the client gave topic
 * names, kept in a database of records with an AVL tree by hash and one
 * by alias.
 */
module TopicAliasMappingDatabases {
  import opened Bytes
  import opened SortedEntries
  import opened AVLTrees
  import opened Metadatas
  import opened IndexingServices
  import opened Databases
  import opened MurmurHash
  import IdIndexes
  import opened TopicAliasMappings
  import opened TopicAliasMappingProofs

  // ---------------------------------------------------------------- store

  class TopicAliasMappingDatabase {
    /** The records: the hash, alias and sent flag as own fields, the topic name as content. */
    const db: Database<AliasRecord, seq<Byte>>
    /** `index_Hash`: topic hash to the slots holding it. */
    const hashes: AVLTree<int>
    /** `index_Alias`: alias to the slots holding it. */
    const aliases: AVLTree<int>

    ghost predicate Valid()
      reads this, db, db.indexing, db.indexing.indexFlags, hashes, aliases
    {
      db.Valid() && hashes.Valid() && aliases.Valid()
      && hashes != aliases && hashes != db.indexing.indexFlags && aliases != db.indexing.indexFlags
      && Mapped(db.slots, hashes.Contents(), aliases.Contents())
    }

    /** The aliases in use. */
    ghost function InUse(): set<int>
      reads this, db
    {
      Aliases(db.slots)
    }

    constructor()
      ensures Valid() && InUse() == {} && db.slots == [] && !db.isDirty
      ensures fresh(db) && fresh(db.indexing) && fresh(db.indexing.indexFlags) && fresh(hashes) && fresh(aliases)
    {
      db := new Database<AliasRecord, seq<Byte>>();
      hashes := new AVLTree<int>();
      aliases := new AVLTree<int>();
    }

    /**
     * The free-alias search of `Add`: the smallest alias in
     * `[1, topicAliasMaximum]` the alias index does not hold, or 0 when all
     * of them are held.
     */
    method FindFreeAlias(max: UInt16) returns (alias: UInt16)
      requires aliases.Valid()
      ensures alias == 0 <==> forall a: int :: 1 <= a <= max ==> Lookup(aliases.Contents(), a).Some?
      ensures alias != 0 ==> 1 <= alias <= max && Lookup(aliases.Contents(), alias).None?
      ensures forall a: int :: 1 <= a < alias ==> Lookup(aliases.Contents(), a).Some?
    {
      var i := 1;
      while i <= max
        invariant 1 <= i <= max as int + 1
        invariant forall a: int :: 1 <= a < i ==> Lookup(aliases.Contents(), a).Some?
      {
        var used := aliases.ContainsKey(i);
        if !used {
          return i;
        }
        i := i + 1;
      }
      return 0;
    }

    /**
     * The private `Add(alias, topicName)` for an alias the store does not
     * hold: the topic name's bytes were appended to the content file at
     * `filePosition`; a record flagged `None` with the name's hash, the
     * alias and the sent flag cleared takes the first deleted slot (or a
     * new one), both indexes append it under its keys, and the store is
     * flagged dirty.
     */
    method AddRecord(alias: UInt16, topic: seq<Byte>, filePosition: Int32, length: Int32)
      requires Valid() && filePosition >= 0 && |topic| < 0x8000_0000
      requires Lookup(aliases.Contents(), alias).None?
      modifies db, db.indexing.indexFlags, hashes, aliases
      ensures Valid() && db.isDirty
      ensures var i := FreeIndex(old(db.slots), FirstDeletedFinder);
              var r := AliasRecord(TopicHash(topic), alias, false);
              db.slots == Placed(old(db.slots), i, Slot(Metadata(i, filePosition, length, FlagNone), r, topic))
              && Lookup(hashes.Contents(), r.hash) == Some(Bucket(old(hashes.Contents()), r.hash) + [i])
              && Lookup(aliases.Contents(), alias) == Some([i])
      ensures alias != 0 ==> TopicOf(db.slots, aliases.Contents(), alias) == Some(topic)
      ensures InUse() == old(InUse()) + {alias as int}
    {
      ghost var s0, hs0, als0 := db.slots, hashes.Contents(), aliases.Contents();
      var hash := HashTopic(topic);
      ghost var i := FreeIndex(s0, FirstDeletedFinder);
      var r := AliasRecord(hash, alias, false);
      ghost var s := Slot(Metadata(i, filePosition, length, FlagNone), r, topic);
      AddKeeps(s0, hs0, als0, i, s);
      PlaceRecord(r, topic, filePosition, length);
    }

    /** `MetadataService.Create` for a new record: placed in the first free slot, and indexed there. */
    method PlaceRecord(r: AliasRecord, topic: seq<Byte>, filePosition: Int32, length: Int32)
      requires Valid() && filePosition >= 0
      requires Lookup(aliases.Contents(), r.alias).None?
      modifies db, db.indexing.indexFlags, hashes, aliases
      ensures db.Valid() && hashes.Valid() && aliases.Valid() && db.isDirty
      ensures var i := FreeIndex(old(db.slots), FirstDeletedFinder);
              db.slots == Placed(old(db.slots), i, Slot(Metadata(i, filePosition, length, FlagNone), r, topic))
              && hashes.Contents() == Put(old(hashes.Contents()), r.hash, Bucket(old(hashes.Contents()), r.hash) + [i])
              && aliases.Contents() == Put(old(aliases.Contents()), r.alias, [i])
    {
      var idx := db.Add(r, topic, FlagNone, FirstDeletedFinder, filePosition, length);
      IndexRecord(r.hash, r.alias, idx);
    }

    /** The `Index` half of `MetadataService.Create`: both trees append slot `idx` under its keys. */
    method IndexRecord(hash: UInt32, alias: UInt16, idx: nat)
      requires hashes.Valid() && aliases.Valid() && hashes != aliases
      requires Lookup(aliases.Contents(), alias).None?
      modifies hashes, aliases
      ensures hashes.Valid() && aliases.Valid()
      ensures hashes.Contents() == Put(old(hashes.Contents()), hash, Bucket(old(hashes.Contents()), hash) + [idx])
      ensures aliases.Contents() == Put(old(aliases.Contents()), alias, [idx])
    {
      hashes.Add(hash, idx, false);
      assert AddedValues(Lookup(old(aliases.Contents()), alias), idx, false) == [idx];
      aliases.Add(alias, idx, false);
    }

    /**
     * `Add(topicName, topicAliasMaximum)`: the smallest free alias in
     * `[1, topicAliasMaximum]` is given to the name, which it then names;
     * an error, and no change, when every one of them is taken.
     */
    method Add(topic: seq<Byte>, max: UInt16, filePosition: Int32, length: Int32) returns (r: Result<UInt16>)
      requires Valid() && filePosition >= 0 && |topic| < 0x8000_0000
      modifies db, db.indexing.indexFlags, hashes, aliases
      ensures Valid()
      ensures r.Err? <==> forall a: int :: 1 <= a <= max ==> a in old(InUse())
      ensures r.Err? ==> db.slots == old(db.slots) && hashes.Contents() == old(hashes.Contents())
                         && aliases.Contents() == old(aliases.Contents()) && db.isDirty == old(db.isDirty)
      ensures r.Ok? ==> 1 <= r.value <= max && r.value as int !in old(InUse())
                        && (forall a: int :: 1 <= a < r.value ==> a in old(InUse()))
                        && InUse() == old(InUse()) + {r.value as int}
                        && TopicOf(db.slots, aliases.Contents(), r.value) == Some(topic)
    {
      var alias := FindFreeAlias(max);
      ghost var s0, als0 := db.slots, aliases.Contents();
      AliasesAreKeys(s0, als0);
      forall a: int | 1 <= a <= max
        ensures a in Aliases(s0) <==> Lookup(als0, a).Some?
      {
        LookupKeys(als0, a);
        KeyLookup(als0, a);
      }
      if alias == 0 {
        assert forall a: int :: 1 <= a <= max ==> Lookup(als0, a).Some?;
        assert forall a: int :: 1 <= a <= max ==> a in Aliases(s0);
        return Err("no free alias");
      }
      AddRecord(alias, topic, filePosition, length);
      return Ok(alias);
    }

    /**
     * `Set(alias, topicName)`: every record listed under the alias is
     * deleted (records flagged `None` are never locked) and leaves both
     * indexes; then the alias is added for the name, so the alias names
     * it, whatever it named before.
     */
    method Set(alias: UInt16, topic: seq<Byte>, filePosition: Int32, length: Int32)
      requires Valid() && filePosition >= 0 && |topic| < 0x8000_0000
      modifies db, db.indexing.indexFlags, hashes, aliases
      ensures Valid() && db.isDirty
      ensures var gone := DeleteAll(old(db.slots), Bucket(old(aliases.Contents()), alias));
              var i := FreeIndex(gone, FirstDeletedFinder);
              db.slots == Placed(gone, i, Slot(Metadata(i, filePosition, length, FlagNone),
                                             AliasRecord(TopicHash(topic), alias, false), topic))
              && Lookup(aliases.Contents(), alias) == Some([i])
      ensures alias != 0 ==> TopicOf(db.slots, aliases.Contents(), alias) == Some(topic)
      ensures InUse() == old(InUse()) + {alias as int}
    {
      ghost var s0, als0 := db.slots, aliases.Contents();
      var found := aliases.Find(alias);
      if found.Some? {
        DeleteListed(alias, found.value);
      } else {
        DeleteAllNothing(s0);
        AliasFree(s0, als0, alias);
        assert Aliases(s0) + {alias as int} == Aliases(s0) + {alias as int} - {alias as int} + {alias as int};
      }
      AddRecord(alias, topic, filePosition, length);
    }

    /** The deletion half of `Set`: `Delete` on the slots listed under `alias`. */
    method DeleteListed(alias: UInt16, list: seq<int>)
      requires Valid() && Lookup(aliases.Contents(), alias) == Some(list)
      modifies db, db.indexing.indexFlags, hashes, aliases
      ensures Valid() && db.isDirty
      ensures db.slots == DeleteAll(old(db.slots), list)
      ensures Lookup(aliases.Contents(), alias).None?
      ensures InUse() == old(InUse()) - {alias as int}
    {
      ghost var s0, hs0, als0 := db.slots, hashes.Contents(), aliases.Contents();
      ListedForDelete(s0, hs0, als0, alias, list);
      DropRecords(list);
      DeletedListGone(s0, hs0, als0, alias, list, hashes.Contents(), aliases.Contents());
    }

    /** `Delete` on listed live, unlocked slots, followed by unindexing each of them. */
    method DropRecords(list: seq<int>)
      requires db.Valid() && hashes.Valid() && aliases.Valid()
      requires hashes != aliases && hashes != db.indexing.indexFlags && aliases != db.indexing.indexFlags
      requires Mapped(db.slots, hashes.Contents(), aliases.Contents()) && |list| > 0
      requires forall j :: 0 <= j < |list| ==> 0 <= list[j] < |db.slots| && Live(db.slots[list[j]])
      requires UnlockedOf(db.slots, list) == list
      modifies db, db.indexing.indexFlags, hashes, aliases
      ensures db.Valid() && hashes.Valid() && aliases.Valid() && db.isDirty
      ensures db.slots == DeleteAll(old(db.slots), list)
      ensures Mapped(db.slots, hashes.Contents(), aliases.Contents())
    {
      ghost var s0 := db.slots;
      var count, deleted := db.Delete(Some(list));
      UnindexDeleted(deleted, s0);
    }

    /**
     * `Clear(keepUserAdded)`: records flagged `None` are neither locked
     * nor user-added, so every live record is deleted and leaves both
     * indexes; the answer counts them.
     */
    method Clear(keepUserAdded: bool) returns (count: nat)
      requires Valid()
      modifies db, db.indexing.indexFlags, hashes, aliases
      ensures Valid() && InUse() == {}
      ensures hashes.Contents() == [] && aliases.Contents() == []
      ensures db.isDirty == (old(db.isDirty) || count > 0)
      ensures forall i :: 0 <= i < |db.slots| ==> !Live(db.slots[i])
    {
      ghost var s0 := db.slots;
      var deleted;
      count, deleted := db.Clear(keepUserAdded);
      ClearedAll(s0, deleted, keepUserAdded);
      UnindexDeleted(deleted, s0);
      Emptied(db.slots, hashes.Contents(), aliases.Contents());
    }

    /**
     * The index side of `MetadataService.Remove`, for each record `Delete`
     * took out: `IndexingService.Remove` drops the record's alias, and its
     * slot from its hash's list.
     */
    method UnindexDeleted(deleted: seq<nat>, ghost s0: seq<Slot<AliasRecord, seq<Byte>>>)
      requires hashes.Valid() && aliases.Valid() && hashes != aliases
      requires Mapped(s0, hashes.Contents(), aliases.Contents())
      requires db.slots == DeleteAll(s0, deleted)
      requires forall n :: 0 <= n < |deleted| ==> deleted[n] < |s0| && Live(s0[deleted[n]])
      modifies hashes, aliases
      ensures hashes.Valid() && aliases.Valid()
      ensures Mapped(db.slots, hashes.Contents(), aliases.Contents())
    {
      MappedUnique(s0, aliases.Contents());
      assert deleted[..0] == [];
      DeleteAllNothing(s0);
      for j := 0 to |deleted|
        invariant hashes.Valid() && aliases.Valid()
        invariant Mapped(DeleteAll(s0, deleted[..j]), hashes.Contents(), aliases.Contents())
      {
        ghost var hs, als := hashes.Contents(), aliases.Contents();
        RemoveIndexed(deleted[j]);
        UnindexedNext(s0, deleted, j, hs, als, db.slots, hashes.Contents(), aliases.Contents());
      }
      assert deleted[..|deleted|] == deleted;
    }

    /**
     * `TopicAliasMappingIndexingService.Remove` for the record in slot
     * `d`: its alias leaves the alias index, and its slot leaves its
     * hash's list.
     */
    method RemoveIndexed(d: nat)
      requires hashes.Valid() && aliases.Valid() && hashes != aliases && d < |db.slots|
      modifies hashes, aliases
      ensures hashes.Valid() && aliases.Valid()
      ensures hashes.Contents() == RemoveUnder(old(hashes.Contents()), db.slots[d].extra.hash, d)
      ensures aliases.Contents() == SortedEntries.Remove(old(aliases.Contents()), db.slots[d].extra.alias)
    {
      var r := db.slots[d].extra;
      hashes.RemoveValue(r.hash, d);
      var _ := aliases.RemoveKey(r.alias);
    }

    /**
     * `Find(alias)`: no topic for alias 0 or an unknown alias; otherwise the
     * topic of the first record listed, which is a live record with that alias.
     */
    method FindTopic(alias: UInt16) returns (r: Option<seq<Byte>>)
      requires Valid()
      ensures r == TopicOf(db.slots, aliases.Contents(), alias)
      ensures r.Some? <==> alias != 0 && alias as int in InUse()
      ensures r.Some? ==> exists i :: Listed(db.slots, ByAlias, alias, i) && r.value == db.slots[i].content
    {
      TopicOfLive(db.slots, aliases.Contents(), alias);
      AliasesAreKeys(db.slots, aliases.Contents());
      LookupKeys(aliases.Contents(), alias);
      KeyLookup(aliases.Contents(), alias);
      if alias == 0 {
        return None;
      }
      var found := aliases.Find(alias);
      if found.None? {
        return None;
      }
      assert forall n :: 0 <= n < |found.value| ==> Listed(db.slots, ByAlias, alias, found.value[n]);
      var contents := db.FromMetadataIndexes(found);
      if contents.None? {
        return None;
      }
      return Some(contents.value[0]);
    }

    /**
     * `Find(topicName)`: `(0, false)` for an empty name, an empty store or
     * an unknown hash; otherwise the alias and the sent flag of the first
     * record listed under the name's hash, a live record whose topic hashes
     * alike.
     */
    method FindAlias(topic: seq<Byte>) returns (alias: UInt16, sentToServer: bool)
      requires Valid() && |topic| < 0x8000_0000
      ensures (alias, sentToServer) == AliasOf(db.slots, hashes.Contents(), topic)
      ensures |topic| > 0 && Lookup(hashes.Contents(), TopicHash(topic)).Some? ==>
                exists i :: Listed(db.slots, ByHash, TopicHash(topic), i)
                            && TopicHash(db.slots[i].content) == TopicHash(topic)
                            && (alias, sentToServer) == (db.slots[i].extra.alias, db.slots[i].extra.sentToServer)
    {
      if |topic| > 0 && Lookup(hashes.Contents(), TopicHash(topic)).Some? {
        AliasOfLive(db.slots, hashes.Contents(), topic);
      }
      if |topic| == 0 {
        return 0, false;
      }
      KeyedTotal(hashes.Contents(), TopicHash(topic));
      if hashes.elemCount == 0 {
        return 0, false;
      }
      var hash := HashTopic(topic);
      var found := hashes.Find(hash);
      if found.None? {
        return 0, false;
      }
      IdIndexes.LookupNonEmpty(hashes.Contents(), hash);
      assert Listed(db.slots, ByHash, hash, Bucket(hashes.Contents(), hash)[0]);
      var record := db.slots[found.value[0]].extra;
      return record.alias, record.sentToServer;
    }

    /** `Count`: the hash index's element count cast to 16 bits, which is the number of aliases in use. */
    method Count() returns (n: UInt16)
      requires Valid()
      ensures n == |InUse()| % 0x1_0000
    {
      CountIsAliases(db.slots, hashes.Contents(), aliases.Contents());
      n := hashes.elemCount % 0x1_0000;
    }

    /**
     * `SetSent`: nothing for an unknown alias; otherwise only the sent flag
     * of the first record listed under the alias changes, and the store is
     * flagged dirty.
     */
    method SetSent(alias: UInt16, sentToServer: bool)
      requires Valid()
      modifies db
      ensures Valid()
      ensures Bucket(aliases.Contents(), alias) == [] ==> db.slots == old(db.slots) && db.isDirty == old(db.isDirty)
      ensures Bucket(aliases.Contents(), alias) != [] ==>
                var i := Bucket(aliases.Contents(), alias)[0];
                var s := old(db.slots)[i];
                db.isDirty && i < |old(db.slots)|
                && db.slots == old(db.slots)[i := s.(extra := s.extra.(sentToServer := sentToServer))]
      ensures forall a :: TopicOf(db.slots, aliases.Contents(), a) == old(TopicOf(db.slots, aliases.Contents(), a))
      ensures InUse() == old(InUse())
    {
      var found := aliases.Find(alias);
      if found.None? {
        return;
      }
      IdIndexes.LookupNonEmpty(aliases.Contents(), alias);
      assert Listed(db.slots, ByAlias, alias, Bucket(aliases.Contents(), alias)[0]);
      var i: nat := found.value[0];
      ghost var s0 := db.slots;
      var updated := db.slots[i].extra.(sentToServer := sentToServer);
      SentKeeps(s0, s0[i := s0[i].(extra := updated)], hashes.Contents(), aliases.Contents());
      SentAliases(s0, s0[i := s0[i].(extra := updated)]);
      db.FlagDirty(true);
      db.UpdateExtra(i, updated);
    }
  }
}

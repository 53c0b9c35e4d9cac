/**
 * The records of the topic-alias store and what they keep with their two
 * indexes.  Each record's own fields are the MurmurHash2 of its topic
 * name, its alias and whether the mapping was already sent to the server;
 * the topic name itself is the stored content.  Two indexes list the
 * records, one by hash and one by alias; both append a slot under its key.
 */
module TopicAliasMappings {
  import opened Bytes
  import opened SortedEntries
  import opened AVLTrees
  import opened Metadatas
  import opened IndexingServices
  import opened Databases
  import opened MurmurHash
  import IdIndexes
  import DataEncoderHelper
  import opened StreamUtil

  /** The fields `TopicAliasMappingMetadata` adds to a record. */
  datatype AliasRecord = AliasRecord(hash: UInt32, alias: UInt16, sentToServer: bool)

  /** The two indexes of the store. */
  datatype Key = ByHash | ByAlias

  function KeyOf(r: AliasRecord, key: Key): int
  {
    match key
    case ByHash => r.hash
    case ByAlias => r.alias
  }

  /** The hash a topic name is indexed under. */
  ghost function TopicHash(topic: seq<Byte>): UInt32
    requires |topic| < 0x1_0000_0000
  {
    Murmur2(topic) as int
  }

  /** `MurmurHash2.Hash` of a topic name, as the index key. */
  method HashTopic(topic: seq<Byte>) returns (h: UInt32)
    requires |topic| < 0x8000_0000
    ensures h == TopicHash(topic)
    ensures |topic| == 0 ==> h == 0
  {
    var b := Hash(topic);
    h := b as int;
  }

  /** Slot `i` holds a live record whose `key` field is `k`. */
  predicate Listed<C>(slots: seq<Slot<AliasRecord, C>>, key: Key, k: int, i: int)
  {
    0 <= i < |slots| && Live(slots[i]) && KeyOf(slots[i].extra, key) == k
  }

  /** Every slot an index lists under a key holds a live record with that key. */
  ghost predicate Sound<C>(slots: seq<Slot<AliasRecord, C>>, es: seq<Entry<int>>, key: Key)
  {
    forall k, n :: 0 <= n < |Bucket(es, k)| ==> Listed(slots, key, k, Bucket(es, k)[n])
  }

  /** Every live record is listed under its key. */
  ghost predicate Tracked<C>(slots: seq<Slot<AliasRecord, C>>, es: seq<Entry<int>>, key: Key)
  {
    forall i {:trigger KeyOf(slots[i].extra, key)} :: 0 <= i < |slots| && Live(slots[i]) ==> i in Bucket(es, KeyOf(slots[i].extra, key))
  }

  /** No list of the index holds a slot twice. */
  ghost predicate NoRepeats(es: seq<Entry<int>>)
  {
    forall k, x :: multiset(Bucket(es, k))[x] <= 1
  }

  /** No two live records carry the same alias. */
  ghost predicate UniqueAliases<C>(slots: seq<Slot<AliasRecord, C>>)
  {
    forall i, j :: 0 <= i < |slots| && 0 <= j < |slots| && i != j && Live(slots[i]) && Live(slots[j])
                   ==> slots[i].extra.alias != slots[j].extra.alias
  }

  /** Every record's hash is the hash of its topic name. */
  ghost predicate Hashed(slots: seq<Slot<AliasRecord, seq<Byte>>>)
  {
    (forall i :: 0 <= i < |slots| ==> |slots[i].content| < 0x1_0000_0000)
    && forall i {:trigger TopicHash(slots[i].content)} :: 0 <= i < |slots| ==> slots[i].extra.hash == TopicHash(slots[i].content)
  }

  /** The aliases the live records carry. */
  ghost function Aliases<C>(slots: seq<Slot<AliasRecord, C>>): set<int>
  {
    set i | 0 <= i < |slots| && Live(slots[i]) :: slots[i].extra.alias as int
  }

  /**
   * What the store keeps between its records and its two indexes: every
   * record is flagged `None` and hashed; the hash index lists each live
   * record once under its hash; the alias index lists each live record
   * alone under its alias; and the two indexes hold as many slots.  That
   * no two live records share an alias follows (`MappedUnique`).
   */
  ghost predicate Mapped(slots: seq<Slot<AliasRecord, seq<Byte>>>, hs: seq<Entry<int>>, als: seq<Entry<int>>)
  {
    AllNone(slots) && Hashed(slots)
    && Sound(slots, hs, ByHash) && Tracked(slots, hs, ByHash) && NoRepeats(hs)
    && Sound(slots, als, ByAlias) && Tracked(slots, als, ByAlias) && IdIndexes.Single(als)
    && ElemTotal(hs) == ElemTotal(als)
  }

  /** What `Find(alias)` answers: no topic for alias 0 or an unknown alias, else the topic of the first record listed. */
  ghost function TopicOf(slots: seq<Slot<AliasRecord, seq<Byte>>>, als: seq<Entry<int>>, alias: UInt16): Option<seq<Byte>>
  {
    var b := Bucket(als, alias);
    if alias == 0 || b == [] || !(0 <= b[0] < |slots|) then None else Some(slots[b[0]].content)
  }

  /**
   * What `Find(topicName)` answers: `(0, false)` for an empty name or an
   * unknown hash, else the alias and the sent flag of the first record
   * listed under the name's hash.
   */
  ghost function AliasOf(slots: seq<Slot<AliasRecord, seq<Byte>>>, hs: seq<Entry<int>>, topic: seq<Byte>): (UInt16, bool)
    requires |topic| < 0x1_0000_0000
  {
    if |topic| == 0 then (0, false) else AliasUnder(slots, hs, TopicHash(topic))
  }

  /** The alias and the sent flag of the first record listed under hash `h`, or `(0, false)`. */
  function AliasUnder<C>(slots: seq<Slot<AliasRecord, C>>, hs: seq<Entry<int>>, h: int): (UInt16, bool)
  {
    var b := Bucket(hs, h);
    if b == [] || !(0 <= b[0] < |slots|) then (0, false)
    else (slots[b[0]].extra.alias, slots[b[0]].extra.sentToServer)
  }

  // ------------------------------------------------------------- answers

  /** A known alias names the topic of a live record carrying it. */
  lemma TopicOfLive(slots: seq<Slot<AliasRecord, seq<Byte>>>, als: seq<Entry<int>>, alias: UInt16)
    requires Sound(slots, als, ByAlias) && NonEmptyLists(als)
    ensures TopicOf(slots, als, alias).Some? <==> alias != 0 && Lookup(als, alias).Some?
    ensures TopicOf(slots, als, alias).Some? ==>
              exists i :: Listed(slots, ByAlias, alias, i) && TopicOf(slots, als, alias).value == slots[i].content
  {
    if alias != 0 && Lookup(als, alias).Some? {
      IdIndexes.LookupNonEmpty(als, alias);
      assert Listed(slots, ByAlias, alias, Bucket(als, alias)[0]);
    }
  }

  /** A known name answers with the alias of a live record whose topic hashes alike. */
  lemma AliasOfLive(slots: seq<Slot<AliasRecord, seq<Byte>>>, hs: seq<Entry<int>>, topic: seq<Byte>)
    requires Sound(slots, hs, ByHash) && Hashed(slots) && NonEmptyLists(hs) && |topic| < 0x1_0000_0000
    requires |topic| > 0 && Lookup(hs, TopicHash(topic)).Some?
    ensures exists i :: Listed(slots, ByHash, TopicHash(topic), i)
                        && TopicHash(slots[i].content) == TopicHash(topic)
                        && AliasOf(slots, hs, topic) == (slots[i].extra.alias, slots[i].extra.sentToServer)
  {
    var h := TopicHash(topic);
    IdIndexes.LookupNonEmpty(hs, h);
    var i := Bucket(hs, h)[0];
    assert Listed(slots, ByHash, h, i);
    assert slots[i].extra.hash == TopicHash(slots[i].content);
    assert AliasUnder(slots, hs, h) == (slots[i].extra.alias, slots[i].extra.sentToServer);
  }

  /** A tree that holds a key holds at least one value. */
  lemma {:induction false} KeyedTotal<V>(es: seq<Entry<V>>, k: int)
    requires NonEmptyLists(es)
    ensures Lookup(es, k).Some? ==> ElemTotal(es) > 0
  {
    if es != [] {
      assert |es[0].values| > 0;
    }
  }

  /** With an alias index that tracks every live record, an alias it does not hold is no live record's. */
  lemma AliasFree<C>(slots: seq<Slot<AliasRecord, C>>, als: seq<Entry<int>>, alias: UInt16)
    requires Tracked(slots, als, ByAlias) && Bucket(als, alias) == []
    ensures alias as int !in Aliases(slots)
  {
    forall j | 0 <= j < |slots| && Live(slots[j])
      ensures slots[j].extra.alias != alias
    {
      assert j in Bucket(als, KeyOf(slots[j].extra, ByAlias));
    }
  }

  /** The keys of an index that is sound and tracks every live record are the live aliases. */
  lemma AliasesAreKeys<C>(slots: seq<Slot<AliasRecord, C>>, als: seq<Entry<int>>)
    requires Sound(slots, als, ByAlias) && Tracked(slots, als, ByAlias) && NonEmptyLists(als)
    ensures IdIndexes.Keys(als) == Aliases(slots)
  {
    forall k | k in IdIndexes.Keys(als)
      ensures k in Aliases(slots)
    {
      var i :| 0 <= i < |als| && als[i].key == k;
      LookupAt(als, k, i);
      IdIndexes.LookupNonEmpty(als, k);
      var j := Bucket(als, k)[0];
      assert Listed(slots, ByAlias, k, j);
      assert slots[j].extra.alias as int == k;
    }
    forall k | k in Aliases(slots)
      ensures k in IdIndexes.Keys(als)
    {
      var j :| 0 <= j < |slots| && Live(slots[j]) && slots[j].extra.alias as int == k;
      assert j in Bucket(als, KeyOf(slots[j].extra, ByAlias));
      assert Lookup(als, k).Some?;
      LookupKeys(als, k);
    }
  }

  /** A key the entries hold is one of their keys. */
  lemma {:induction false} LookupKeys<V>(es: seq<Entry<V>>, k: int)
    ensures Lookup(es, k).Some? ==> k in IdIndexes.Keys(es)
  {
    if es != [] && es[0].key != k {
      LookupKeys(es[1..], k);
      if Lookup(es, k).Some? {
        var i :| 0 <= i < |es[1..]| && es[1..][i].key == k;
        assert es[i + 1].key == k;
      }
    }
  }

  /** An index that is sound lists something only while some record is live. */
  lemma IndexedLive<C>(slots: seq<Slot<AliasRecord, C>>, es: seq<Entry<int>>, key: Key)
    requires Sound(slots, es, key) && NonEmptyLists(es)
    ensures es != [] ==> exists i :: 0 <= i < |slots| && Live(slots[i])
  {
    if es != [] {
      assert Lookup(es, es[0].key) == Some(es[0].values);
      assert Listed(slots, key, es[0].key, Bucket(es, es[0].key)[0]);
    }
  }

  /** No two live records share an alias: each is alone in its alias's list. */
  lemma MappedUnique<C>(slots: seq<Slot<AliasRecord, C>>, als: seq<Entry<int>>)
    requires Tracked(slots, als, ByAlias) && IdIndexes.Single(als)
    ensures UniqueAliases(slots)
  {
    forall i, j | 0 <= i < |slots| && 0 <= j < |slots| && i != j && Live(slots[i]) && Live(slots[j])
      ensures slots[i].extra.alias != slots[j].extra.alias
    {
      var a := slots[i].extra.alias as int;
      assert i in Bucket(als, KeyOf(slots[i].extra, ByAlias));
      assert Lookup(als, a).Some?;
      SingleLookup(als, a);
      assert Bucket(als, a) == [i];
      assert j in Bucket(als, KeyOf(slots[j].extra, ByAlias));
    }
  }

  // ------------------------------------------------------ adding a record

  /**
   * A live record placed in a free slot `i` and appended under its key
   * keeps the index sound: a free slot is listed nowhere.
   */
  lemma PlacedSound<C>(slots: seq<Slot<AliasRecord, C>>, es: seq<Entry<int>>, key: Key, i: nat, s: Slot<AliasRecord, C>)
    requires Sound(slots, es, key) && Live(s) && i <= |slots| && (i < |slots| ==> !Live(slots[i]))
    ensures i !in Bucket(es, KeyOf(s.extra, key))
    ensures var k := KeyOf(s.extra, key);
            Sound(Placed(slots, i, s), Put(es, k, Bucket(es, k) + [i]), key)
  {
    var k0 := KeyOf(s.extra, key);
    var after, es' := Placed(slots, i, s), Put(es, k0, Bucket(es, k0) + [i]);
    forall n | 0 <= n < |Bucket(es, k0)|
      ensures Bucket(es, k0)[n] != i
    {
      assert Listed(slots, key, k0, Bucket(es, k0)[n]);
    }
    forall k, n | 0 <= n < |Bucket(es', k)|
      ensures Listed(after, key, k, Bucket(es', k)[n])
    {
      BucketPut(es, k0, Bucket(es, k0) + [i], k);
      var j := Bucket(es', k)[n];
      if j != i {
        var m: nat := if k == k0 && n < |Bucket(es, k0)| then n else n;
        assert Bucket(es, k)[m] == j;
        assert Listed(slots, key, k, Bucket(es, k)[m]);
        assert after[j] == slots[j];
      }
    }
  }

  /** Appending a placed record under its key keeps every live record listed. */
  lemma PlacedTracked<C>(slots: seq<Slot<AliasRecord, C>>, es: seq<Entry<int>>, key: Key, i: nat, s: Slot<AliasRecord, C>)
    requires Tracked(slots, es, key) && i <= |slots|
    ensures var k := KeyOf(s.extra, key);
            Tracked(Placed(slots, i, s), Put(es, k, Bucket(es, k) + [i]), key)
  {
    var k0 := KeyOf(s.extra, key);
    var after, es' := Placed(slots, i, s), Put(es, k0, Bucket(es, k0) + [i]);
    forall j | 0 <= j < |after| && Live(after[j])
      ensures j in Bucket(es', KeyOf(after[j].extra, key))
    {
      var kj := KeyOf(after[j].extra, key);
      BucketPut(es, k0, Bucket(es, k0) + [i], kj);
      if j != i {
        assert after[j] == slots[j];
        assert j in Bucket(es, kj);
      }
    }
  }

  /** Appending a slot a list does not hold keeps every list free of repeats. */
  lemma PlacedNoRepeats(es: seq<Entry<int>>, k0: int, i: nat)
    requires NoRepeats(es) && i !in Bucket(es, k0)
    ensures NoRepeats(Put(es, k0, Bucket(es, k0) + [i]))
  {
    forall k, x
      ensures multiset(Bucket(Put(es, k0, Bucket(es, k0) + [i]), k))[x] <= 1
    {
      BucketPut(es, k0, Bucket(es, k0) + [i], k);
      assert multiset(Bucket(es, k0) + [i]) == multiset(Bucket(es, k0)) + multiset{i};
    }
  }

  /** Placing a live record in a free slot adds its alias to the live aliases. */
  lemma PlacedAliases<C>(slots: seq<Slot<AliasRecord, C>>, i: nat, s: Slot<AliasRecord, C>)
    requires Live(s) && i <= |slots| && (i < |slots| ==> !Live(slots[i]))
    ensures Aliases(Placed(slots, i, s)) == Aliases(slots) + {s.extra.alias as int}
  {
    var after := Placed(slots, i, s);
    assert after[i] == s;
    forall a | a in Aliases(slots)
      ensures a in Aliases(after)
    {
      var j :| 0 <= j < |slots| && Live(slots[j]) && slots[j].extra.alias as int == a;
      assert j != i && after[j] == slots[j];
    }
    forall a | a in Aliases(after)
      ensures a in Aliases(slots) + {s.extra.alias as int}
    {
      var j :| 0 <= j < |after| && Live(after[j]) && after[j].extra.alias as int == a;
      if j != i {
        assert after[j] == slots[j];
      }
    }
  }

  /** Placing a record flagged `None` whose hash is its topic's keeps every record flagged `None` and hashed. */
  lemma PlacedHashed(slots: seq<Slot<AliasRecord, seq<Byte>>>, i: nat, s: Slot<AliasRecord, seq<Byte>>)
    requires AllNone(slots) && Hashed(slots) && i <= |slots| && s.meta.flags == FlagNone
    requires |s.content| < 0x1_0000_0000 && s.extra.hash == TopicHash(s.content)
    ensures AllNone(Placed(slots, i, s)) && Hashed(Placed(slots, i, s))
  {
    var after := Placed(slots, i, s);
    forall j | 0 <= j < |after|
      ensures after[j].meta.flags == FlagNone
      ensures |after[j].content| < 0x1_0000_0000 && after[j].extra.hash == TopicHash(after[j].content)
    {
      if j != i {
        assert after[j] == slots[j];
      }
    }
  }

  // ---------------------------------------------------- removing a record

  /**
   * A deleted record's slot is in its hash's list exactly when the record
   * was live, and once: dropping it leaves the slot nowhere in the list.
   */
  lemma HashListedOnce(slots: seq<Slot<AliasRecord, seq<Byte>>>, hs: seq<Entry<int>>, d: nat)
    requires Sound(slots, hs, ByHash) && Tracked(slots, hs, ByHash) && NoRepeats(hs) && d < |slots|
    ensures var b := Bucket(hs, slots[d].extra.hash);
            (d in b <==> Live(slots[d])) && d !in RemoveFirst(b, d).1
  {
    var b := Bucket(hs, slots[d].extra.hash);
    forall n | 0 <= n < |b| && b[n] == d
      ensures Live(slots[d])
    {
      assert Listed(slots, ByHash, slots[d].extra.hash, b[n]);
    }
    assert Live(slots[d]) ==> d in Bucket(hs, KeyOf(slots[d].extra, ByHash));
    assert multiset(b)[d] <= 1;
  }

  /** Dropping a deleted record's slot from its hash's list keeps the hash index sound. */
  lemma UnindexHashSound(slots: seq<Slot<AliasRecord, seq<Byte>>>, hs: seq<Entry<int>>, d: nat)
    requires Sound(slots, hs, ByHash) && Tracked(slots, hs, ByHash) && NoRepeats(hs)
    requires Sorted(hs) && d < |slots|
    ensures Sound(slots[d := Deleted(slots[d])], RemoveUnder(hs, slots[d].extra.hash, d), ByHash)
  {
    var after, h := slots[d := Deleted(slots[d])], slots[d].extra.hash;
    var hs' := RemoveUnder(hs, h, d);
    HashListedOnce(slots, hs, d);
    forall k, n | 0 <= n < |Bucket(hs', k)|
      ensures Listed(after, ByHash, k, Bucket(hs', k)[n])
    {
      BucketRemoveUnder(hs, h, d, k);
      var j := Bucket(hs', k)[n];
      assert j in Bucket(hs, k) by {
        if k == h {
          assert j in multiset(RemoveFirst(Bucket(hs, h), d).1);
        }
      }
      var m :| 0 <= m < |Bucket(hs, k)| && Bucket(hs, k)[m] == j;
      assert Listed(slots, ByHash, k, Bucket(hs, k)[m]);
      assert j != d;
    }
  }

  /** Dropping a deleted record's slot from its hash's list keeps every other live record listed. */
  lemma UnindexHashTracked(slots: seq<Slot<AliasRecord, seq<Byte>>>, hs: seq<Entry<int>>, d: nat)
    requires Tracked(slots, hs, ByHash) && Sorted(hs) && d < |slots|
    ensures Tracked(slots[d := Deleted(slots[d])], RemoveUnder(hs, slots[d].extra.hash, d), ByHash)
  {
    var after, h := slots[d := Deleted(slots[d])], slots[d].extra.hash;
    var hs' := RemoveUnder(hs, h, d);
    forall j | 0 <= j < |after| && Live(after[j])
      ensures j in Bucket(hs', KeyOf(after[j].extra, ByHash))
    {
      var kj := KeyOf(after[j].extra, ByHash);
      BucketRemoveUnder(hs, h, d, kj);
      assert j != d && after[j] == slots[j];
      assert j in Bucket(hs, kj);
      if kj == h {
        assert multiset(RemoveFirst(Bucket(hs, h), d).1)[j] == multiset(Bucket(hs, h))[j];
      }
    }
  }

  /** Dropping one slot from a list keeps every list free of repeats. */
  lemma UnindexHashRepeats(hs: seq<Entry<int>>, h: int, d: int)
    requires NoRepeats(hs) && Sorted(hs)
    ensures NoRepeats(RemoveUnder(hs, h, d))
  {
    forall k, x
      ensures multiset(Bucket(RemoveUnder(hs, h, d), k))[x] <= 1
    {
      BucketRemoveUnder(hs, h, d, k);
    }
  }

  /**
   * A deleted record whose alias is its own was listed alone under its
   * alias when live, and the alias listed nothing otherwise.
   */
  lemma AliasBucketOf(slots: seq<Slot<AliasRecord, seq<Byte>>>, als: seq<Entry<int>>, d: nat)
    requires Sound(slots, als, ByAlias) && Tracked(slots, als, ByAlias) && IdIndexes.Single(als) && d < |slots|
    requires forall e :: 0 <= e < |slots| && e != d && Live(slots[e]) ==> slots[e].extra.alias != slots[d].extra.alias
    ensures Bucket(als, slots[d].extra.alias) == if Live(slots[d]) then [d] else []
  {
    var a := slots[d].extra.alias;
    var b := Bucket(als, a);
    forall n | 0 <= n < |b|
      ensures b[n] == d && Live(slots[d])
    {
      assert Listed(slots, ByAlias, a, b[n]);
    }
    if Live(slots[d]) {
      assert d in Bucket(als, KeyOf(slots[d].extra, ByAlias));
      assert Lookup(als, a).Some?;
      SingleLookup(als, a);
      assert b == [b[0]];
    } else {
      assert |b| == 0;
    }
  }

  /** Removing a key keeps an index sound over the slots with one record deleted. */
  lemma UnindexAliasSound(slots: seq<Slot<AliasRecord, seq<Byte>>>, als: seq<Entry<int>>, d: nat)
    requires Sound(slots, als, ByAlias) && Sorted(als) && d < |slots|
    requires forall e :: 0 <= e < |slots| && e != d && Live(slots[e]) ==> slots[e].extra.alias != slots[d].extra.alias
    ensures Sound(slots[d := Deleted(slots[d])], SortedEntries.Remove(als, slots[d].extra.alias), ByAlias)
  {
    var after, a := slots[d := Deleted(slots[d])], slots[d].extra.alias;
    var als' := SortedEntries.Remove(als, a);
    forall k, n | 0 <= n < |Bucket(als', k)|
      ensures Listed(after, ByAlias, k, Bucket(als', k)[n])
    {
      BucketRemove(als, a, k);
      assert Listed(slots, ByAlias, k, Bucket(als, k)[n]);
    }
  }

  /** Removing a deleted record's alias keeps every other live record listed under its alias. */
  lemma UnindexAliasTracked(slots: seq<Slot<AliasRecord, seq<Byte>>>, als: seq<Entry<int>>, d: nat)
    requires Tracked(slots, als, ByAlias) && Sorted(als) && d < |slots|
    requires forall e :: 0 <= e < |slots| && e != d && Live(slots[e]) ==> slots[e].extra.alias != slots[d].extra.alias
    ensures Tracked(slots[d := Deleted(slots[d])], SortedEntries.Remove(als, slots[d].extra.alias), ByAlias)
  {
    var after, a := slots[d := Deleted(slots[d])], slots[d].extra.alias;
    var als' := SortedEntries.Remove(als, a);
    forall j | 0 <= j < |after| && Live(after[j])
      ensures j in Bucket(als', KeyOf(after[j].extra, ByAlias))
    {
      BucketRemove(als, a, KeyOf(after[j].extra, ByAlias));
      assert j != d && after[j] == slots[j];
      assert j in Bucket(als, KeyOf(slots[j].extra, ByAlias));
    }
  }

  /** `RemoveUnder` drops one value exactly when the list holds it. */
  lemma RemoveUnderTotal(es: seq<Entry<int>>, k: int, idx: int)
    requires Sorted(es) && NonEmptyLists(es)
    ensures ElemTotal(RemoveUnder(es, k, idx)) == ElemTotal(es) - (if idx in Bucket(es, k) then 1 else 0)
  {
    var o := Lookup(es, k);
    if o.Some? {
      IdIndexes.LookupNonEmpty(es, k);
      var rest := RemoveFirst(o.value, idx).1;
      if rest == [] {
        RemoveSpec(es, k, k);
      } else {
        PutCounts(es, k, rest);
      }
    }
  }

  /** A list the index of one slot per key holds has one slot. */
  lemma {:induction false} SingleLookup<V>(es: seq<Entry<V>>, k: int)
    requires IdIndexes.Single(es) && Lookup(es, k).Some?
    ensures |Lookup(es, k).value| == 1
  {
    if es[0].key != k {
      SingleLookup(es[1..], k);
    }
  }

  /** Deleting a record keeps every record flagged `None` and hashed. */
  lemma DeletedKeeps(slots: seq<Slot<AliasRecord, seq<Byte>>>, d: nat)
    requires AllNone(slots) && Hashed(slots) && d < |slots|
    ensures var after := slots[d := Deleted(slots[d])];
            AllNone(after) && Hashed(after)
  {
    var after := slots[d := Deleted(slots[d])];
    assert forall i :: 0 <= i < |slots| ==> after[i].extra == slots[i].extra && after[i].content == slots[i].content;
  }

  /** Once every record listed under `alias` is deleted, no live record carries it. */
  lemma ListedGone<C>(s0: seq<Slot<AliasRecord, C>>, als0: seq<Entry<int>>, alias: UInt16)
    requires Tracked(s0, als0, ByAlias)
    ensures var after := DeleteAll(s0, Bucket(als0, alias));
            forall i :: 0 <= i < |after| && Live(after[i]) ==> after[i].extra.alias != alias
  {
    var ds := Bucket(als0, alias);
    var after := DeleteAll(s0, ds);
    forall i | 0 <= i < |after| && Live(after[i])
      ensures after[i].extra.alias != alias
    {
      assert i !in ds;
      assert after[i] == s0[i];
      assert i in Bucket(als0, KeyOf(s0[i].extra, ByAlias));
    }
  }

  /** A sound index holds an alias only for a live record carrying it. */
  lemma AliasListed<C>(slots: seq<Slot<AliasRecord, C>>, als: seq<Entry<int>>, alias: UInt16)
    requires Sound(slots, als, ByAlias) && NonEmptyLists(als)
    ensures Lookup(als, alias).Some? ==> exists i :: Listed(slots, ByAlias, alias, i)
  {
    if Lookup(als, alias).Some? {
      IdIndexes.LookupNonEmpty(als, alias);
      assert Listed(slots, ByAlias, alias, Bucket(als, alias)[0]);
    }
  }

  /** Deleting every record listed under `alias` takes exactly that alias out of the live aliases. */
  lemma AliasesAfterDelete<C>(s0: seq<Slot<AliasRecord, C>>, als0: seq<Entry<int>>, alias: UInt16)
    requires Sound(s0, als0, ByAlias) && Tracked(s0, als0, ByAlias)
    ensures Aliases(DeleteAll(s0, Bucket(als0, alias))) == Aliases(s0) - {alias as int}
  {
    var ds := Bucket(als0, alias);
    var after := DeleteAll(s0, ds);
    ListedGone(s0, als0, alias);
    forall n | 0 <= n < |ds|
      ensures s0[ds[n]].extra.alias == alias
    {
      assert Listed(s0, ByAlias, alias, ds[n]);
    }
    forall a | a in Aliases(s0) - {alias as int}
      ensures a in Aliases(after)
    {
      var j :| 0 <= j < |s0| && Live(s0[j]) && s0[j].extra.alias as int == a;
      assert j !in ds;
      assert after[j] == s0[j];
    }
    forall a | a in Aliases(after)
      ensures a in Aliases(s0) - {alias as int}
    {
      var j :| 0 <= j < |after| && Live(after[j]) && after[j].extra.alias as int == a;
      assert j !in ds;
      assert after[j] == s0[j];
    }
  }

  /**
   * Deleting every record the alias index lists under `alias` takes the
   * alias out of the live aliases and out of any index kept sound.
   */
  lemma AliasGone(s0: seq<Slot<AliasRecord, seq<Byte>>>, als0: seq<Entry<int>>, alias: UInt16,
                  als: seq<Entry<int>>)
    requires Sound(s0, als0, ByAlias) && Tracked(s0, als0, ByAlias)
    requires Sound(DeleteAll(s0, Bucket(als0, alias)), als, ByAlias) && NonEmptyLists(als)
    ensures Lookup(als, alias).None?
    ensures Aliases(DeleteAll(s0, Bucket(als0, alias))) == Aliases(s0) - {alias as int}
  {
    ListedGone(s0, als0, alias);
    AliasListed(DeleteAll(s0, Bucket(als0, alias)), als, alias);
    AliasesAfterDelete(s0, als0, alias);
  }

  /** A record's own fields changed in nothing but the sent flag. */
  ghost predicate SameButSent(slots: seq<Slot<AliasRecord, seq<Byte>>>, after: seq<Slot<AliasRecord, seq<Byte>>>)
  {
    |after| == |slots|
    && forall i :: 0 <= i < |slots| ==>
         after[i].meta == slots[i].meta && after[i].content == slots[i].content
         && after[i].extra.hash == slots[i].extra.hash && after[i].extra.alias == slots[i].extra.alias
  }

  /** Changing only sent flags keeps an index sound. */
  lemma SentSound(slots: seq<Slot<AliasRecord, seq<Byte>>>, after: seq<Slot<AliasRecord, seq<Byte>>>,
                  es: seq<Entry<int>>, key: Key)
    requires Sound(slots, es, key) && SameButSent(slots, after)
    ensures Sound(after, es, key)
  {
    forall k, n | 0 <= n < |Bucket(es, k)|
      ensures Listed(after, key, k, Bucket(es, k)[n])
    {
      assert Listed(slots, key, k, Bucket(es, k)[n]);
    }
  }

  /** Changing only sent flags keeps every live record listed. */
  lemma SentTracked(slots: seq<Slot<AliasRecord, seq<Byte>>>, after: seq<Slot<AliasRecord, seq<Byte>>>,
                    es: seq<Entry<int>>, key: Key)
    requires Tracked(slots, es, key) && SameButSent(slots, after)
    ensures Tracked(after, es, key)
  {
    forall j | 0 <= j < |after| && Live(after[j])
      ensures j in Bucket(es, KeyOf(after[j].extra, key))
    {
      assert j in Bucket(es, KeyOf(slots[j].extra, key));
    }
  }

  /** Changing only sent flags keeps every record flagged `None` and hashed, and every alias's topic. */
  lemma SentHashed(slots: seq<Slot<AliasRecord, seq<Byte>>>, after: seq<Slot<AliasRecord, seq<Byte>>>,
                   als: seq<Entry<int>>)
    requires AllNone(slots) && Hashed(slots) && SameButSent(slots, after)
    ensures AllNone(after) && Hashed(after)
    ensures forall a :: TopicOf(after, als, a) == TopicOf(slots, als, a)
  {
    forall i | 0 <= i < |after|
      ensures after[i].meta.flags == FlagNone && |after[i].content| < 0x1_0000_0000
      ensures after[i].extra.hash == TopicHash(after[i].content)
    {
      assert slots[i].extra.hash == TopicHash(slots[i].content);
    }
  }

  // ------------------------------------------------- the removal as written

  /**
   * `TopicAliasMappingIndexingService.Remove` as written: the record's
   * hash and its alias each leave their index with their whole list.
   */
  function UnindexAsWritten(hs: seq<Entry<int>>, als: seq<Entry<int>>, r: AliasRecord): (seq<Entry<int>>, seq<Entry<int>>)
  {
    (SortedEntries.Remove(hs, r.hash), SortedEntries.Remove(als, r.alias))
  }

  /** Two records of one topic name, whose hash is `h`, under aliases 1 and 2, in slots 0 and 1. */
  function TwoAliases(topic: seq<Byte>, h: UInt32): seq<Slot<AliasRecord, seq<Byte>>>
  {
    [Slot(Metadata(0, 0, 0, FlagNone), AliasRecord(h, 1, false), topic),
     Slot(Metadata(1, 0, 0, FlagNone), AliasRecord(h, 2, false), topic)]
  }

  /** Lookup, removal and count over a one-entry list. */
  lemma OneEntry<V>(e: Entry<V>, k: int)
    ensures Lookup([e], k) == if e.key == k then Some(e.values) else None
    ensures SortedEntries.Remove([e], k) == if e.key == k then [] else [e]
    ensures ElemTotal([e]) == |e.values|
  {
    assert [e][1..] == [];
  }

  /** Lookup, removal and count over a two-entry list, from those of its second entry. */
  lemma TwoEntries<V>(e: Entry<V>, f: Entry<V>, k: int)
    ensures Lookup([e, f], k) == if e.key == k then Some(e.values) else Lookup([f], k)
    ensures SortedEntries.Remove([e, f], k) == if e.key == k then SortedEntries.Remove([f], k) else [e] + SortedEntries.Remove([f], k)
    ensures ElemTotal([e, f]) == |e.values| + ElemTotal([f])
  {
    assert [e, f][1..] == [f];
  }

  /** The lists of the two-alias store, key by key. */
  lemma TwoAliasesBuckets(h: int)
    ensures forall k :: Bucket([Entry(h, [0, 1])], k) == if k == h then [0, 1] else []
    ensures forall k :: Bucket([Entry(1, [0]), Entry(2, [1])], k) == if k == 1 then [0] else if k == 2 then [1] else []
  {
    forall k
      ensures Bucket([Entry(h, [0, 1])], k) == if k == h then [0, 1] else []
      ensures Bucket([Entry(1, [0]), Entry(2, [1])], k) == if k == 1 then [0] else if k == 2 then [1] else []
    {
      OneEntry(Entry(h, [0, 1]), k);
      TwoEntries(Entry(1, [0]), Entry(2, [1]), k);
      OneEntry(Entry(2, [1]), k);
    }
  }

  /** The two-alias store's records are flagged `None` and carry their name's hash. */
  lemma TwoAliasesHashed(topic: seq<Byte>)
    requires |topic| < 0x1_0000_0000
    ensures AllNone(TwoAliases(topic, TopicHash(topic))) && Hashed(TwoAliases(topic, TopicHash(topic)))
  {
    var slots := TwoAliases(topic, TopicHash(topic));
    forall i | 0 <= i < |slots|
      ensures slots[i].meta.flags == FlagNone && slots[i].content == topic
      ensures slots[i].extra.hash == TopicHash(topic)
    {
    }
  }

  /** The hash list of the two-alias store holds each slot once, and it counts as many slots as the alias lists. */
  lemma TwoAliasesCounts(h: int)
    ensures NoRepeats([Entry(h, [0, 1])])
    ensures IdIndexes.Single([Entry(1, [0]), Entry(2, [1])])
    ensures ElemTotal([Entry(h, [0, 1])]) == ElemTotal([Entry(1, [0]), Entry(2, [1])])
  {
    OneEntry(Entry(h, [0, 1]), h);
    TwoEntries(Entry(1, [0]), Entry(2, [1]), 1);
    OneEntry(Entry(2, [1]), 2);
    forall k, x
      ensures multiset(Bucket([Entry(h, [0, 1])], k))[x] <= 1
    {
      OneEntry(Entry(h, [0, 1]), k);
      assert multiset([0, 1]) == multiset{0, 1};
    }
  }

  /** Both indexes of the two-alias store list only live records under their keys. */
  lemma TwoAliasesSound(topic: seq<Byte>, h: UInt32)
    ensures Sound(TwoAliases(topic, h), [Entry(h, [0, 1])], ByHash)
    ensures Sound(TwoAliases(topic, h), [Entry(1, [0]), Entry(2, [1])], ByAlias)
  {
    var slots := TwoAliases(topic, h);
    var hs, als := [Entry(h, [0, 1])], [Entry(1, [0]), Entry(2, [1])];
    assert Live(slots[0]) && Live(slots[1]);
    forall k, n | 0 <= n < |Bucket(hs, k)|
      ensures Listed(slots, ByHash, k, Bucket(hs, k)[n])
    {
      OneEntry(Entry(h, [0, 1]), k);
    }
    forall k, n | 0 <= n < |Bucket(als, k)|
      ensures Listed(slots, ByAlias, k, Bucket(als, k)[n])
    {
      TwoEntries(Entry(1, [0]), Entry(2, [1]), k);
      OneEntry(Entry(2, [1]), k);
    }
  }

  /** Both indexes of the two-alias store list both records. */
  lemma TwoAliasesTracked(topic: seq<Byte>, h: UInt32)
    ensures Tracked(TwoAliases(topic, h), [Entry(h, [0, 1])], ByHash)
    ensures Tracked(TwoAliases(topic, h), [Entry(1, [0]), Entry(2, [1])], ByAlias)
  {
    OneEntry(Entry(h, [0, 1]), h);
    TwoEntries(Entry(1, [0]), Entry(2, [1]), 1);
    TwoEntries(Entry(1, [0]), Entry(2, [1]), 2);
    OneEntry(Entry(2, [1]), 2);
  }

  /**
   * Alias 1 of the two-alias store is set to another name, so slot 0 is
   * deleted.  As written, the hash index loses the list slot 1 is still
   * in: the name answers no alias, and the hash index counts no slot,
   * while alias 2 is live.
   */
  lemma HashListDropped(topic: seq<Byte>)
    requires 0 < |topic| < 0x1_0000_0000
    ensures var h := TopicHash(topic);
            var slots := TwoAliases(topic, h);
            var after := slots[0 := Deleted(slots[0])];
            var written := UnindexAsWritten([Entry(h, [0, 1])], [Entry(1, [0]), Entry(2, [1])], slots[0].extra);
            Aliases(after) == {2}
            && !Tracked(after, written.0, ByHash)
            && AliasOf(after, written.0, topic) == (0, false)
            && ElemTotal(written.0) == 0 && ElemTotal(written.1) == 1
  {
    var h := TopicHash(topic);
    var slots := TwoAliases(topic, h);
    var after := slots[0 := Deleted(slots[0])];
    var written := UnindexAsWritten([Entry(h, [0, 1])], [Entry(1, [0]), Entry(2, [1])], slots[0].extra);
    OneEntry(Entry(h, [0, 1]), h);
    TwoEntries(Entry(1, [0]), Entry(2, [1]), 1);
    OneEntry(Entry(2, [1]), 1);
    assert written.0 == [];
    assert written.1 == [Entry(2, [1])];
    OneEntry(Entry(2, [1]), 2);
    assert Lookup(written.0, h) == None;
    assert Live(after[1]) && after[1].extra.alias as int in Aliases(after);
    assert 1 !in Bucket(written.0, KeyOf(after[1].extra, ByHash));
  }

  /** Dropping only slot 0 from its hash's list keeps slot 1 found under the name. */
  lemma HashListKept(topic: seq<Byte>)
    requires 0 < |topic| < 0x1_0000_0000
    ensures var h := TopicHash(topic);
            var slots := TwoAliases(topic, h);
            var after := slots[0 := Deleted(slots[0])];
            var hs := RemoveUnder([Entry(h, [0, 1])], h, 0);
            AliasOf(after, hs, topic) == (2, false) && ElemTotal(hs) == 1
  {
    var h := TopicHash(topic);
    HashListKeptUnder(topic, h);
  }

  /** `HashListKept` for any hash of the name. */
  lemma HashListKeptUnder(topic: seq<Byte>, h: UInt32)
    ensures var slots := TwoAliases(topic, h);
            var after := slots[0 := Deleted(slots[0])];
            var hs := RemoveUnder([Entry(h, [0, 1])], h, 0);
            AliasUnder(after, hs, h) == (2, false) && ElemTotal(hs) == 1
  {
    assert RemoveUnder([Entry(h, [0, 1])], h, 0) == [Entry(h, [1])];
  }

  /** A key of the entries has a list. */
  lemma KeyLookup<V>(es: seq<Entry<V>>, k: int)
    ensures k in IdIndexes.Keys(es) ==> Lookup(es, k).Some?
  {
    if k in IdIndexes.Keys(es) {
      var i :| 0 <= i < |es| && es[i].key == k;
      LookupAt(es, k, i);
    }
  }

  /** Changing only sent flags leaves the aliases in use. */
  lemma SentAliases(slots: seq<Slot<AliasRecord, seq<Byte>>>, after: seq<Slot<AliasRecord, seq<Byte>>>)
    requires SameButSent(slots, after)
    ensures Aliases(after) == Aliases(slots)
  {
    forall a | a in Aliases(slots)
      ensures a in Aliases(after)
    {
      var j :| 0 <= j < |slots| && Live(slots[j]) && slots[j].extra.alias as int == a;
      assert Live(after[j]) && after[j].extra.alias as int == a;
    }
  }

  // ---------------------------------------------------------- persistence

  /** `TopicAliasMappingMetadata.SaveTo`: the record, then the hash and the alias as store integers. */
  function SaveAliasRecord(m: Metadata, r: AliasRecord): seq<Byte>
  {
    SaveTo(m) + DataEncoderHelper.VbiEncode(r.hash) + DataEncoderHelper.VbiEncode(r.alias)
  }

  /**
   * `TopicAliasMappingMetadata.LoadFrom`: the record, the hash, then the
   * alias cut to 16 bits.  The sent flag is not stored and loads cleared.
   */
  function LoadAliasRecord(data: seq<Byte>, pos: nat, index: int): (r: Result<(Metadata, AliasRecord, nat)>)
    requires pos <= |data|
    ensures r.Ok? ==> !r.value.1.sentToServer
  {
    var base := LoadFrom(data, pos, index);
    if base.Err? then Err(base.reason)
    else if base.value.1 > |data| then Err("eof")
    else
      var hash := StoreVbiDecode(data, base.value.1);
      if hash.Err? then Err(hash.reason)
      else if hash.value.1 > |data| then Err("eof")
      else
        var alias := StoreVbiDecode(data, hash.value.1);
        if alias.Err? then Err(alias.reason)
        else Ok((base.value.0, AliasRecord(hash.value.0, alias.value.0 % 0x1_0000, false), alias.value.1))
  }

  /** `LoadAliasRecord` from what the record's three parts decode to. */
  lemma AliasRecordLoadsFromParts(data: seq<Byte>, pos: nat, m: Metadata, r: AliasRecord, p: nat, q: nat, end: nat)
    requires pos <= |data| && p <= |data| && q <= |data|
    requires LoadFrom(data, pos, m.index) == Ok((m, p))
    requires StoreVbiDecode(data, p) == Ok((r.hash as UInt32, q))
    requires StoreVbiDecode(data, q) == Ok((r.alias as UInt32, end))
    ensures LoadAliasRecord(data, pos, m.index) == Ok((m, r.(sentToServer := false), end))
  {
  }

  /** A saved record's length is that of its three parts. */
  lemma AliasRecordLength(m: Metadata, r: AliasRecord)
    ensures |SaveAliasRecord(m, r)|
         == |SaveTo(m)| + |DataEncoderHelper.VbiEncode(r.hash)| + |DataEncoderHelper.VbiEncode(r.alias)|
  {
  }

  /** A saved record in the stream holds its three parts back to back. */
  lemma AliasRecordSlices(m: Metadata, r: AliasRecord, data: seq<Byte>, pos: nat)
    requires pos + |SaveAliasRecord(m, r)| <= |data|
    requires data[pos..pos + |SaveAliasRecord(m, r)|] == SaveAliasRecord(m, r)
    ensures var p := pos + |SaveTo(m)|;
            var q := p + |DataEncoderHelper.VbiEncode(r.hash)|;
            q + |DataEncoderHelper.VbiEncode(r.alias)| == pos + |SaveAliasRecord(m, r)|
            && data[pos..p] == SaveTo(m)
            && data[p..q] == DataEncoderHelper.VbiEncode(r.hash)
            && data[q..q + |DataEncoderHelper.VbiEncode(r.alias)|] == DataEncoderHelper.VbiEncode(r.alias)
  {
    var b, h, a := SaveTo(m), DataEncoderHelper.VbiEncode(r.hash), DataEncoderHelper.VbiEncode(r.alias);
    AliasRecordLength(m, r);
    IdIndexes.SliceParts(data, pos, b + h, a);
    IdIndexes.SliceParts(data, pos, b, h);
  }
}

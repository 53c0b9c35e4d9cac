/**
 * An index from 16-bit identifiers to slots, as the packet-identifier
 * index of `OutgoingPacketDatabase` and the value index of `UInt16Database`
 * keep it: an AVL tree whose key is the identifier a record carries as its
 * own field and whose values are slot numbers.  Removing a record drops its
 * identifier's whole list.
 */
module IdIndexes {
  import opened Bytes
  import opened SortedEntries
  import opened AVLTrees
  import opened IndexingServices
  import opened Databases
  import opened Metadatas
  import DataEncoderHelper
  import opened StreamUtil

  /** Slot `i` holds a live record for packet identifier `k`. */
  predicate Listed<P>(slots: seq<Slot<UInt16, P>>, k: int, i: int)
  {
    0 <= i < |slots| && Live(slots[i]) && slots[i].extra == k
  }

  /** Every slot the index lists under an identifier holds a live record for it. */
  ghost predicate Sound<P>(slots: seq<Slot<UInt16, P>>, es: seq<Entry<int>>)
  {
    forall k, n :: 0 <= n < |Bucket(es, k)| ==> Listed(slots, k, Bucket(es, k)[n])
  }

  /** Every live record is listed under its identifier. */
  ghost predicate Tracked<P>(slots: seq<Slot<UInt16, P>>, es: seq<Entry<int>>)
  {
    forall i :: 0 <= i < |slots| && Live(slots[i]) ==> i in Bucket(es, slots[i].extra)
  }

  /** No two live records carry the same identifier. */
  ghost predicate UniqueIds<P>(slots: seq<Slot<UInt16, P>>)
  {
    forall i, j :: 0 <= i < |slots| && 0 <= j < |slots| && i != j && Live(slots[i]) && Live(slots[j])
                   ==> slots[i].extra != slots[j].extra
  }

  /** Deleting a record and dropping its identifier from the index keeps the index sound. */
  lemma IndexDeleted<P>(slots: seq<Slot<UInt16, P>>, es: seq<Entry<int>>, i: nat)
    requires Sound(slots, es) && Sorted(es) && i < |slots|
    ensures Sound(slots[i := Deleted(slots[i])], Remove(es, slots[i].extra))
    ensures Tracked(slots, es) && UniqueIds(slots) && Live(slots[i])
            ==> Tracked(slots[i := Deleted(slots[i])], Remove(es, slots[i].extra))
                && UniqueIds(slots[i := Deleted(slots[i])])
  {
    var id := slots[i].extra;
    var after, es' := slots[i := Deleted(slots[i])], Remove(es, id);
    forall k
      ensures Bucket(es', k) == if k == id then [] else Bucket(es, k)
    {
      BucketRemove(es, id, k);
    }
    forall k, n | 0 <= n < |Bucket(es', k)|
      ensures Listed(after, k, Bucket(es', k)[n])
    {
      assert Listed(slots, k, Bucket(es, k)[n]);
    }
    if Tracked(slots, es) && UniqueIds(slots) && Live(slots[i]) {
      forall j | 0 <= j < |after| && Live(after[j])
        ensures j in Bucket(es', after[j].extra)
      {
        assert j != i && after[j] == slots[j];
        assert j in Bucket(es, slots[j].extra);
      }
    }
  }

  /** Dropping an identifier twice is dropping it once. */
  lemma RemoveTwice(es: seq<Entry<int>>, k: int)
    requires Sorted(es)
    ensures Remove(Remove(es, k), k) == Remove(es, k)
  {
    RemoveSpec(es, k, k);
    RemoveAbsentKey(Remove(es, k), k);
  }

  /**
   * Deleting every record listed under `id` and dropping `id` keeps a
   * tracking index tracking: the records left live carry other identifiers.
   */
  lemma IndexRemovedAll<P>(slots: seq<Slot<UInt16, P>>, es: seq<Entry<int>>, id: UInt16)
    requires Sound(slots, es) && Sorted(es) && Tracked(slots, es) && UniqueIds(slots)
    ensures forall i :: 0 <= i < |slots| ==> (i in Bucket(es, id) <==> Live(slots[i]) && slots[i].extra == id)
    ensures Tracked(DeleteAll(slots, Bucket(es, id)), Remove(es, id))
    ensures UniqueIds(DeleteAll(slots, Bucket(es, id)))
  {
    var after := DeleteAll(slots, Bucket(es, id));
    forall i | 0 <= i < |slots| && i in Bucket(es, id)
      ensures Live(slots[i]) && slots[i].extra == id
    {
      var n :| 0 <= n < |Bucket(es, id)| && Bucket(es, id)[n] == i;
      assert Listed(slots, id, Bucket(es, id)[n]);
    }
    forall k
      ensures Bucket(Remove(es, id), k) == if k == id then [] else Bucket(es, k)
    {
      BucketRemove(es, id, k);
    }
  }

  /** A list the tree holds is not empty. */
  lemma {:induction false} LookupNonEmpty(es: seq<Entry<int>>, k: int)
    requires NonEmptyLists(es) && Lookup(es, k).Some?
    ensures Lookup(es, k).value != []
  {
    if es[0].key != k {
      LookupNonEmpty(es[1..], k);
    }
  }

  // ------------------------------------------- an index of one slot per key

  /** The identifiers the live records carry. */
  ghost function Values<P>(slots: seq<Slot<UInt16, P>>): set<int>
  {
    set i | 0 <= i < |slots| && Live(slots[i]) :: slots[i].extra as int
  }

  /** The keys of an index. */
  ghost function Keys<V>(es: seq<Entry<V>>): set<int>
  {
    set i | 0 <= i < |es| :: es[i].key
  }

  /** Each key lists exactly one slot, as an index built with `clearValues` keeps it. */
  ghost predicate Single<V>(es: seq<Entry<V>>)
  {
    forall i :: 0 <= i < |es| ==> |es[i].values| == 1
  }

  /** An index of one slot per key holds as many values as keys. */
  lemma {:induction false} SingleTotal<V>(es: seq<Entry<V>>)
    requires Single(es)
    ensures ElemTotal(es) == |es|
  {
    if es != [] {
      assert |es[0].values| == 1;
      SingleTotal(es[1..]);
    }
  }

  /** A sorted index has as many keys as entries. */
  lemma {:induction false} SortedKeys<V>(es: seq<Entry<V>>)
    requires Sorted(es)
    ensures |Keys(es)| == |es|
  {
    if es != [] {
      var rest := es[1..];
      SortedKeys(rest);
      KeysCons(es);
      FirstKeyNew(es);
    }
  }

  /** The keys of an index: its first entry's, and those of the rest. */
  lemma KeysCons<V>(es: seq<Entry<V>>)
    requires es != []
    ensures Keys(es) == {es[0].key} + Keys(es[1..])
  {
    var rest := es[1..];
    forall k | k in Keys(es)
      ensures k in {es[0].key} + Keys(rest)
    {
      var i :| 0 <= i < |es| && es[i].key == k;
      if i > 0 {
        assert rest[i - 1].key == k;
      }
    }
    forall k | k in Keys(rest)
      ensures k in Keys(es)
    {
      var i :| 0 <= i < |rest| && rest[i].key == k;
      assert es[i + 1].key == k;
    }
  }

  /** In a sorted index the first key is no key of the rest. */
  lemma FirstKeyNew<V>(es: seq<Entry<V>>)
    requires es != [] && Sorted(es)
    ensures es[0].key !in Keys(es[1..])
  {
    var rest := es[1..];
    forall i | 0 <= i < |rest|
      ensures rest[i].key != es[0].key
    {
      assert es[0].key < es[i + 1].key;
    }
  }

  /** An index that is sound and tracks every live record has the live identifiers as its keys. */
  lemma KeysAreValues<P>(slots: seq<Slot<UInt16, P>>, es: seq<Entry<int>>)
    requires Sound(slots, es) && Tracked(slots, es) && NonEmptyLists(es)
    ensures Keys(es) == Values(slots)
  {
    forall k | k in Keys(es)
      ensures k in Values(slots)
    {
      var i :| 0 <= i < |es| && es[i].key == k;
      LookupAt(es, k, i);
      LookupNonEmpty(es, k);
      var j := Bucket(es, k)[0];
      assert Listed(slots, k, j);
      assert slots[j].extra as int == k;
    }
    forall k | k in Values(slots)
      ensures k in Keys(es)
    {
      var j :| 0 <= j < |slots| && Live(slots[j]) && slots[j].extra as int == k;
      assert j in Bucket(es, slots[j].extra);
      if k !in Keys(es) {
        LookupAbsent(es, k);
        assert false;
      }
    }
  }

  /**
   * A live record placed in a free slot `i` and indexed alone under its
   * identifier keeps the index sound; the identifier's earlier slot, if
   * any, is no longer listed.
   */
  lemma PlacedSound<P>(slots: seq<Slot<UInt16, P>>, es: seq<Entry<int>>, i: nat, s: Slot<UInt16, P>)
    requires Sound(slots, es) && Live(s) && i <= |slots| && (i < |slots| ==> !Live(slots[i]))
    ensures Sound(Placed(slots, i, s), Put(es, s.extra, [i]))
  {
    var after, es' := Placed(slots, i, s), Put(es, s.extra, [i]);
    forall k, n | 0 <= n < |Bucket(es', k)|
      ensures Listed(after, k, Bucket(es', k)[n])
    {
      BucketPut(es, s.extra, [i], k);
      if k != s.extra as int {
        var j := Bucket(es, k)[n];
        assert Listed(slots, k, j);
        assert j != i && after[j] == slots[j];
      }
    }
  }

  /** Placing an identifier no live record carries keeps the index tracking and the identifiers unique. */
  lemma PlacedExact<P>(slots: seq<Slot<UInt16, P>>, es: seq<Entry<int>>, i: nat, s: Slot<UInt16, P>)
    requires Tracked(slots, es) && UniqueIds(slots) && s.extra as int !in Values(slots)
    requires Live(s) && i <= |slots| && (i < |slots| ==> !Live(slots[i]))
    ensures Tracked(Placed(slots, i, s), Put(es, s.extra, [i]))
    ensures UniqueIds(Placed(slots, i, s))
  {
    var after, es' := Placed(slots, i, s), Put(es, s.extra, [i]);
    forall j | 0 <= j < |after| && Live(after[j])
      ensures j in Bucket(es', after[j].extra)
    {
      BucketPut(es, s.extra, [i], after[j].extra);
      if j != i {
        assert after[j] == slots[j];
        assert slots[j].extra as int in Values(slots);
        assert j in Bucket(es, slots[j].extra);
      }
    }
    forall j, j' | 0 <= j < |after| && 0 <= j' < |after| && j != j' && Live(after[j]) && Live(after[j'])
      ensures after[j].extra != after[j'].extra
    {
      if j != i && j' != i {
        assert after[j] == slots[j] && after[j'] == slots[j'];
      } else if j == i {
        assert after[j'] == slots[j'];
        assert slots[j'].extra as int in Values(slots);
      } else {
        assert after[j] == slots[j];
        assert slots[j].extra as int in Values(slots);
      }
    }
  }

  /** A record placed live in a free slot adds its identifier to the live identifiers. */
  lemma PlacedValues<P>(slots: seq<Slot<UInt16, P>>, i: nat, s: Slot<UInt16, P>)
    requires Live(s) && i <= |slots| && (i < |slots| ==> !Live(slots[i]))
    ensures Values(Placed(slots, i, s)) == Values(slots) + {s.extra as int}
  {
    var after := Placed(slots, i, s);
    assert after[i] == s;
    forall k | k in Values(slots)
      ensures k in Values(after)
    {
      var j :| 0 <= j < |slots| && Live(slots[j]) && slots[j].extra as int == k;
      assert j != i && after[j] == slots[j];
    }
    forall k | k in Values(after)
      ensures k in Values(slots) + {s.extra as int}
    {
      var j :| 0 <= j < |after| && Live(after[j]) && after[j].extra as int == k;
      if j != i {
        assert after[j] == slots[j];
      }
    }
  }

  /** Deleting the only live record of an identifier removes it from the live identifiers. */
  lemma DeletedValues<P>(slots: seq<Slot<UInt16, P>>, ds: seq<int>, id: UInt16)
    requires forall i :: 0 <= i < |slots| ==> (i in ds <==> Live(slots[i]) && slots[i].extra == id)
    ensures Values(DeleteAll(slots, ds)) == Values(slots) - {id as int}
  {
    var after := DeleteAll(slots, ds);
    forall k | k in Values(slots) - {id as int}
      ensures k in Values(after)
    {
      var j :| 0 <= j < |slots| && Live(slots[j]) && slots[j].extra as int == k;
      assert j !in ds && after[j] == slots[j];
    }
    forall k | k in Values(after)
      ensures k in Values(slots) - {id as int}
    {
      var j :| 0 <= j < |after| && Live(after[j]) && after[j].extra as int == k;
      assert j !in ds && after[j] == slots[j];
    }
  }

  /** Giving a key a list of one slot keeps one slot per key. */
  lemma {:induction false} SinglePut<V>(es: seq<Entry<V>>, k: int, v: V)
    requires Single(es)
    ensures Single(Put(es, k, [v]))
  {
    if es != [] && es[0].key < k {
      SinglePut(es[1..], k, v);
      var r := Put(es[1..], k, [v]);
      assert Put(es, k, [v]) == [es[0]] + r;
    }
  }

  /** Dropping a key keeps one slot per key. */
  lemma {:induction false} SingleRemove<V>(es: seq<Entry<V>>, k: int)
    requires Single(es)
    ensures Single(Remove(es, k))
  {
    if es != [] {
      SingleRemove(es[1..], k);
    }
  }

  /** Deleting records of `id` and dropping `id` from the index keeps it sound. */
  lemma RemovedSound<P>(slots: seq<Slot<UInt16, P>>, es: seq<Entry<int>>, ds: seq<int>, id: UInt16)
    requires Sound(slots, es) && Sorted(es)
    requires forall j :: 0 <= j < |ds| && 0 <= ds[j] < |slots| ==> slots[ds[j]].extra == id
    ensures Sound(DeleteAll(slots, ds), Remove(es, id))
  {
    var after, es' := DeleteAll(slots, ds), Remove(es, id);
    forall k, n | 0 <= n < |Bucket(es', k)|
      ensures Listed(after, k, Bucket(es', k)[n])
    {
      BucketRemove(es, id, k);
      var j := Bucket(es, k)[n];
      assert Listed(slots, k, j);
      assert j !in ds;
    }
  }

  // -------------------------------------------------------------- persistence

  /**
   * `OutgoingPacketMetadata.SaveTo` and `UInt16Metadata.SaveTo`: the record,
   * then the identifier as a store integer.
   */
  function SaveRecord(m: Metadata, packetId: UInt16): seq<Byte>
  {
    SaveTo(m) + DataEncoderHelper.VbiEncode(packetId)
  }

  /**
   * `OutgoingPacketMetadata.LoadFrom` and `UInt16Metadata.LoadFrom`: the
   * record, then the identifier cut to 16 bits.
   */
  function LoadRecord(data: seq<Byte>, pos: nat, index: int): Result<(Metadata, UInt16, nat)>
    requires pos <= |data|
  {
    var base := LoadFrom(data, pos, index);
    if base.Err? then Err(base.reason)
    else if base.value.1 > |data| then Err("eof")
    else
      var id := StoreVbiDecode(data, base.value.1);
      if id.Err? then Err(id.reason)
      else Ok((base.value.0, id.value.0 % 0x1_0000, id.value.1))
  }

  /** `LoadRecord` from what the record's two parts decode to. */
  lemma RecordLoadsFromParts(data: seq<Byte>, pos: nat, index: int, m: Metadata, p: nat, packetId: UInt16, end: nat)
    requires pos <= |data| && p <= |data|
    requires LoadFrom(data, pos, index) == Ok((m, p))
    requires StoreVbiDecode(data, p) == Ok((packetId as UInt32, end))
    ensures LoadRecord(data, pos, index) == Ok((m, packetId, end))
  {
  }

  /** The metadata part of a saved record loads back. */
  lemma RecordMetadataLoads(m: Metadata, packetId: UInt16, data: seq<Byte>, pos: nat)
    requires pos + |SaveRecord(m, packetId)| <= |data|
    requires data[pos..pos + |SaveRecord(m, packetId)|] == SaveRecord(m, packetId)
    ensures pos + |SaveTo(m)| <= |data|
    ensures LoadFrom(data, pos, m.index) == Ok((m, pos + |SaveTo(m)|))
  {
    SliceParts(data, pos, SaveTo(m), DataEncoderHelper.VbiEncode(packetId));
    SavedLoadsAt(m, data, pos);
  }

  /** The identifier part of a saved record loads back. */
  lemma RecordIdLoads(m: Metadata, packetId: UInt16, data: seq<Byte>, pos: nat)
    requires pos + |SaveRecord(m, packetId)| <= |data|
    requires data[pos..pos + |SaveRecord(m, packetId)|] == SaveRecord(m, packetId)
    ensures StoreVbiDecode(data, pos + |SaveTo(m)|) == Ok((packetId as UInt32, pos + |SaveRecord(m, packetId)|))
  {
    var b, e := SaveTo(m), DataEncoderHelper.VbiEncode(packetId);
    SliceParts(data, pos, b, e);
    RecordLength(m, packetId);
    StoreVbiDecodeTo(data, pos + |b|, packetId, pos + |SaveRecord(m, packetId)|);
  }

  /** A record's length is that of its two parts. */
  lemma RecordLength(m: Metadata, packetId: UInt16)
    ensures |SaveRecord(m, packetId)| == |SaveTo(m)| + |DataEncoderHelper.VbiEncode(packetId)|
  {
  }

  /** The two halves of a slice that holds `b + e`. */
  lemma SliceParts<T>(data: seq<T>, pos: nat, b: seq<T>, e: seq<T>)
    requires pos + |b + e| <= |data|
    requires data[pos..pos + |b + e|] == b + e
    ensures data[pos..pos + |b|] == b
    ensures data[pos + |b|..pos + |b| + |e|] == e
  {
    assert data[pos..pos + |b|] == (b + e)[..|b|];
    assert data[pos + |b|..pos + |b| + |e|] == (b + e)[|b|..];
  }
}

/**
 * `OutgoingPacketDatabase`: the store of PUBLISH packets waiting to be sent
 * or acknowledged.  Every record is flagged `None`, carries the packet's
 * identifier as its own field, and takes the slot after the last one
 * (`DefaultEmptyMetadataIndexFinder`), so the live records in slot order are
 * the packets in the order they were added: a queue.  A second index,
 * `index_packetId`, lists the slots of each packet identifier; removing a
 * record drops its identifier's whole list.
 */
module OutgoingPacketDatabases {
  import opened Bytes
  import opened SortedEntries
  import opened AVLTrees
  import opened Metadatas
  import opened IndexingServices
  import opened Databases
  import opened IdIndexes

  // ------------------------------------------------------------- the queue

  /** The live records from slot `j` on, as (packet identifier, packet) pairs in slot order. */
  function Queue<P>(slots: seq<Slot<UInt16, P>>, j: nat): seq<(UInt16, P)>
    requires j <= |slots|
    decreases |slots| - j
  {
    if j == |slots| then []
    else (if Live(slots[j]) then [(slots[j].extra, slots[j].content)] else []) + Queue(slots, j + 1)
  }

  /** The packet identifiers in a queue. */
  function Ids<P>(q: seq<(UInt16, P)>): set<UInt16>
  {
    if q == [] then {} else {q[0].0} + Ids(q[1..])
  }

  /** The queue without the packets carrying identifier `id`, the others in order. */
  function WithoutId<P>(q: seq<(UInt16, P)>, id: UInt16): (r: seq<(UInt16, P)>)
    ensures id !in Ids(r)
    ensures Ids(r) == Ids(q) - {id}
  {
    if q == [] then []
    else if q[0].0 == id then WithoutId(q[1..], id)
    else
      var r := [q[0]] + WithoutId(q[1..], id);
      assert r[1..] == WithoutId(q[1..], id);
      r
  }

  /** Dropping an identifier that is not queued leaves the queue as it is. */
  lemma {:induction false} WithoutAbsent<P>(q: seq<(UInt16, P)>, id: UInt16)
    requires id !in Ids(q)
    ensures WithoutId(q, id) == q
  {
    if q != [] {
      WithoutAbsent(q[1..], id);
    }
  }

  /** Where the first packet whose identifier is above `id` sits in the queue, or its length. */
  function FirstAboveIndex<P>(q: seq<(UInt16, P)>, id: UInt16): (n: nat)
    ensures n <= |q| && (n < |q| ==> q[n].0 > id)
    ensures forall m :: 0 <= m < n ==> q[m].0 <= id
  {
    if q == [] || q[0].0 > id then 0 else 1 + FirstAboveIndex(q[1..], id)
  }

  /** The first packet of the queue whose identifier is above `id`. */
  function FirstAbove<P>(q: seq<(UInt16, P)>, id: UInt16): Option<(UInt16, P)>
  {
    var n := FirstAboveIndex(q, id);
    if n == |q| then None else Some(q[n])
  }

  /** The queue has as many packets as there are live records. */
  lemma {:induction false} QueueLength<P>(slots: seq<Slot<UInt16, P>>, j: nat)
    requires j <= |slots|
    ensures |Queue(slots, j)| == |LiveIndexes(slots, j)|
    decreases |slots| - j
  {
    if j < |slots| {
      QueueLength(slots, j + 1);
    }
  }

  /** A live record placed after the last slot joins the end of the queue. */
  lemma {:induction false} QueueAppend<P>(slots: seq<Slot<UInt16, P>>, s: Slot<UInt16, P>, j: nat)
    requires j <= |slots| && Live(s)
    ensures Queue(slots + [s], j) == Queue(slots, j) + [(s.extra, s.content)]
    decreases |slots| - j
  {
    var after := slots + [s];
    if j == |slots| {
      assert Queue(after, j + 1) == [];
    } else {
      assert after[j] == slots[j];
      var head := if Live(slots[j]) then [(slots[j].extra, slots[j].content)] else [];
      assert Queue(after, j) == head + Queue(after, j + 1);
      assert Queue(slots, j) == head + Queue(slots, j + 1);
      QueueAppend(slots, s, j + 1);
      assert head + (Queue(slots, j + 1) + [(s.extra, s.content)]) == (head + Queue(slots, j + 1)) + [(s.extra, s.content)];
    }
  }

  /** The queue from `j` on reads only the slots from `j` on. */
  lemma {:induction false} QueueFrame<P>(a: seq<Slot<UInt16, P>>, b: seq<Slot<UInt16, P>>, j: nat)
    requires j <= |a| == |b| && forall k :: j <= k < |a| ==> a[k] == b[k]
    ensures Queue(a, j) == Queue(b, j)
    decreases |a| - j
  {
    if j < |a| {
      QueueFrame(a, b, j + 1);
      var head := if Live(a[j]) then [(a[j].extra, a[j].content)] else [];
      assert a[j] == b[j];
      assert Queue(a, j) == head + Queue(a, j + 1);
      assert Queue(b, j) == head + Queue(b, j + 1);
    }
  }

  /** The first live slot from `j` on, or the end. */
  function FirstLiveFrom<P>(slots: seq<Slot<UInt16, P>>, j: nat): (i: nat)
    requires j <= |slots|
    ensures j <= i <= |slots|
    ensures i < |slots| ==> Live(slots[i])
    ensures forall k :: j <= k < i ==> !Live(slots[k])
    decreases |slots| - j
  {
    if j == |slots| || Live(slots[j]) then j else FirstLiveFrom(slots, j + 1)
  }

  /**
   * The head of the queue is the first live slot; deleting that record
   * leaves the rest of the queue.
   */
  lemma QueueHead<P>(slots: seq<Slot<UInt16, P>>, j: nat)
    requires j <= |slots|
    ensures var i := FirstLiveFrom(slots, j);
            (i == |slots| ==> Queue(slots, j) == [])
            && (i < |slots| ==> Queue(slots, j) == [(slots[i].extra, slots[i].content)] + Queue(slots, i + 1)
                                && Queue(slots[i := Deleted(slots[i])], j) == Queue(slots, i + 1))
  {
    var i := FirstLiveFrom(slots, j);
    QueueDead(slots, j, i);
    if i < |slots| {
      var del := slots[i := Deleted(slots[i])];
      assert forall k :: j <= k < i ==> del[k] == slots[k];
      QueueDead(del, j, i);
      QueueFrame(del, slots, i + 1);
      assert Queue(del, i) == [] + Queue(del, i + 1);
    }
  }

  /** Slots without a live record add nothing to the queue. */
  lemma {:induction false} QueueDead<P>(slots: seq<Slot<UInt16, P>>, j: nat, i: nat)
    requires j <= i <= |slots| && forall k :: j <= k < i ==> !Live(slots[k])
    ensures Queue(slots, j) == Queue(slots, i)
    decreases i - j
  {
    if j < i {
      assert Queue(slots, j) == [] + Queue(slots, j + 1);
      QueueDead(slots, j + 1, i);
    }
  }

  /** A packet identifier is queued exactly when a live record carries it. */
  lemma {:induction false} QueueIds<P>(slots: seq<Slot<UInt16, P>>, j: nat, id: UInt16)
    requires j <= |slots|
    ensures id in Ids(Queue(slots, j)) <==> exists i :: j <= i < |slots| && Live(slots[i]) && slots[i].extra == id
    decreases |slots| - j
  {
    if j < |slots| {
      QueueIds(slots, j + 1, id);
      var q, rest := Queue(slots, j), Queue(slots, j + 1);
      if Live(slots[j]) {
        assert q[0].0 == slots[j].extra && q[1..] == rest;
        assert Ids(q) == {slots[j].extra} + Ids(rest);
      } else {
        assert q == rest;
      }
      if id in Ids(rest) {
        var i :| j + 1 <= i < |slots| && Live(slots[i]) && slots[i].extra == id;
      }
      if exists i :: j <= i < |slots| && Live(slots[i]) && slots[i].extra == id {
        var i :| j <= i < |slots| && Live(slots[i]) && slots[i].extra == id;
        if i != j {
          assert j + 1 <= i;
        }
      }
    }
  }

  /**
   * Deleting exactly the live records that carry `id` takes the packets
   * with that identifier out of the queue.
   */
  lemma {:induction false} QueueDeleteAll<P>(slots: seq<Slot<UInt16, P>>, ds: seq<int>, id: UInt16, j: nat)
    requires j <= |slots|
    requires forall i :: j <= i < |slots| ==> (i in ds <==> Live(slots[i]) && slots[i].extra == id)
    ensures Queue(DeleteAll(slots, ds), j) == WithoutId(Queue(slots, j), id)
    decreases |slots| - j
  {
    if j < |slots| {
      QueueDeleteAll(slots, ds, id, j + 1);
      var d := DeleteAll(slots, ds);
      var q, rest := Queue(slots, j), Queue(slots, j + 1);
      assert d[j] == if j in ds then Deleted(slots[j]) else slots[j];
      if Live(slots[j]) {
        assert q[0] == (slots[j].extra, slots[j].content) && q[1..] == rest;
        if j in ds {
          assert Queue(d, j) == Queue(d, j + 1);
        } else {
          assert Queue(d, j) == [q[0]] + Queue(d, j + 1);
        }
      } else {
        assert q == rest;
        assert Queue(d, j) == Queue(d, j + 1);
      }
    }
  }

  /** The first packet above `id` from slot `j` on, once slot `j` is not one. */
  lemma FirstAboveStep<P>(slots: seq<Slot<UInt16, P>>, j: nat, id: UInt16)
    requires j < |slots| && !(Live(slots[j]) && slots[j].extra > id)
    ensures FirstAbove(Queue(slots, j), id) == FirstAbove(Queue(slots, j + 1), id)
  {
    var q, rest := Queue(slots, j), Queue(slots, j + 1);
    if Live(slots[j]) {
      assert q[0].0 <= id && q[1..] == rest;
      var n := FirstAboveIndex(rest, id);
      assert FirstAboveIndex(q, id) == 1 + n;
      if n < |rest| {
        assert q[1 + n] == rest[n];
      }
    } else {
      assert q == rest;
    }
  }

  // ------------------------------------------------- the packet identifier index

  /** Indexing a record appended live adds its slot to its identifier's list and nowhere else. */
  lemma AppendedBuckets(es: seq<Entry<int>>, id: UInt16, idx: int)
    ensures forall k :: Bucket(AddUnder(es, id, idx), k) == Bucket(es, k) + (if k == id then [idx] else [])
  {
    forall k
      ensures Bucket(AddUnder(es, id, idx), k) == Bucket(es, k) + (if k == id then [idx] else [])
    {
      BucketAdd(es, id, idx, k);
    }
  }

  /** Indexing a record appended live keeps the index sound. */
  lemma AppendedSound<P>(slots: seq<Slot<UInt16, P>>, es: seq<Entry<int>>, s: Slot<UInt16, P>)
    requires Sound(slots, es) && Live(s)
    ensures Sound(slots + [s], AddUnder(es, s.extra, |slots|))
  {
    var after, es' := slots + [s], AddUnder(es, s.extra, |slots|);
    AppendedBuckets(es, s.extra, |slots|);
    forall k, n | 0 <= n < |Bucket(es', k)|
      ensures Listed(after, k, Bucket(es', k)[n])
    {
      if n < |Bucket(es, k)| {
        assert Bucket(es', k)[n] == Bucket(es, k)[n];
        assert Listed(slots, k, Bucket(es, k)[n]);
      }
    }
  }

  /** Indexing a record appended live keeps a tracking index tracking. */
  lemma AppendedTracked<P>(slots: seq<Slot<UInt16, P>>, es: seq<Entry<int>>, s: Slot<UInt16, P>)
    requires Tracked(slots, es)
    ensures Tracked(slots + [s], AddUnder(es, s.extra, |slots|))
  {
    var after, es' := slots + [s], AddUnder(es, s.extra, |slots|);
    forall i | 0 <= i < |after| && Live(after[i])
      ensures i in Bucket(es', after[i].extra)
    {
      BucketAdd(es, s.extra, |slots|, after[i].extra);
      if i < |slots| {
        assert after[i] == slots[i];
        assert i in Bucket(es, slots[i].extra);
      }
    }
  }

  /** A record appended with an identifier that is not queued keeps the identifiers unique. */
  lemma AppendedUnique<P>(slots: seq<Slot<UInt16, P>>, s: Slot<UInt16, P>)
    requires UniqueIds(slots) && s.extra !in Ids(Queue(slots, 0))
    ensures UniqueIds(slots + [s])
  {
    QueueIds(slots, 0, s.extra);
  }

  /** The index answers whether an identifier is queued: always when it has it, and exactly when it tracks. */
  lemma InUse<P>(slots: seq<Slot<UInt16, P>>, es: seq<Entry<int>>, id: UInt16)
    requires Sound(slots, es) && NonEmptyLists(es)
    ensures Lookup(es, id).Some? ==> id in Ids(Queue(slots, 0))
    ensures Tracked(slots, es) ==> (Lookup(es, id).Some? <==> id in Ids(Queue(slots, 0)))
  {
    QueueIds(slots, 0, id);
    if Lookup(es, id).Some? {
      LookupNonEmpty(es, id);
      assert Listed(slots, id, Bucket(es, id)[0]);
    }
  }

  // --------------------------------------------------------------- the store

  /** One more listed record deleted: it still carries `id`, and the deletions so far extend by it. */
  lemma DeleteListedStep<P>(s0: seq<Slot<UInt16, P>>, list: seq<int>, j: nat, id: UInt16)
    requires j < |list| && forall n :: 0 <= n < |list| ==> 0 <= list[n] < |s0| && s0[list[n]].extra == id
    ensures var now := DeleteAll(s0, list[..j]);
            now[list[j]].extra == id && now[list[j] := Deleted(now[list[j]])] == DeleteAll(s0, list[..j + 1])
  {
    var idx := list[j];
    assert DeleteAll(s0, list[..j])[idx].extra == s0[idx].extra;
    DeleteAllStep(s0, list[..j], idx);
    assert list[..j + 1] == list[..j] + [idx];
  }

  class OutgoingPacketDatabase<P> {
    /** The records: each record's own field is its packet identifier, its content the packet. */
    const db: Database<UInt16, P>
    /** `index_packetId`: packet identifier to the slots holding it. */
    const packetIds: AVLTree<int>

    ghost predicate Valid()
      reads this, db, db.indexing, db.indexing.indexFlags, packetIds
    {
      db.Valid() && packetIds.Valid() && packetIds != db.indexing.indexFlags
      && AllNone(db.slots) && Sound(db.slots, packetIds.Contents())
    }

    /** The identifier index lists every live record and no identifier is queued twice. */
    ghost predicate Exact()
      reads this, db, packetIds
    {
      Tracked(db.slots, packetIds.Contents()) && UniqueIds(db.slots)
    }

    /** The packets in the order they were added. */
    ghost function Contents(): seq<(UInt16, P)>
      reads this, db
    {
      Queue(db.slots, 0)
    }

    constructor()
      ensures Valid() && Exact() && Contents() == [] && !db.isDirty
      ensures fresh(db) && fresh(db.indexing) && fresh(db.indexing.indexFlags) && fresh(packetIds)
    {
      db := new Database<UInt16, P>();
      packetIds := new AVLTree<int>();
    }

    /**
     * `Add`: the packet is stored after the last slot and indexed under its
     * identifier, so it joins the end of the queue.  The position and the
     * length of its bytes come from the disk manager.
     */
    method Add(packetId: UInt16, packet: P, filePosition: Int32, length: Int32)
      requires Valid() && filePosition >= 0
      modifies db, db.indexing.indexFlags, packetIds
      ensures Valid() && db.isDirty
      ensures Contents() == old(Contents()) + [(packetId, packet)]
      ensures old(Exact()) && packetId !in Ids(old(Contents())) ==> Exact()
    {
      var s := Slot(Metadata(|db.slots|, filePosition, length, FlagNone), packetId, packet);
      AppendedSound(db.slots, packetIds.Contents(), s);
      if Exact() && packetId !in Ids(Contents()) {
        AppendedTracked(db.slots, packetIds.Contents(), s);
        AppendedUnique(db.slots, s);
      }
      QueueAppend(db.slots, s, 0);
      var idx := db.Add(packetId, packet, FlagNone, AppendFinder, filePosition, length);
      packetIds.Add(packetId, idx, false);
    }

    /**
     * `MetadataService.Remove` through `DeleteMetadata` for one slot: a
     * record flagged `None` is never locked, so it is marked deleted and its
     * identifier leaves the index.
     */
    method DeleteRecord(i: nat)
      requires Valid() && i < |db.slots|
      modifies db, db.indexing.indexFlags, packetIds
      ensures Valid() && db.isDirty
      ensures db.slots == old(db.slots)[i := Deleted(old(db.slots)[i])]
      ensures packetIds.Contents() == Remove(old(packetIds.Contents()), old(db.slots)[i].extra)
      ensures old(Exact()) && Live(old(db.slots)[i]) ==> Exact()
    {
      var id := db.slots[i].extra;
      IndexDeleted(db.slots, packetIds.Contents(), i);
      var _ := db.DeleteMetadata(i);
      var _ := packetIds.RemoveKey(id);
    }

    /**
     * `TryRemoveByPacketId`: false when the identifier is not indexed;
     * otherwise every record listed under it is deleted and the answer is
     * true.  When the index is exact, the answer is whether the identifier
     * is queued and the queue loses exactly its packets.
     */
    method TryRemoveByPacketId(id: UInt16) returns (found: bool)
      requires Valid()
      modifies db, db.indexing.indexFlags, packetIds
      ensures Valid()
      ensures found <==> Lookup(old(packetIds.Contents()), id).Some?
      ensures packetIds.Contents() == Remove(old(packetIds.Contents()), id)
      ensures !found ==> db.slots == old(db.slots)
      ensures db.isDirty == (old(db.isDirty) || found)
      ensures old(Exact()) ==> (Exact() && (found <==> id in Ids(old(Contents())))
                                && Contents() == WithoutId(old(Contents()), id))
    {
      ghost var s0, es0 := db.slots, packetIds.Contents();
      InUse(s0, es0, id);
      var indexes := packetIds.Find(id);
      if indexes.Some? {
        LookupNonEmpty(es0, id);
      }
      if indexes.None? || |indexes.value| == 0 {
        if indexes.None? {
          RemoveAbsentKey(es0, id);
          if old(Exact()) {
            WithoutAbsent(Queue(s0, 0), id);
          }
        }
        return false;
      }
      var list := indexes.value;
      assert list == Bucket(es0, id);
      assert forall n :: 0 <= n < |list| ==> Listed(s0, id, list[n]);
      DeleteListed(list, id);
      db.FlagDirty(true);
      found := true;
      if old(Exact()) {
        IndexRemovedAll(s0, es0, id);
        QueueDeleteAll(s0, list, id, 0);
      }
    }

    /** The deletion loop of `TryRemoveByPacketId`: every listed record of `id` is deleted. */
    method DeleteListed(list: seq<int>, id: UInt16)
      requires Valid() && |list| > 0
      requires forall n :: 0 <= n < |list| ==> 0 <= list[n] < |db.slots| && db.slots[list[n]].extra == id
      modifies db, db.indexing.indexFlags, packetIds
      ensures Valid() && db.isDirty
      ensures db.slots == DeleteAll(old(db.slots), list)
      ensures packetIds.Contents() == Remove(old(packetIds.Contents()), id)
    {
      ghost var s0, es0 := db.slots, packetIds.Contents();
      DeleteAllNothing(s0);
      for j := 0 to |list|
        invariant Valid() && (j > 0 ==> db.isDirty)
        invariant db.slots == DeleteAll(s0, list[..j])
        invariant packetIds.Contents() == if j == 0 then es0 else Remove(es0, id)
      {
        var idx: nat := list[j];
        DeleteListedStep(s0, list, j, id);
        RemoveTwice(es0, id);
        DeleteRecord(idx);
      }
      assert list[..|list|] == list;
    }

    /**
     * `TryDequeue`: the first live record in slot order, its identifier and
     * its packet, is deleted and returned; an empty store returns nothing.
     */
    method TryDequeue() returns (r: Option<(UInt16, P)>)
      requires Valid()
      modifies db, db.indexing.indexFlags, packetIds
      ensures Valid()
      ensures r == if old(Contents()) == [] then None else Some(old(Contents())[0])
      ensures Contents() == if old(Contents()) == [] then old(Contents()) else old(Contents())[1..]
      ensures db.isDirty == (old(db.isDirty) || r.Some?)
      ensures old(Exact()) ==> Exact()
    {
      var i := FirstLive();
      QueueHead(db.slots, 0);
      if i == |db.slots| {
        return None;
      }
      var s := db.slots[i];
      DeleteRecord(i);
      db.FlagDirty(true);
      r := Some((s.extra, s.content));
    }

    /** The scan of `FirstOrDefault(m => !m.IsDeleted)`. */
    method FirstLive() returns (i: nat)
      ensures i == FirstLiveFrom(db.slots, 0)
    {
      i := 0;
      while i < |db.slots| && !Live(db.slots[i])
        invariant i <= |db.slots|
        invariant FirstLiveFrom(db.slots, i) == FirstLiveFrom(db.slots, 0)
      {
        i := i + 1;
      }
    }

    /**
     * `GetNext(id)`: the first live record in slot order whose identifier is
     * above `id` (not the smallest such identifier), left in the store.
     */
    method GetNext(id: UInt16) returns (r: Option<(UInt16, P)>)
      ensures r == FirstAbove(Contents(), id)
    {
      var i := 0;
      while i < |db.slots| && !(Live(db.slots[i]) && db.slots[i].extra > id)
        invariant i <= |db.slots|
        invariant FirstAbove(Queue(db.slots, i), id) == FirstAbove(Contents(), id)
      {
        FirstAboveStep(db.slots, i, id);
        i := i + 1;
      }
      if i == |db.slots| {
        return None;
      }
      r := Some((db.slots[i].extra, db.slots[i].content));
    }

    /**
     * `IsPacketIDInUse`: whether the identifier index has the identifier.
     * An identifier in use is queued; with an exact index, a queued
     * identifier is in use.
     */
    method IsPacketIDInUse(id: UInt16) returns (b: bool)
      requires Valid()
      ensures b <==> Lookup(packetIds.Contents(), id).Some?
      ensures b ==> id in Ids(Contents())
      ensures Exact() ==> (b <==> id in Ids(Contents()))
    {
      b := packetIds.ContainsKey(id);
      InUse(db.slots, packetIds.Contents(), id);
    }

    /** `Count`: the flag index's `ElemCount`, which is the length of the queue. */
    method Count() returns (n: int)
      requires Valid()
      ensures n == |Contents()|
    {
      n := db.indexing.indexFlags.elemCount;
      NoneCount(db.slots, db.indexing.Buckets());
      QueueLength(db.slots, 0);
    }
  }
}

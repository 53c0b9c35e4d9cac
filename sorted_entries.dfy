/**
 * The abstract contents of an `AVLTree`: its nodes read in key order, each
 * an entry holding a key and the list of values stored under it.  The tree
 * operations are specified by what they do to this sequence.
 */
module SortedEntries {
  import opened Bytes

  datatype Entry<V> = Entry(key: int, values: seq<V>)

  /** Keys strictly increase along the sequence, so no key appears twice. */
  ghost predicate Sorted<V>(es: seq<Entry<V>>)
  {
    forall i, j :: 0 <= i < j < |es| ==> es[i].key < es[j].key
  }

  /** Every key of `es` is below `k`. */
  ghost predicate AllBelow<V>(es: seq<Entry<V>>, k: int)
  {
    forall i :: 0 <= i < |es| ==> es[i].key < k
  }

  /** Every key of `es` is above `k`. */
  ghost predicate AllAbove<V>(es: seq<Entry<V>>, k: int)
  {
    forall i :: 0 <= i < |es| ==> es[i].key > k
  }

  /** The values stored under `x`, or `None` when no entry has that key. */
  function Lookup<V>(es: seq<Entry<V>>, x: int): Option<seq<V>>
  {
    if es == [] then None
    else if es[0].key == x then Some(es[0].values)
    else Lookup(es[1..], x)
  }

  /** The number of values over all entries. */
  function ElemTotal<V>(es: seq<Entry<V>>): nat
  {
    if es == [] then 0 else |es[0].values| + ElemTotal(es[1..])
  }

  /** Stores `vs` under `k`: replaces the entry with that key, or adds one in key order. */
  function Put<V>(es: seq<Entry<V>>, k: int, vs: seq<V>): seq<Entry<V>>
  {
    if es == [] then [Entry(k, vs)]
    else if es[0].key == k then [Entry(k, vs)] + es[1..]
    else if es[0].key > k then [Entry(k, vs)] + es
    else [es[0]] + Put(es[1..], k, vs)
  }

  /** Drops the entry with key `k`, if any. */
  function Remove<V>(es: seq<Entry<V>>, k: int): seq<Entry<V>>
  {
    if es == [] then []
    else if es[0].key == k then Remove(es[1..], k)
    else [es[0]] + Remove(es[1..], k)
  }

  // ------------------------------------------------------------------ lemmas

  lemma SortedSplit<V>(a: seq<Entry<V>>, e: Entry<V>, b: seq<Entry<V>>)
    requires Sorted(a + [e] + b)
    ensures Sorted(a) && Sorted(b) && AllBelow(a, e.key) && AllAbove(b, e.key)
  {
    var s := a + [e] + b;
    assert forall i :: 0 <= i < |a| ==> s[i] == a[i];
    assert forall i :: 0 <= i < |b| ==> s[|a| + 1 + i] == b[i];
    assert s[|a|] == e;
  }

  lemma SortedJoin<V>(a: seq<Entry<V>>, e: Entry<V>, b: seq<Entry<V>>)
    requires Sorted(a) && Sorted(b) && AllBelow(a, e.key) && AllAbove(b, e.key)
    ensures Sorted(a + [e] + b)
  {
    var s := a + [e] + b;
    forall i, j | 0 <= i < j < |s|
      ensures s[i].key < s[j].key
    {
      if j < |a| {
        assert s[i] == a[i] && s[j] == a[j];
      } else if i < |a| {
        assert s[i] == a[i];
        if j > |a| {
          assert s[j] == b[j - |a| - 1];
        }
      } else if i == |a| {
        assert s[j] == b[j - |a| - 1];
      } else {
        assert s[i] == b[i - |a| - 1] && s[j] == b[j - |a| - 1];
      }
    }
  }

  /** A key that no entry has is not found. */
  lemma {:induction false} LookupAbsent<V>(es: seq<Entry<V>>, x: int)
    requires forall i :: 0 <= i < |es| ==> es[i].key != x
    ensures Lookup(es, x) == None
  {
    if es != [] {
      LookupAbsent(es[1..], x);
    }
  }

  /** A lookup in `a + b` finds the entry of `a` first. */
  lemma {:induction false} LookupConcat<V>(a: seq<Entry<V>>, b: seq<Entry<V>>, x: int)
    ensures Lookup(a + b, x) == if Lookup(a, x).Some? then Lookup(a, x) else Lookup(b, x)
  {
    if a != [] {
      assert (a + b)[1..] == a[1..] + b;
      LookupConcat(a[1..], b, x);
    } else {
      assert a + b == b;
    }
  }

  /**
   * In a sorted sequence split at `e`, a key below `e.key` is looked up in
   * the left part, a key above it in the right part.
   */
  lemma LookupSplit<V>(a: seq<Entry<V>>, e: Entry<V>, b: seq<Entry<V>>, x: int)
    requires Sorted(a + [e] + b)
    ensures x < e.key ==> Lookup(a + [e] + b, x) == Lookup(a, x)
    ensures x > e.key ==> Lookup(a + [e] + b, x) == Lookup(b, x)
    ensures x == e.key ==> Lookup(a + [e] + b, x) == Some(e.values)
  {
    SortedSplit(a, e, b);
    LookupConcat(a + [e], b, x);
    LookupConcat(a, [e], x);
    if x >= e.key {
      LookupAbsent(a, x);
    }
    if x <= e.key {
      LookupAbsent(b, x);
    }
  }

  lemma {:induction false} ElemTotalConcat<V>(a: seq<Entry<V>>, b: seq<Entry<V>>)
    ensures ElemTotal(a + b) == ElemTotal(a) + ElemTotal(b)
  {
    if a != [] {
      assert (a + b)[1..] == a[1..] + b;
      ElemTotalConcat(a[1..], b);
    } else {
      assert a + b == b;
    }
  }

  /**
   * `Put` keeps the sequence sorted, stores `vs` under `k`, leaves every
   * other key alone, adds an entry only for a new key, and changes the
   * number of values by the size of the replaced list.
   */
  lemma PutSpec<V>(es: seq<Entry<V>>, k: int, vs: seq<V>, x: int)
    requires Sorted(es)
    ensures Sorted(Put(es, k, vs))
    ensures Lookup(Put(es, k, vs), x) == if x == k then Some(vs) else Lookup(es, x)
    ensures |Put(es, k, vs)| == if Lookup(es, k).Some? then |es| else |es| + 1
    ensures ElemTotal(Put(es, k, vs)) + (if Lookup(es, k).Some? then |Lookup(es, k).value| else 0)
         == ElemTotal(es) + |vs|
  {
    PutSorted(es, k, vs);
    PutLookup(es, k, vs, x);
    PutCounts(es, k, vs);
  }

  lemma {:induction false} PutSorted<V>(es: seq<Entry<V>>, k: int, vs: seq<V>)
    requires Sorted(es)
    ensures Sorted(Put(es, k, vs))
  {
    if es != [] {
      assert Sorted(es[1..]);
      var p := Put(es, k, vs);
      if es[0].key == k {
        assert p[1..] == es[1..];
      } else if es[0].key > k {
        assert p[1..] == es;
        forall i, j | 0 <= i < j < |p| ensures p[i].key < p[j].key {
          if i > 0 {
            assert p[i] == es[i - 1];
          }
          assert p[j] == es[j - 1];
        }
      } else {
        PutSorted(es[1..], k, vs);
        PutKeys(es[1..], k, vs, es[0].key);
        assert p[1..] == Put(es[1..], k, vs);
        forall i, j | 0 <= i < j < |p| ensures p[i].key < p[j].key {
          if i == 0 {
            assert p[j] == Put(es[1..], k, vs)[j - 1];
          }
        }
      }
    }
  }

  lemma {:induction false} PutLookup<V>(es: seq<Entry<V>>, k: int, vs: seq<V>, x: int)
    ensures Lookup(Put(es, k, vs), x) == if x == k then Some(vs) else Lookup(es, x)
  {
    if es != [] {
      var p := Put(es, k, vs);
      if es[0].key == k {
        assert p[1..] == es[1..];
      } else if es[0].key > k {
        assert p[1..] == es;
      } else {
        PutLookup(es[1..], k, vs, x);
        assert p[1..] == Put(es[1..], k, vs);
      }
    }
  }

  lemma {:induction false} PutCounts<V>(es: seq<Entry<V>>, k: int, vs: seq<V>)
    requires Sorted(es)
    ensures |Put(es, k, vs)| == if Lookup(es, k).Some? then |es| else |es| + 1
    ensures ElemTotal(Put(es, k, vs)) + (if Lookup(es, k).Some? then |Lookup(es, k).value| else 0)
         == ElemTotal(es) + |vs|
  {
    if es != [] {
      assert Sorted(es[1..]);
      var p := Put(es, k, vs);
      if es[0].key == k {
        assert p[1..] == es[1..];
      } else if es[0].key > k {
        assert p[1..] == es;
        LookupAbsentFrom(es, k);
      } else {
        PutCounts(es[1..], k, vs);
        assert p[1..] == Put(es[1..], k, vs);
      }
    }
  }

  /** In a sorted sequence whose first key is above `k`, `k` is absent. */
  lemma LookupAbsentFrom<V>(es: seq<Entry<V>>, k: int)
    requires Sorted(es) && es != [] && es[0].key > k
    ensures Lookup(es, k) == None
  {
    forall i | 0 <= i < |es|
      ensures es[i].key != k
    {
      if i > 0 {
        assert es[0].key < es[i].key;
      }
    }
    LookupAbsent(es, k);
  }

  /** Every key `Put` leaves is `k` or a key that was there. */
  lemma {:induction false} PutKeys<V>(es: seq<Entry<V>>, k: int, vs: seq<V>, below: int)
    requires AllAbove(es, below) && below < k
    ensures AllAbove(Put(es, k, vs), below)
  {
    if es != [] && es[0].key < k {
      PutKeys(es[1..], k, vs, below);
    }
  }

  /**
   * `Remove` keeps the sequence sorted, makes `k` absent, leaves every other
   * key alone, and drops one entry and its values exactly when `k` was there.
   */
  lemma {:induction false} RemoveSpec<V>(es: seq<Entry<V>>, k: int, x: int)
    requires Sorted(es)
    ensures Sorted(Remove(es, k))
    ensures Lookup(Remove(es, k), x) == if x == k then None else Lookup(es, x)
    ensures |Remove(es, k)| == if Lookup(es, k).Some? then |es| - 1 else |es|
    ensures ElemTotal(Remove(es, k)) + (if Lookup(es, k).Some? then |Lookup(es, k).value| else 0)
         == ElemTotal(es)
  {
    RemoveSorted(es, k);
    if es != [] {
      assert Sorted(es[1..]);
      RemoveSpec(es[1..], k, x);
      if es[0].key == k && es[1..] != [] {
        assert es[0].key < es[1].key;
        LookupAbsentFrom(es[1..], k);
      }
    }
  }

  /** `Remove` keeps the sequence sorted. */
  lemma {:induction false} RemoveSorted<V>(es: seq<Entry<V>>, k: int)
    requires Sorted(es)
    ensures Sorted(Remove(es, k))
  {
    if es != [] {
      assert Sorted(es[1..]);
      RemoveSorted(es[1..], k);
      RemoveKeys(es[1..], k, es[0].key);
      var r := Remove(es, k);
      if es[0].key != k {
        assert r[1..] == Remove(es[1..], k);
        forall i, j | 0 <= i < j < |r| ensures r[i].key < r[j].key {
          if i == 0 {
            assert r[j] == Remove(es[1..], k)[j - 1];
          }
        }
      }
    }
  }

  /** `Remove` only drops keys. */
  lemma {:induction false} RemoveKeys<V>(es: seq<Entry<V>>, k: int, below: int)
    requires AllAbove(es, below)
    ensures AllAbove(Remove(es, k), below)
  {
    if es != [] {
      RemoveKeys(es[1..], k, below);
    }
  }

  /** Removing from a concatenation removes from both parts. */
  lemma {:induction false} RemoveConcat<V>(a: seq<Entry<V>>, b: seq<Entry<V>>, k: int)
    ensures Remove(a + b, k) == Remove(a, k) + Remove(b, k)
  {
    if a != [] {
      assert (a + b)[1..] == a[1..] + b && (a + b)[0] == a[0];
      RemoveConcat(a[1..], b, k);
      if a[0].key != k {
        AppendAssoc([a[0]], Remove(a[1..], k), Remove(b, k));
      }
    } else {
      assert a + b == b;
    }
  }

  /** Concatenation regroups freely. */
  lemma AppendAssoc<T>(x: seq<T>, y: seq<T>, z: seq<T>)
    ensures x + (y + z) == (x + y) + z
  {
  }

  /** Removing a key no entry has changes nothing. */
  lemma {:induction false} RemoveAbsent<V>(es: seq<Entry<V>>, k: int)
    requires forall i :: 0 <= i < |es| ==> es[i].key != k
    ensures Remove(es, k) == es
  {
    if es != [] {
      RemoveAbsent(es[1..], k);
      assert es == [es[0]] + es[1..];
    }
  }

  /** Storing a key below every key of `b` happens within `a`. */
  lemma {:induction false} PutConcatLeft<V>(a: seq<Entry<V>>, b: seq<Entry<V>>, k: int, vs: seq<V>)
    requires AllAbove(b, k) && (b != [] ==> AllBelow(a, b[0].key))
    ensures Put(a + b, k, vs) == Put(a, k, vs) + b
  {
    if a == [] {
      assert a + b == b;
      if b != [] {
        assert b[0].key > k;
      }
    } else {
      assert (a + b)[0] == a[0];
      assert (a + b)[1..] == a[1..] + b;
      if a[0].key < k {
        PutConcatLeft(a[1..], b, k, vs);
      }
    }
  }

  /** Storing a key above every key of `a` happens within `b`. */
  lemma {:induction false} PutConcatRight<V>(a: seq<Entry<V>>, b: seq<Entry<V>>, k: int, vs: seq<V>)
    requires AllBelow(a, k)
    ensures Put(a + b, k, vs) == a + Put(b, k, vs)
  {
    if a == [] {
      assert a + b == b;
    } else {
      assert (a + b)[0] == a[0];
      assert (a + b)[1..] == a[1..] + b;
      PutConcatRight(a[1..], b, k, vs);
    }
  }

  /** In a sorted sequence split at `e`, storing a key below `e.key` happens in the left part. */
  lemma PutSplitLeft<V>(a: seq<Entry<V>>, e: Entry<V>, b: seq<Entry<V>>, k: int, vs: seq<V>)
    requires Sorted(a + [e] + b) && k < e.key
    ensures Put(a + [e] + b, k, vs) == Put(a, k, vs) + [e] + b
  {
    SortedSplit(a, e, b);
    var eb := [e] + b;
    assert AllAbove(eb, k) by {
      assert forall i :: 0 < i < |eb| ==> eb[i] == b[i - 1];
    }
    assert a + [e] + b == a + eb;
    PutConcatLeft(a, eb, k, vs);
  }

  /** In a sorted sequence split at `e`, storing a key above `e.key` happens in the right part. */
  lemma PutSplitRight<V>(a: seq<Entry<V>>, e: Entry<V>, b: seq<Entry<V>>, k: int, vs: seq<V>)
    requires Sorted(a + [e] + b) && k > e.key
    ensures Put(a + [e] + b, k, vs) == a + [e] + Put(b, k, vs)
  {
    SortedSplit(a, e, b);
    assert AllBelow(a + [e], k) by {
      assert forall i :: 0 <= i < |a| ==> (a + [e])[i] == a[i];
    }
    PutConcatRight(a + [e], b, k, vs);
  }

  /** In a sorted sequence split at `e`, storing under `e.key` replaces `e`'s list. */
  lemma PutSplitHere<V>(a: seq<Entry<V>>, e: Entry<V>, b: seq<Entry<V>>, vs: seq<V>)
    requires Sorted(a + [e] + b)
    ensures Put(a + [e] + b, e.key, vs) == a + [Entry(e.key, vs)] + b
  {
    SortedSplit(a, e, b);
    assert a + [e] + b == a + ([e] + b);
    PutConcatRight(a, [e] + b, e.key, vs);
    assert ([e] + b)[1..] == b;
  }
}

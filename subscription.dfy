/**
 * Topic filters and subscriptions.  `TopicFilter.IsMatching` decides
 * whether a topic name is selected by a filter with the wildcards of
 * section 4.7 of the OASIS MQTT Version 5.0 standard: `#` takes the rest of
 * the name, `+` takes one level up to the next `/`, and a filter starting
 * with a wildcard does not select names starting with `$`.  A `Subscription`
 * holds the list of its topics and is changed in place.
 */
module Subscriptions {
  import opened Bytes
  import SortedEntries

  /** A filter holds at least one character; the constructor refuses an empty one. */
  type FilterText = s: string | |s| > 0 witness "#"

  datatype TopicFilter = TopicFilter(filter: FilterText)

  /** The `TopicFilter` constructor: an empty filter throws. */
  function NewTopicFilter(filter: string): (r: Result<TopicFilter>)
    ensures r.Ok? <==> filter != []
    ensures r.Ok? ==> r.value.filter == filter
  {
    if filter == [] then Err("All Topic Filters MUST be at least one character long")
    else Ok(TopicFilter(filter))
  }

  // ------------------------------------------------------------ the matcher

  /** The position of the `/` ending the level that starts at `j`, or the end of the name. */
  function SkipLevel(t: string, j: nat): (k: nat)
    requires j <= |t|
    ensures j <= k <= |t|
    ensures k < |t| ==> t[k] == '/'
    ensures forall m :: j <= m < k ==> t[m] != '/'
    decreases |t| - j
  {
    if j < |t| && t[j] != '/' then SkipLevel(t, j + 1) else j
  }

  /**
   * The decision once either the filter or the name is used up at positions
   * `i` and `j`: both used up is a match; a used-up name still matches a
   * filter whose rest is `#` after a `/`, `/#`, or starts with `+`.
   */
  predicate Tail(f: string, t: string, i: nat, j: nat)
    requires i <= |f| && j <= |t|
  {
    if j == |t| && i == |f| then true
    else if j == |t| then
      (i > 0 && f[i - 1] == '/' && f[i] == '#')
      || (i < |f| - 1 && f[i] == '/' && f[i + 1] == '#')
      || f[i] == '+'
    else false
  }

  /**
   * The matcher's walk from filter position `i` and name position `j`: `#`
   * matches at once, `+` skips the rest of the level, any other character
   * must equal the name's.
   */
  predicate Scan(f: string, t: string, i: nat, j: nat)
    requires i <= |f| && j <= |t|
    decreases |f| - i
  {
    if i < |f| && j < |t| then
      if f[i] == '#' then true
      else if f[i] == '+' then Scan(f, t, i + 1, SkipLevel(t, j))
      else if f[i] != t[j] then false
      else Scan(f, t, i + 1, j + 1)
    else Tail(f, t, i, j)
  }

  /** Whether the filter selects the (non-empty) topic name. */
  predicate Matches(f: FilterText, t: string)
    requires |t| > 0
  {
    if t[0] == '$' && (f[0] == '#' || f[0] == '+') then false
    else Scan(f, t, 0, 0)
  }

  /** `TopicFilter.IsMatching`: an empty topic name throws. */
  method IsMatching(filter: TopicFilter, topicName: string) returns (r: Result<bool>)
    ensures r.Err? <==> topicName == []
    ensures r.Ok? ==> r.value == Matches(filter.filter, topicName)
  {
    if |topicName| == 0 {
      return Err("Topic Names MUST be at least one character long!");
    }
    var f := filter.filter;
    if topicName[0] == '$' && (f[0] == '#' || f[0] == '+') {
      return Ok(false);
    }
    var filterIdx := 0;
    var topicNameIdx := 0;
    while filterIdx < |f| && topicNameIdx < |topicName|
      invariant filterIdx <= |f| && topicNameIdx <= |topicName|
      invariant Scan(f, topicName, filterIdx, topicNameIdx) == Scan(f, topicName, 0, 0)
      decreases |f| - filterIdx
    {
      var filterChr := f[filterIdx];
      if filterChr == '#' {
        return Ok(true);
      } else if filterChr == '+' {
        ghost var start := topicNameIdx;
        while topicNameIdx < |topicName| && topicName[topicNameIdx] != '/'
          invariant start <= topicNameIdx <= |topicName|
          invariant SkipLevel(topicName, topicNameIdx) == SkipLevel(topicName, start)
          decreases |topicName| - topicNameIdx
        {
          topicNameIdx := topicNameIdx + 1;
        }
      } else {
        if filterChr != topicName[topicNameIdx] {
          return Ok(false);
        }
        topicNameIdx := topicNameIdx + 1;
      }
      filterIdx := filterIdx + 1;
    }
    if topicNameIdx == |topicName| && filterIdx == |f| {
      return Ok(true);
    } else if topicNameIdx == |topicName| {
      if filterIdx > 0 && f[filterIdx - 1] == '/' && f[filterIdx] == '#' {
        return Ok(true);
      } else if filterIdx < |f| - 1 && f[filterIdx] == '/' && f[filterIdx + 1] == '#' {
        return Ok(true);
      } else if filterIdx < |f| && f[filterIdx] == '+' {
        return Ok(true);
      }
    }
    return Ok(false);
  }

  // ------------------------------------------------------ matcher properties

  /** No wildcard in the text. */
  predicate Literal(s: string)
  {
    forall k :: 0 <= k < |s| ==> s[k] != '#' && s[k] != '+'
  }

  /** A filter starting with a wildcard never selects a name starting with `$`. */
  lemma DollarTopicsHidden(f: FilterText, t: string)
    requires |t| > 0 && t[0] == '$' && (f[0] == '#' || f[0] == '+')
    ensures !Matches(f, t)
  {
  }

  /** `#` alone selects every name that does not start with `$`. */
  lemma HashAloneMatchesAll(t: string)
    requires |t| > 0 && t[0] != '$'
    ensures Matches("#", t)
  {
  }

  /**
   * Over a literal stretch of the filter the walk compares character by
   * character: it goes on at `k` when the name agrees up to `k`, fails on a
   * differing character, and falls to `Tail` where the name ends early.
   */
  lemma {:induction false} ScanLiteral(f: string, t: string, i: nat, k: nat)
    requires i <= k <= |f| && i <= |t|
    requires forall m :: i <= m < k ==> f[m] != '#' && f[m] != '+'
    ensures |t| >= k && t[i..k] == f[i..k] ==> Scan(f, t, i, i) == Scan(f, t, k, k)
    ensures (exists m :: i <= m < k && m < |t| && t[m] != f[m] && t[i..m] == f[i..m]) ==> !Scan(f, t, i, i)
    ensures |t| < k && t[i..] == f[i..|t|] ==> Scan(f, t, i, i) == Tail(f, t, |t|, |t|)
    decreases k - i
  {
    if i < k {
      if i < |t| {
        if f[i] == t[i] {
          ScanLiteral(f, t, i + 1, k);
          if exists m :: i <= m < k && m < |t| && t[m] != f[m] && t[i..m] == f[i..m] {
            var m :| i <= m < k && m < |t| && t[m] != f[m] && t[i..m] == f[i..m];
            assert m > i;
            assert t[i + 1..m] == f[i + 1..m];
          }
          if |t| >= k && t[i..k] == f[i..k] {
            assert t[i + 1..k] == t[i..k][1..];
          }
          if |t| < k && t[i..] == f[i..|t|] {
            assert t[i + 1..] == t[i..][1..];
          }
        }
      }
    }
  }

  /** A filter without wildcards selects exactly the name equal to it. */
  lemma LiteralMatchesItself(f: FilterText, t: string)
    requires Literal(f) && |t| > 0
    ensures Matches(f, t) <==> t == f
  {
    ScanLiteral(f, t, 0, |f|);
    if |t| >= |f| {
      if t[..|f|] == f[..|f|] {
        if |t| > |f| {
          assert !Tail(f, t, |f|, |f|);
        } else {
          assert t == t[..|f|];
        }
      } else {
        assert t != f;
        var m := FirstDifference(f, t, |f|);
      }
    } else {
      assert t != f;
      if t[..] == f[..|t|] {
        assert !Tail(f, t, |t|, |t|);
      } else {
        var m := FirstDifference(f, t, |t|);
      }
    }
  }

  /** Where two texts that differ before `n` first differ. */
  lemma FirstDifference(f: string, t: string, n: nat) returns (m: nat)
    requires n <= |f| && n <= |t| && t[..n] != f[..n]
    ensures m < n && t[m] != f[m] && t[..m] == f[..m]
  {
    m := 0;
    while t[m] == f[m]
      invariant m < n && t[..m] == f[..m]
      decreases n - m
    {
      assert t[..m + 1] == f[..m + 1];
      if m + 1 == n {
        assert false;
      }
      m := m + 1;
    }
  }

  /**
   * `p/#` for a literal `p` selects `p` itself (the parent level) and every
   * name below `p/`, and nothing else.
   */
  lemma MultiLevelWildcard(p: string, t: string)
    requires |p| > 0 && Literal(p) && |t| > 0
    ensures Matches(p + "/#", t) <==> t == p || (|t| > |p| && t[..|p| + 1] == p + "/")
  {
    var f: FilterText := p + "/#";
    var n := |p|;
    assert f[n] == '/' && f[n + 1] == '#' && f[..n] == p;
    ScanLiteral(f, t, 0, n + 1);
    if |t| > n && t[..n + 1] == p + "/" {
      assert t[..n + 1] == f[..n + 1];
      assert Scan(f, t, n + 1, n + 1) by {
        if n + 1 < |t| {
        } else {
          assert Tail(f, t, n + 1, n + 1);
        }
      }
    } else if t == p {
      assert t[0..] == f[0..|t|];
      assert Tail(f, t, n, n);
    } else {
      if |t| >= n + 1 {
        assert t[..n + 1] != f[..n + 1];
        var m := FirstDifference(f, t, n + 1);
        assert t[0..m] == t[..m];
      } else if t[..] == f[..|t|] {
        assert |t| < n;
        assert !Tail(f, t, |t|, |t|);
      } else {
        var m := FirstDifference(f, t, |t|);
        assert t[0..m] == t[..m];
      }
    }
  }

  /**
   * `p/+` for a literal `p` selects the names one level below `p`: `p/`
   * followed by a level without `/` (possibly empty), and nothing else.
   */
  lemma SingleLevelWildcard(p: string, t: string)
    requires |p| > 0 && Literal(p) && |t| > 0
    ensures Matches(p + "/+", t)
        <==> |t| > |p| && t[..|p| + 1] == p + "/" && forall m :: |p| < m < |t| ==> t[m] != '/'
  {
    var f: FilterText := p + "/+";
    var n := |p|;
    assert f[n] == '/' && f[n + 1] == '+' && f[..n] == p;
    ScanLiteral(f, t, 0, n + 1);
    if |t| > n && t[..n + 1] == p + "/" {
      assert t[..n + 1] == f[..n + 1];
      if n + 1 < |t| {
        var k := SkipLevel(t, n + 1);
        assert Scan(f, t, n + 1, n + 1) == Tail(f, t, n + 2, k);
      } else {
        assert Tail(f, t, n + 1, n + 1);
      }
    } else if |t| >= n + 1 {
      assert t[..n + 1] != f[..n + 1];
      var m := FirstDifference(f, t, n + 1);
      assert t[0..m] == t[..m];
    } else if t[..] == f[..|t|] {
      assert !Tail(f, t, |t|, |t|);
    } else {
      var m := FirstDifference(f, t, |t|);
      assert t[0..m] == t[..m];
    }
  }

  /** The single-level wildcard examples of section 4.7.1.3 of MQTT 5.0: one level, and no more. */
  lemma SingleLevelExamples()
    ensures Matches("sport/tennis/+", "sport/tennis/player1")
    ensures !Matches("sport/tennis/+", "sport/tennis/player1/ranking")
  {
    var tennis := "sport/tennis";
    assert tennis + "/+" == "sport/tennis/+";
    SingleLevelWildcard(tennis, "sport/tennis/player1");
    assert "sport/tennis/player1"[..|tennis| + 1] == tennis + "/";
    SingleLevelWildcard(tennis, "sport/tennis/player1/ranking");
    assert "sport/tennis/player1/ranking"[20] == '/';
  }

  /** The multi-level wildcard examples of section 4.7.1.2 of MQTT 5.0: `#` also matches the parent level. */
  lemma MultiLevelExamples()
    ensures Matches("sport/#", "sport")
    ensures Matches("sport/tennis/player1/#", "sport/tennis/player1")
  {
    var player1 := "sport/tennis/player1";
    assert "sport" + "/#" == "sport/#";
    MultiLevelWildcard("sport", "sport");
    assert player1 + "/#" == "sport/tennis/player1/#";
    MultiLevelWildcard(player1, player1);
  }

  /** The examples of section 4.7.2 of MQTT 5.0: a wildcard first level does not match a `$` topic. */
  lemma DollarTopicExamples()
    ensures !Matches("#", "$SYS/monitor/Clients")
    ensures !Matches("+/monitor/Clients", "$SYS/monitor/Clients")
  {
  }

  // ---------------------------------------------------------- subscriptions

  /**
   * `Subscription`: its identifier and its list of topics.  The callbacks a
   * `SubscriptionTopic` carries are not part of the model; a topic is its filter.
   */
  class Subscription {
    const id: UInt32
    var topics: seq<TopicFilter>

    constructor(id: UInt32)
      ensures this.id == id && topics == []
    {
      this.id := id;
      topics := [];
    }

    /** `AddTopic`: the topic goes to the end of the list. */
    method AddTopic(topic: TopicFilter)
      modifies this
      ensures topics == old(topics) + [topic]
    {
      topics := topics + [topic];
    }

    /**
     * `TryRemoveTopic`: the first topic whose filter equals `topicFilter`
     * leaves the list; reports whether one was found and whether the list is
     * now empty.
     */
    method TryRemoveTopic(topicFilter: string) returns (topicFound: bool, removeSubscription: bool)
      modifies this
      ensures topicFound <==> exists i :: 0 <= i < |old(topics)| && old(topics)[i].filter == topicFilter
      ensures topics == RemoveFirstFilter(old(topics), topicFilter)
      ensures removeSubscription <==> topics == []
    {
      var idx := -1;
      var i := 0;
      while i < |topics|
        invariant 0 <= i <= |topics|
        invariant forall k :: 0 <= k < i ==> topics[k].filter != topicFilter
        decreases |topics| - i
      {
        if topics[i].filter == topicFilter {
          idx := i;
          break;
        }
        i := i + 1;
      }
      if idx != -1 {
        RemoveFirstFilterAt(topics, topicFilter, idx);
        topics := topics[..idx] + topics[idx + 1..];
      } else {
        RemoveFirstFilterAbsent(topics, topicFilter);
      }
      topicFound := idx != -1;
      removeSubscription := |topics| == 0;
    }

    /**
     * `HasMatchingTopic`: whether some topic selects the name.  With no
     * topics it answers false without looking at the name; otherwise an
     * empty name throws, as `IsMatching` does.
     */
    method HasMatchingTopic(topicName: string) returns (r: Result<bool>)
      ensures r.Err? <==> topics != [] && topicName == []
      ensures r.Ok? ==> (r.value <==> topicName != [] && exists i :: 0 <= i < |topics| && Matches(topics[i].filter, topicName))
    {
      var i := 0;
      while i < |topics|
        invariant 0 <= i <= |topics|
        invariant i > 0 ==> topicName != []
        invariant topicName != [] ==> forall k :: 0 <= k < i ==> !Matches(topics[k].filter, topicName)
        decreases |topics| - i
      {
        var m := IsMatching(topics[i], topicName);
        if m.Err? {
          return m;
        }
        if m.value {
          return Ok(true);
        }
        i := i + 1;
      }
      return Ok(false);
    }
  }

  /** The list without its first topic whose filter is `f`; unchanged when there is none. */
  function RemoveFirstFilter(ts: seq<TopicFilter>, f: string): (r: seq<TopicFilter>)
    ensures |r| == if exists i :: 0 <= i < |ts| && ts[i].filter == f then |ts| - 1 else |ts|
  {
    if ts == [] then []
    else if ts[0].filter == f then ts[1..]
    else
      assert forall i :: 1 <= i < |ts| ==> ts[i] == ts[1..][i - 1];
      [ts[0]] + RemoveFirstFilter(ts[1..], f)
  }

  /** With `idx` the first position holding `f`, removing the first `f` cuts out `idx`. */
  lemma {:induction false} RemoveFirstFilterAt(ts: seq<TopicFilter>, f: string, idx: nat)
    requires idx < |ts| && ts[idx].filter == f
    requires forall k :: 0 <= k < idx ==> ts[k].filter != f
    ensures RemoveFirstFilter(ts, f) == ts[..idx] + ts[idx + 1..]
  {
    if idx > 0 {
      var t := ts[1..];
      assert forall k :: 0 <= k < idx - 1 ==> t[k] == ts[k + 1];
      RemoveFirstFilterAt(t, f, idx - 1);
      assert RemoveFirstFilter(ts, f) == [ts[0]] + RemoveFirstFilter(t, f);
      assert t[..idx - 1] == ts[1..idx] by {
        assert forall n :: 0 <= n < idx - 1 ==> t[..idx - 1][n] == ts[1..idx][n];
      }
      assert t[idx..] == ts[idx + 1..] by {
        assert forall n :: 0 <= n < |ts| - idx - 1 ==> t[idx..][n] == ts[idx + 1..][n];
      }
      assert ts[..idx] == [ts[0]] + ts[1..idx];
      SortedEntries.AppendAssoc([ts[0]], ts[1..idx], ts[idx + 1..]);
    }
  }

  /** Without `f` in the list nothing is removed. */
  lemma {:induction false} RemoveFirstFilterAbsent(ts: seq<TopicFilter>, f: string)
    requires forall k :: 0 <= k < |ts| ==> ts[k].filter != f
    ensures RemoveFirstFilter(ts, f) == ts
  {
    if ts != [] {
      RemoveFirstFilterAbsent(ts[1..], f);
      assert ts == [ts[0]] + ts[1..];
    }
  }
}

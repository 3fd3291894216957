/**
 datasync/kvdbsync/watch_impl.go and plugin_impl_dbsync.go: all watchers of an adapter take previous values
 from one history.  Each is told the changes under its own prefix, in order; how the callbacks of different
 watchers interleave is open.
 */
module SharedHistory {
  import opened Wrappers
  import opened Revisions

  /** A change handed to a watcher. */
  datatype Delivery<V> = Delivery(watcher: nat, x: WatchResp<V>)

  function Events<V>(deliveries: seq<Delivery<V>>): (r: seq<WatchResp<V>>)
    ensures |r| == |deliveries|
  {
    if deliveries == [] then []
    else Events(deliveries[..|deliveries| - 1]) + [deliveries[|deliveries| - 1].x]
  }

  /** What a watcher is handed. */
  function To<V>(deliveries: seq<Delivery<V>>, w: nat): seq<WatchResp<V>> {
    if deliveries == [] then []
    else
      var last := deliveries[|deliveries| - 1];
      To(deliveries[..|deliveries| - 1], w) + if last.watcher == w then [last.x] else []
  }

  /** What it sends on: previous values are of the last delivery on the key, to whichever watcher. */
  function SentBy<V>(deliveries: seq<Delivery<V>>, w: nat): seq<ChangeWatchResp<V>> {
    if deliveries == [] then []
    else
      var before, last := deliveries[..|deliveries| - 1], deliveries[|deliveries| - 1];
      SentBy(before, w) +
      if last.watcher == w then [ChangeWatchResp(last.x, PrecedingValue(Events(before), last.x.key))] else []
  }

  /** Different watchers with one history, after some deliveries. */
  ghost predicate Told<V>(watchers: seq<WatchBrokerKeys<V>>, lastRev: PrevRevisions<V>, deliveries: seq<Delivery<V>>)
    reads watchers, lastRev
  {
    && (forall i, j :: 0 <= i < j < |watchers| ==> watchers[i] != watchers[j])
    && (forall w :: 0 <= w < |watchers| ==>
          watchers[w].lastRev == lastRev && watchers[w].changeChan == SentBy(deliveries, w))
    && lastRev.revisions == HistoryAfter(Events(deliveries))
  }

  method HandOver<V>(watchers: seq<WatchBrokerKeys<V>>, ghost lastRev: PrevRevisions<V>, d: Delivery<V>,
                     ghost before: seq<Delivery<V>>)
    requires d.watcher < |watchers| && Told(watchers, lastRev, before)
    modifies watchers[d.watcher], lastRev
    ensures Told(watchers, lastRev, before + [d])
  {
    EventsOfNext(before, d);
    StoredIsPreceding(Events(before), d.x.key);
    assert (before + [d])[..|before|] == before;
    watchers[d.watcher].WatchChanges(d.x);
  }

  method CreateWatchers<V>(n: nat, lastRev: PrevRevisions<V>) returns (watchers: seq<WatchBrokerKeys<V>>)
    requires lastRev.revisions == map[]
    ensures |watchers| == n && Told(watchers, lastRev, []) && forall w :: 0 <= w < n ==> fresh(watchers[w])
  {
    watchers := [];
    for w := 0 to n
      invariant |watchers| == w && Told(watchers, lastRev, [])
      invariant forall i :: 0 <= i < w ==> fresh(watchers[i])
    {
      var watcher := new WatchBrokerKeys<V>(lastRev);
      watchers := watchers + [watcher];
    }
  }

  /** The watchers of an adapter, and what they were handed. */
  method Deliver<V>(n: nat, deliveries: seq<Delivery<V>>) returns (watchers: seq<WatchBrokerKeys<V>>)
    requires forall d :: d in deliveries ==> d.watcher < n
    ensures |watchers| == n && forall w :: 0 <= w < n ==> watchers[w].changeChan == SentBy(deliveries, w)
  {
    var lastRev := new PrevRevisions<V>();
    watchers := CreateWatchers(n, lastRev);
    for k := 0 to |deliveries|
      invariant |watchers| == n && fresh(lastRev) && forall w :: 0 <= w < n ==> fresh(watchers[w])
      invariant Told(watchers, lastRev, deliveries[..k])
    {
      assert deliveries[..k + 1] == deliveries[..k] + [deliveries[k]];
      HandOver(watchers, lastRev, deliveries[k], deliveries[..k]);
    }
    assert deliveries[..|deliveries|] == deliveries;
  }

  lemma {:induction false} EventsOfNext<V>(deliveries: seq<Delivery<V>>, d: Delivery<V>)
    ensures Events(deliveries + [d]) == Events(deliveries) + [d.x]
    ensures HistoryAfter(Events(deliveries + [d])) == After(HistoryAfter(Events(deliveries)), d.x)
  {
    assert (deliveries + [d])[..|deliveries|] == deliveries;
    assert (Events(deliveries) + [d.x])[..|deliveries|] == Events(deliveries);
  }

  // ---------------------------------------------------------------- what ought to be sent

  /** The changes under a prefix. */
  function Under<V>(events: seq<WatchResp<V>>, prefix: string): seq<WatchResp<V>> {
    if events == [] then []
    else
      var last := events[|events| - 1];
      Under(events[..|events| - 1], prefix) + if prefix <= last.key then [last] else []
  }

  /** The changes under a prefix, each with the value of the preceding change of the store on its key. */
  function Wanted<V>(events: seq<WatchResp<V>>, prefix: string): seq<ChangeWatchResp<V>> {
    if events == [] then []
    else
      var before, last := events[..|events| - 1], events[|events| - 1];
      Wanted(before, prefix) +
      if prefix <= last.key then [ChangeWatchResp(last, PrecedingValue(before, last.key))] else []
  }

  /** The deliveries are an interleaving of what the watchers of the prefixes get of the changes. */
  predicate Interleaves<V(==)>(prefixes: seq<string>, events: seq<WatchResp<V>>, deliveries: seq<Delivery<V>>) {
    && (forall k :: 0 <= k < |deliveries| ==> deliveries[k].watcher < |prefixes|)
    && (forall w :: 0 <= w < |prefixes| ==> To(deliveries, w) == Under(events, prefixes[w]))
  }

  /** No two watchers can get a change of the same key. */
  predicate Disjoint(prefixes: seq<string>) {
    forall i, j :: 0 <= i < j < |prefixes| ==> !(prefixes[i] <= prefixes[j]) && !(prefixes[j] <= prefixes[i])
  }

  ghost predicate AllRight<V>(prefixes: seq<string>, events: seq<WatchResp<V>>, deliveries: seq<Delivery<V>>) {
    forall w :: 0 <= w < |prefixes| ==> SentBy(deliveries, w) == Wanted(events, prefixes[w])
  }

  // ---------------------------------------------------------------- one more

  lemma {:induction false} PrecedingOfNext<V>(events: seq<WatchResp<V>>, x: WatchResp<V>, key: string)
    ensures PrecedingValue(events + [x], key) ==
            if x.key != key then PrecedingValue(events, key) else if x.delete then None else Some(x.value)
  {
    assert (events + [x])[..|events|] == events;
  }

  lemma {:induction false} SentOfNext<V>(events: seq<WatchResp<V>>, x: WatchResp<V>)
    ensures SentOf(events + [x]) == SentOf(events) + [ChangeWatchResp(x, PrecedingValue(events, x.key))]
  {
    assert (events + [x])[..|events|] == events;
  }

  lemma {:induction false} DeliveredNext<V>(before: seq<Delivery<V>>, d: Delivery<V>, w: nat)
    ensures To(before + [d], w) == if d.watcher == w then To(before, w) + [d.x] else To(before, w)
    ensures SentBy(before + [d], w) ==
            if d.watcher == w then SentBy(before, w) + [ChangeWatchResp(d.x, PrecedingValue(Events(before), d.x.key))]
            else SentBy(before, w)
    ensures Events(before + [d]) == Events(before) + [d.x]
  {
    assert (before + [d])[..|before|] == before;
    assert To(before, w) + [] == To(before, w) && SentBy(before, w) + [] == SentBy(before, w);
  }

  lemma {:induction false} UnderNext<V>(before: seq<WatchResp<V>>, x: WatchResp<V>, prefix: string)
    ensures Under(before + [x], prefix) ==
            if prefix <= x.key then Under(before, prefix) + [x] else Under(before, prefix)
    ensures Wanted(before + [x], prefix) ==
            if prefix <= x.key then Wanted(before, prefix) + [ChangeWatchResp(x, PrecedingValue(before, x.key))]
            else Wanted(before, prefix)
  {
    assert (before + [x])[..|before|] == before;
    assert Under(before, prefix) + [] == Under(before, prefix) && Wanted(before, prefix) + [] == Wanted(before, prefix);
  }

  // ---------------------------------------------------------------- disjoint prefixes

  lemma {:induction false} UnderKeepsPreceding<V>(events: seq<WatchResp<V>>, prefix: string, key: string)
    requires prefix <= key
    ensures PrecedingValue(Under(events, prefix), key) == PrecedingValue(events, key)
  {
    if events != [] {
      var before, last := events[..|events| - 1], events[|events| - 1];
      assert events == before + [last];
      UnderKeepsPreceding(before, prefix, key);
      UnderNext(before, last, prefix);
      PrecedingOfNext(before, last, key);
      PrecedingOfNext(Under(before, prefix), last, key);
    }
  }

  lemma {:induction false} WantedIsSentOfUnder<V>(events: seq<WatchResp<V>>, prefix: string)
    ensures Wanted(events, prefix) == SentOf(Under(events, prefix))
  {
    if events != [] {
      var before, last := events[..|events| - 1], events[|events| - 1];
      assert events == before + [last];
      WantedIsSentOfUnder(before, prefix);
      UnderNext(before, last, prefix);
      if prefix <= last.key {
        UnderKeepsPreceding(before, prefix, last.key);
        SentOfNext(Under(before, prefix), last);
      }
    }
  }

  /** Every change is under the prefix of the watcher it is handed to. */
  predicate UnderOwn<V>(prefixes: seq<string>, deliveries: seq<Delivery<V>>) {
    forall k :: 0 <= k < |deliveries| ==>
      deliveries[k].watcher < |prefixes| && prefixes[deliveries[k].watcher] <= deliveries[k].x.key
  }

  /** Two prefixes of one key are comparable. */
  lemma {:induction false} OnlyOwner(prefixes: seq<string>, i: nat, j: nat, key: string)
    requires Disjoint(prefixes) && i < |prefixes| && j < |prefixes| && prefixes[i] <= key && prefixes[j] <= key
    ensures i == j
  {
    assert Comparable(prefixes[i], prefixes[j]) by {
      PrefixesCompare(prefixes[i], prefixes[j], key);
    }
  }

  predicate Comparable(p: string, q: string) {
    p <= q || q <= p
  }

  lemma {:induction false} PrefixesCompare(p: string, q: string, key: string)
    requires p <= key && q <= key
    ensures Comparable(p, q)
  {
    assert p == key[..|p|] && q == key[..|q|];
    if |p| <= |q| {
      assert p == q[..|p|];
    } else {
      assert q == p[..|q|];
    }
  }

  lemma {:induction false} OwnPreceding<V>(prefixes: seq<string>, deliveries: seq<Delivery<V>>, w: nat, key: string)
    requires Disjoint(prefixes) && UnderOwn(prefixes, deliveries) && w < |prefixes| && prefixes[w] <= key
    ensures PrecedingValue(Events(deliveries), key) == PrecedingValue(To(deliveries, w), key)
  {
    if deliveries != [] {
      var before, last := deliveries[..|deliveries| - 1], deliveries[|deliveries| - 1];
      assert deliveries == before + [last];
      OwnPreceding(prefixes, before, w, key);
      DeliveredNext(before, last, w);
      PrecedingOfNext(Events(before), last.x, key);
      PrecedingOfNext(To(before, w), last.x, key);
      if last.x.key == key {
        OnlyOwner(prefixes, last.watcher, w, key);
      }
    }
  }

  lemma {:induction false} SentIsSentOfOwn<V>(prefixes: seq<string>, deliveries: seq<Delivery<V>>, w: nat)
    requires Disjoint(prefixes) && UnderOwn(prefixes, deliveries) && w < |prefixes|
    ensures SentBy(deliveries, w) == SentOf(To(deliveries, w))
  {
    if deliveries != [] {
      var before, last := deliveries[..|deliveries| - 1], deliveries[|deliveries| - 1];
      assert deliveries == before + [last];
      SentIsSentOfOwn(prefixes, before, w);
      DeliveredNext(before, last, w);
      if last.watcher == w {
        OwnPreceding(prefixes, before, w, last.x.key);
        SentOfNext(To(before, w), last.x);
      }
    }
  }

  lemma {:induction false} InUnder<V>(events: seq<WatchResp<V>>, prefix: string, k: nat)
    requires k < |Under(events, prefix)|
    ensures prefix <= Under(events, prefix)[k].key
  {
    var before := events[..|events| - 1];
    if k < |Under(before, prefix)| {
      InUnder(before, prefix, k);
    }
  }

  lemma {:induction false} IndexIn<V>(deliveries: seq<Delivery<V>>, k: nat) returns (i: nat)
    requires k < |deliveries|
    ensures i < |To(deliveries, deliveries[k].watcher)| && To(deliveries, deliveries[k].watcher)[i] == deliveries[k].x
  {
    var before := deliveries[..|deliveries| - 1];
    if k < |before| {
      i := IndexIn(before, k);
    } else {
      i := |To(before, deliveries[k].watcher)|;
    }
  }

  lemma {:induction false} InterleavedIsUnderOwn<V>(
      prefixes: seq<string>, events: seq<WatchResp<V>>, deliveries: seq<Delivery<V>>)
    requires Interleaves(prefixes, events, deliveries)
    ensures UnderOwn(prefixes, deliveries)
  {
    forall k | 0 <= k < |deliveries|
      ensures prefixes[deliveries[k].watcher] <= deliveries[k].x.key
    {
      var i := IndexIn(deliveries, k);
      InUnder(events, prefixes[deliveries[k].watcher], i);
    }
  }

  lemma {:induction false} DisjointIsRight<V>(
      prefixes: seq<string>, events: seq<WatchResp<V>>, deliveries: seq<Delivery<V>>)
    requires Disjoint(prefixes) && Interleaves(prefixes, events, deliveries)
    ensures AllRight(prefixes, events, deliveries)
  {
    InterleavedIsUnderOwn(prefixes, events, deliveries);
    forall w | 0 <= w < |prefixes|
      ensures SentBy(deliveries, w) == Wanted(events, prefixes[w])
    {
      SentIsSentOfOwn(prefixes, deliveries, w);
      WantedIsSentOfUnder(events, prefixes[w]);
    }
  }

  // ---------------------------------------------------------------- overlapping prefixes

  /** One change, handed to those of the first w watchers that it concerns. */
  function ToEach<V>(concerned: seq<bool>, x: WatchResp<V>, w: nat): (r: seq<Delivery<V>>)
    requires w <= |concerned|
  {
    if w == 0 then []
    else if concerned[w - 1] then ToEach(concerned, x, w - 1) + [Delivery(w - 1, x)]
    else ToEach(concerned, x, w - 1)
  }

  lemma {:induction false} ToEachOfFirst<V>(concerned: seq<bool>, x: WatchResp<V>, w: nat)
    requires w <= |concerned|
    ensures forall k :: 0 <= k < |ToEach(concerned, x, w)| ==> ToEach(concerned, x, w)[k].watcher < w
  {
    if w > 0 {
      ToEachOfFirst(concerned, x, w - 1);
    }
  }

  lemma {:induction false} ToEachTo<V>(concerned: seq<bool>, x: WatchResp<V>, w: nat, v: nat)
    requires w <= |concerned| && v < |concerned|
    ensures To(ToEach(concerned, x, w), v) == if v < w && concerned[v] then [x] else []
  {
    if w > 0 {
      ToEachTo(concerned, x, w - 1, v);
      if concerned[w - 1] {
        DeliveredNext(ToEach(concerned, x, w - 1), Delivery(w - 1, x), v);
        assert [] + [x] == [x];
      }
    }
  }

  lemma {:induction false} ToEachPreceding<V>(concerned: seq<bool>, x: WatchResp<V>, w: nat)
    requires w <= |concerned| && !x.delete
    ensures PrecedingValue(Events(ToEach(concerned, x, w)), x.key) ==
            if true in concerned[..w] then Some(x.value) else None
  {
    if w > 0 {
      var before := ToEach(concerned, x, w - 1);
      assert concerned[..w] == concerned[..w - 1] + [concerned[w - 1]];
      ToEachPreceding(concerned, x, w - 1);
      if concerned[w - 1] {
        EventsOfNext(before, Delivery(w - 1, x));
        PrecedingOfNext(Events(before), x, x.key);
      }
    }
  }

  lemma {:induction false} ToEachSent<V>(concerned: seq<bool>, x: WatchResp<V>, w: nat, v: nat)
    requires w <= |concerned| && v < |concerned|
    ensures SentBy(ToEach(concerned, x, w), v) ==
            if v < w && concerned[v]
            then [ChangeWatchResp(x, PrecedingValue(Events(ToEach(concerned, x, v)), x.key))] else []
  {
    if w > 0 {
      var before := ToEach(concerned, x, w - 1);
      ToEachSent(concerned, x, w - 1, v);
      if concerned[w - 1] {
        DeliveredNext(before, Delivery(w - 1, x), v);
        var sent := ChangeWatchResp(x, PrecedingValue(Events(before), x.key));
        assert [] + [sent] == [sent];
      }
    }
  }

  lemma {:induction false} OneEvent<V>(x: WatchResp<V>, prefix: string)
    ensures Under([x], prefix) == if prefix <= x.key then [x] else []
    ensures Wanted([x], prefix) == if prefix <= x.key then [ChangeWatchResp(x, None)] else []
  {
    assert [x][..0] == [];
  }

  function Concerned(prefixes: seq<string>, key: string): (r: seq<bool>)
    ensures |r| == |prefixes| && forall i :: 0 <= i < |r| ==> r[i] == (prefixes[i] <= key)
  {
    seq(|prefixes|, i requires 0 <= i < |prefixes| => prefixes[i] <= key)
  }

  /** A put under two prefixes: the second watcher is told its own value as the previous one. */
  lemma {:induction false} OverlapIsWrong<V>(prefixes: seq<string>, i: nat, j: nat, key: string, v: V)
    requires i < j < |prefixes| && prefixes[i] <= key && prefixes[j] <= key
    ensures var x := WatchResp(false, key, v, 1);
      var deliveries := ToEach(Concerned(prefixes, key), x, |prefixes|);
      Interleaves(prefixes, [x], deliveries) && !AllRight(prefixes, [x], deliveries)
  {
    var x, concerned := WatchResp(false, key, v, 1), Concerned(prefixes, key);
    var deliveries := ToEach(concerned, x, |prefixes|);
    ToEachOfFirst(concerned, x, |prefixes|);
    forall w | 0 <= w < |prefixes|
      ensures To(deliveries, w) == Under([x], prefixes[w])
    {
      ToEachTo(concerned, x, |prefixes|, w);
      OneEvent(x, prefixes[w]);
    }
    ToEachSent(concerned, x, |prefixes|, j);
    ToEachPreceding(concerned, x, j);
    assert concerned[..j][i];
    OneEvent(x, prefixes[j]);
    assert SentBy(deliveries, j)[0].prev == Some(v);
  }

  /**
   Every watcher is told the right previous values, for all changes and all interleavings, if and only if
   no prefix is a prefix of another.  (v is any value: with it there is a change to be wrong about.)
   */
  lemma {:induction false} PreviousValuesRightIff<V(!new)>(prefixes: seq<string>, v: V)
    ensures Disjoint(prefixes) <==>
      forall events: seq<WatchResp<V>>, deliveries ::
        Interleaves(prefixes, events, deliveries) ==> AllRight(prefixes, events, deliveries)
  {
    if Disjoint(prefixes) {
      forall events: seq<WatchResp<V>>, deliveries | Interleaves(prefixes, events, deliveries)
        ensures AllRight(prefixes, events, deliveries)
      {
        DisjointIsRight(prefixes, events, deliveries);
      }
    } else {
      var i, j :| 0 <= i < j < |prefixes| && (prefixes[i] <= prefixes[j] || prefixes[j] <= prefixes[i]);
      var key := if prefixes[i] <= prefixes[j] then prefixes[j] else prefixes[i];
      OverlapIsWrong(prefixes, i, j, key, v);
    }
  }
}

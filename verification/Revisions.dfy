/**
 datasync/syncbase/prev_revisions.go, datasync/kvdbsync/watch_impl.go and the event list of
 datasync/syncbase/watcher.go: the history from which every change event gets the previous value
 and the revision of its key.
 */
module Revisions {
  import opened Wrappers

  type Int64 = x: int | -0x8000_0000_0000_0000 <= x < 0x8000_0000_0000_0000

  /** rev + 1 in an int64. */
  function Next(rev: Int64): Int64 {
    if rev == 0x7fff_ffff_ffff_ffff then -0x8000_0000_0000_0000 else rev + 1
  }

  /** n increments. */
  function Advance(rev: Int64, n: nat): Int64 {
    if n == 0 then rev else Next(Advance(rev, n - 1))
  }

  lemma {:induction false} AdvanceAdds(rev: Int64, n: nat)
    requires rev + n < 0x8000_0000_0000_0000
    ensures Advance(rev, n) == rev + n
  {
    if n > 0 {
      AdvanceAdds(rev, n - 1);
    }
  }

  datatype ValWithRev<V> = ValWithRev(val: V, rev: Int64)

  type History<V> = map<string, ValWithRev<V>>

  function Lookup<V>(h: History<V>, key: string): Option<ValWithRev<V>> {
    if key in h then Some(h[key]) else None
  }

  /** The revision that follows a stored one. */
  function Following<V>(prev: Option<ValWithRev<V>>): Int64 {
    if prev.Some? then Next(prev.value.rev) else 0
  }

  class PrevRevisions<V> {
    var revisions: History<V>

    constructor ()
      ensures revisions == map[]
    {
      revisions := map[];
    }

    /** prev_revisions.go:104-113. */
    method Get(key: string) returns (value: Option<ValWithRev<V>>)
      ensures value == Lookup(revisions, key)
    {
      value := if key in revisions then Some(revisions[key]) else None;
    }

    /** prev_revisions.go:57-75. */
    method Put(key: string, val: V) returns (prev: Option<ValWithRev<V>>, currRev: Int64)
      modifies this
      ensures prev == Lookup(old(revisions), key) && currRev == Following(prev)
      ensures revisions == old(revisions)[key := ValWithRev(val, currRev)]
    {
      prev := Get(key);
      if prev.Some? {
        currRev := Next(prev.value.rev);
      } else {
        currRev := 0;
      }
      revisions := revisions[key := ValWithRev(val, currRev)];
    }

    /** prev_revisions.go:78-91: a revision of zero counts as none given. */
    method PutWithRevision(key: string, val: V, rev: Int64) returns (prev: Option<ValWithRev<V>>)
      modifies this
      ensures prev == Lookup(old(revisions), key)
      ensures revisions == old(revisions)[key := ValWithRev(val, if rev != 0 then rev else Following(prev))]
    {
      prev := Get(key);
      var currentRev := rev;
      if currentRev == 0 && prev.Some? {
        currentRev := Next(prev.value.rev);
      }
      revisions := revisions[key := ValWithRev(val, currentRev)];
    }

    /** prev_revisions.go:94-102. */
    method Del(key: string) returns (prev: Option<ValWithRev<V>>)
      modifies this
      ensures prev == Lookup(old(revisions), key)
      ensures revisions == old(revisions) - {key}
    {
      prev := Get(key);
      if prev.Some? {
        revisions := revisions - {key};
      }
    }
  }

  // ---------------------------------------------------------------- the watcher of a key-value store

  /** An event of the store; whatever is not a delete is taken for a put. */
  datatype WatchResp<V> = WatchResp(delete: bool, key: string, value: V, rev: Int64)

  datatype ChangeWatchResp<V> = ChangeWatchResp(delegate: WatchResp<V>, prev: Option<V>)

  class WatchBrokerKeys<V> {
    const lastRev: PrevRevisions<V>
    var changeChan: seq<ChangeWatchResp<V>>  // what was sent

    /** The history is that of the adapter, which all its watchers share. */
    constructor (lastRev: PrevRevisions<V>)
      ensures this.lastRev == lastRev && changeChan == []
    {
      this.lastRev := lastRev;
      changeChan := [];
    }

    /** watch_impl.go:62-78. */
    method WatchChanges(x: WatchResp<V>)
      modifies this, lastRev
      ensures lastRev.revisions == After(old(lastRev.revisions), x)
      ensures changeChan == old(changeChan) + [ChangeWatchResp(x, ValueOf(Lookup(old(lastRev.revisions), x.key)))]
    {
      var prev;
      if x.delete {
        prev := lastRev.Del(x.key);
      } else {
        prev := lastRev.PutWithRevision(x.key, x.value, x.rev);
      }
      changeChan := changeChan + [ChangeWatchResp(x, if prev.Some? then Some(prev.value.val) else None)];
    }
  }

  function ValueOf<V>(p: Option<ValWithRev<V>>): Option<V> {
    if p.Some? then Some(p.value.val) else None
  }

  function After<V>(h: History<V>, x: WatchResp<V>): History<V> {
    if x.delete then h - {x.key}
    else h[x.key := ValWithRev(x.value, if x.rev != 0 then x.rev else Following(Lookup(h, x.key)))]
  }

  function HistoryAfter<V>(events: seq<WatchResp<V>>): History<V> {
    if events == [] then map[] else After(HistoryAfter(events[..|events| - 1]), events[|events| - 1])
  }

  /** The value of the last event on a key, unless there is none or it is a delete. */
  function PrecedingValue<V>(events: seq<WatchResp<V>>, key: string): Option<V> {
    if events == [] then None
    else
      var last := events[|events| - 1];
      if last.key != key then PrecedingValue(events[..|events| - 1], key)
      else if last.delete then None
      else Some(last.value)
  }

  lemma {:induction false} StoredIsPreceding<V>(events: seq<WatchResp<V>>, key: string)
    ensures ValueOf(Lookup(HistoryAfter(events), key)) == PrecedingValue(events, key)
  {
    if events != [] {
      StoredIsPreceding(events[..|events| - 1], key);
    }
  }

  /** What subscribers ought to get: every change once, in order, with the value of the preceding event on its key. */
  function SentOf<V>(events: seq<WatchResp<V>>): (r: seq<ChangeWatchResp<V>>)
    ensures |r| == |events|
  {
    if events == [] then []
    else
      var before, last := events[..|events| - 1], events[|events| - 1];
      SentOf(before) + [ChangeWatchResp(last, PrecedingValue(before, last.key))]
  }

  /** One watcher, alone with the history. */
  method WatchAll<V>(events: seq<WatchResp<V>>) returns (sent: seq<ChangeWatchResp<V>>, h: History<V>)
    ensures sent == SentOf(events) && h == HistoryAfter(events)
  {
    var lastRev := new PrevRevisions<V>();
    var keys := new WatchBrokerKeys<V>(lastRev);
    for i := 0 to |events|
      invariant fresh(keys) && fresh(keys.lastRev)
      invariant keys.lastRev.revisions == HistoryAfter(events[..i]) && keys.changeChan == SentOf(events[..i])
    {
      assert events[..i + 1][..i] == events[..i];
      StoredIsPreceding(events[..i], events[i].key);
      keys.WatchChanges(events[i]);
    }
    assert events[..|events|] == events;
    return keys.changeChan, keys.lastRev.revisions;
  }

  predicate PutOf<V>(x: WatchResp<V>, key: string) {
    x.key == key && !x.delete
  }

  function PutsOn<V>(events: seq<WatchResp<V>>, key: string): nat {
    if events == [] then 0
    else PutsOn(events[..|events| - 1], key) + if PutOf(events[|events| - 1], key) then 1 else 0
  }

  /** Event j settles the revision of a key: it brings one of its own, or is the first put since a delete. */
  predicate Settles<V>(events: seq<WatchResp<V>>, j: nat, key: string) {
    j < |events| && PutOf(events[j], key) && (events[j].rev != 0 || PrecedingValue(events[..j], key) == None)
  }

  /**
   The stored revision is the one last settled, zero for a first put without one, plus one for every
   put without a revision since.
   */
  lemma {:induction false} RevisionCountsPuts<V>(events: seq<WatchResp<V>>, j: nat, key: string)
    requires Settles(events, j, key)
    requires forall i :: j < i < |events| && events[i].key == key ==> !events[i].delete && events[i].rev == 0
    ensures var h := HistoryAfter(events);
      key in h && h[key].rev == Advance(events[j].rev, PutsOn(events[j + 1..], key))
    decreases |events|
  {
    var before, last := events[..|events| - 1], events[|events| - 1];
    if j == |events| - 1 {
      StoredIsPreceding(before, key);
    } else {
      assert events[..j] == before[..j];
      RevisionCountsPuts(before, j, key);
      assert events[j + 1..][..|events| - j - 2] == before[j + 1..];
    }
  }

  /** Every stored key has such an event, so its revision is determined for every stream. */
  lemma {:induction false} EveryRevisionIsSettled<V>(events: seq<WatchResp<V>>, key: string) returns (j: nat)
    requires key in HistoryAfter(events)
    ensures Settles(events, j, key)
    ensures forall i :: j < i < |events| && events[i].key == key ==> !events[i].delete && events[i].rev == 0
    ensures HistoryAfter(events)[key].rev == Advance(events[j].rev, PutsOn(events[j + 1..], key))
    decreases |events|
  {
    var before, last := events[..|events| - 1], events[|events| - 1];
    StoredIsPreceding(before, key);
    if last.key == key && (last.rev != 0 || key !in HistoryAfter(before)) {
      j := |events| - 1;
    } else {
      j := EveryRevisionIsSettled(before, key);
      assert before[..j] == events[..j];
    }
    RevisionCountsPuts(events, j, key);
  }

  // ---------------------------------------------------------------- propagating a transaction

  datatype Change<V> = Change(delete: bool, value: V)

  /** Prefix i of a subscription matches a key of the transaction. */
  datatype Match = Match(sub: string, i: nat, key: string)

  datatype ChangeEvent<V> =
    ChangeEvent(sub: string, key: string, change: Change<V>, curRev: Int64, prev: Option<ValWithRev<V>>)

  function Step<V>(h: History<V>, key: string, c: Change<V>): History<V> {
    if c.delete then h - {key} else h[key := ValWithRev(c.value, Following(Lookup(h, key)))]
  }

  function Emitted<V>(h: History<V>, m: Match, c: Change<V>): ChangeEvent<V> {
    var prev := Lookup(h, m.key);
    ChangeEvent(m.sub, m.key, c, Following(prev), prev)
  }

  /** The history after the given matches, taken in order. */
  function HistoryOf<V>(h: History<V>, txData: map<string, Change<V>>, order: seq<Match>): History<V>
    requires forall j :: 0 <= j < |order| ==> order[j].key in txData
  {
    if order == [] then h
    else
      var m := order[|order| - 1];
      Step(HistoryOf(h, txData, order[..|order| - 1]), m.key, txData[m.key])
  }

  function Times(order: seq<Match>, m: Match): nat {
    if order == [] then 0 else Times(order[..|order| - 1], m) + if order[|order| - 1] == m then 1 else 0
  }

  predicate IsMatch<V>(subs: map<string, seq<string>>, txData: map<string, Change<V>>, m: Match) {
    m.sub in subs && m.i < |subs[m.sub]| && m.key in txData && subs[m.sub][m.i] <= m.key
  }

  /** A match of prefix i of a subscription. */
  predicate IsPrefixMatch<V>(txData: map<string, Change<V>>, sub: string, i: nat, prefix: string, m: Match) {
    m.sub == sub && m.i == i && m.key in txData && prefix <= m.key
  }

  /** Every match occurs once in the order, and nothing else does. */
  ghost predicate AllMatchesOnce<V>(subs: map<string, seq<string>>, txData: map<string, Change<V>>, order: seq<Match>) {
    forall x :: Times(order, x) == (if IsMatch(subs, txData, x) then 1 else 0)
  }

  /** The events of the given matches, each on the history that the matches before it leave. */
  function EventsOf<V>(h: History<V>, txData: map<string, Change<V>>, order: seq<Match>): (r: seq<ChangeEvent<V>>)
    requires forall j :: 0 <= j < |order| ==> order[j].key in txData
    ensures |r| == |order|
  {
    if order == [] then []
    else
      var before, m := order[..|order| - 1], order[|order| - 1];
      EventsOf(h, txData, before) + [Emitted(HistoryOf(h, txData, before), m, txData[m.key])]
  }

  class Registry<V> {
    var subscriptions: map<string, seq<string>>  // the key prefixes of each
    const lastRev: PrevRevisions<V>

    constructor (subscriptions: map<string, seq<string>>)
      ensures this.subscriptions == subscriptions && fresh(lastRev) && lastRev.revisions == map[]
    {
      this.subscriptions := subscriptions;
      lastRev := new PrevRevisions();
    }

    /** What the matches handled so far, in the order they were, gave and left. */
    ghost predicate Accounts(
        events: seq<ChangeEvent<V>>, h: History<V>, txData: map<string, Change<V>>, order: seq<Match>)
      reads lastRev
    {
      && (forall j :: 0 <= j < |order| ==> order[j].key in txData)
      && events == EventsOf(h, txData, order)
      && lastRev.revisions == HistoryOf(h, txData, order)
    }

    /** watcher.go:159-177, for one key that has the prefix. */
    method Propagate(txData: map<string, Change<V>>, m: Match, events0: seq<ChangeEvent<V>>,
                     ghost h: History<V>, ghost order: seq<Match>)
      returns (events: seq<ChangeEvent<V>>)
      requires Accounts(events0, h, txData, order) && m.key in txData
      modifies lastRev
      ensures Accounts(events, h, txData, order + [m])
      ensures forall x :: Times(order + [m], x) == Times(order, x) + if x == m then 1 else 0
    {
      var val := txData[m.key];
      var prev;
      var curRev: Int64 := 0;
      if val.delete {
        prev := lastRev.Del(m.key);
        if prev.Some? {
          curRev := Next(prev.value.rev);
        }
      } else {
        prev, curRev := lastRev.Put(m.key, val.value);
      }
      events := events0 + [ChangeEvent(m.sub, m.key, val, curRev, prev)];
      assert (order + [m])[..|order|] == order;
    }

    /** watcher.go:157-179: the loop over the transaction for one prefix. */
    method PropagatePrefix(txData: map<string, Change<V>>, sub: string, i: nat, prefix: string,
                           events0: seq<ChangeEvent<V>>, ghost h: History<V>, ghost order0: seq<Match>)
      returns (events: seq<ChangeEvent<V>>, ghost order: seq<Match>)
      requires Accounts(events0, h, txData, order0)
      modifies lastRev
      ensures Accounts(events, h, txData, order)
      ensures forall x ::
        Times(order, x) == Times(order0, x) + if IsPrefixMatch(txData, sub, i, prefix, x) then 1 else 0
    {
      events, order := events0, order0;
      var left := txData.Keys;
      while left != {}
        invariant left <= txData.Keys && Accounts(events, h, txData, order)
        invariant forall x ::
          Times(order, x) == Times(order0, x) +
          if IsPrefixMatch(txData, sub, i, prefix, x) && x.key !in left then 1 else 0
      {
        var key :| key in left;
        left := left - {key};
        if prefix <= key {
          events := Propagate(txData, Match(sub, i, key), events, h, order);
          order := order + [Match(sub, i, key)];
        }
      }
    }

    /** watcher.go:156-180: the loop over the prefixes of one subscription. */
    method PropagateSubscription(txData: map<string, Change<V>>, sub: string, prefixes: seq<string>,
                                 events0: seq<ChangeEvent<V>>, ghost h: History<V>, ghost order0: seq<Match>)
      returns (events: seq<ChangeEvent<V>>, ghost order: seq<Match>)
      requires Accounts(events0, h, txData, order0)
      modifies lastRev
      ensures Accounts(events, h, txData, order)
      ensures forall x ::
        Times(order, x) == Times(order0, x) +
        if x.i < |prefixes| && IsPrefixMatch(txData, sub, x.i, prefixes[x.i], x) then 1 else 0
    {
      events, order := events0, order0;
      for i := 0 to |prefixes|
        invariant Accounts(events, h, txData, order)
        invariant forall x ::
          Times(order, x) == Times(order0, x) +
          if x.i < i && IsPrefixMatch(txData, sub, x.i, prefixes[x.i], x) then 1 else 0
      {
        events, order := PropagatePrefix(txData, sub, i, prefixes[i], events, h, order);
      }
    }

    /**
     watcher.go:152-180.  The events are those of some order of the matches, in which every match of a
     prefix with a key occurs once and nothing else does.  Those of a key are all right exactly if at most
     one registered prefix is a prefix of it, or it is a delete of something that is not stored.
     */
    method PropagateChanges(txData: map<string, Change<V>>)
      returns (events: seq<ChangeEvent<V>>, ghost order: seq<Match>)
      modifies lastRev
      ensures Accounts(events, old(lastRev.revisions), txData, order)
      ensures AllMatchesOnce(subscriptions, txData, order)
      ensures forall key :: key in txData ==>
        (AllRight(old(lastRev.revisions), events, key) <==>
         WatchedOnce(subscriptions, key) || (txData[key].delete && key !in old(lastRev.revisions)))
    {
      ghost var h := lastRev.revisions;
      events, order := [], [];
      var left := subscriptions.Keys;
      while left != {}
        invariant left <= subscriptions.Keys && Accounts(events, h, txData, order)
        invariant forall x :: Times(order, x) == (if IsMatch(subscriptions, txData, x) && x.sub !in left then 1 else 0)
      {
        var sub :| sub in left;
        left := left - {sub};
        events, order := PropagateSubscription(txData, sub, subscriptions[sub], events, h, order);
      }
      forall key | key in txData
        ensures AllRight(h, events, key) <==> WatchedOnce(subscriptions, key) || (txData[key].delete && key !in h)
      {
        EventsRightIff(h, subscriptions, txData, order, key);
      }
    }
  }

  // ---------------------------------------------------------------- what an event says

  function MatchesOn(order: seq<Match>, key: string): nat {
    if order == [] then 0
    else MatchesOn(order[..|order| - 1], key) + if order[|order| - 1].key == key then 1 else 0
  }

  /**
   A key that is put is put once per match: after n matches its revision is n - 1 further than the
   one that follows the stored one.
   */
  lemma {:induction false} EveryMatchBumps<V>(
      h: History<V>, txData: map<string, Change<V>>, order: seq<Match>, key: string)
    requires forall j :: 0 <= j < |order| ==> order[j].key in txData
    requires key in txData && !txData[key].delete
    ensures var n, after := MatchesOn(order, key), HistoryOf(h, txData, order);
      if n == 0 then Lookup(after, key) == Lookup(h, key)
      else key in after && after[key] == ValWithRev(txData[key].value, Advance(Following(Lookup(h, key)), n - 1))
  {
    if order != [] {
      EveryMatchBumps(h, txData, order[..|order| - 1], key);
    }
  }

  /** A key that is deleted is known to its first match alone: later ones find nothing stored. */
  lemma {:induction false} FirstMatchDeletes<V>(
      h: History<V>, txData: map<string, Change<V>>, order: seq<Match>, key: string)
    requires forall j :: 0 <= j < |order| ==> order[j].key in txData
    requires key in txData && txData[key].delete
    ensures Lookup(HistoryOf(h, txData, order), key) == if MatchesOn(order, key) == 0 then Lookup(h, key) else None
  {
    if order != [] {
      FirstMatchDeletes(h, txData, order[..|order| - 1], key);
    }
  }

  lemma {:induction false} EventAt<V>(h: History<V>, txData: map<string, Change<V>>, order: seq<Match>, j: nat)
    requires forall j :: 0 <= j < |order| ==> order[j].key in txData
    requires j < |order|
    ensures EventsOf(h, txData, order)[j] == Emitted(HistoryOf(h, txData, order[..j]), order[j], txData[order[j].key])
  {
    var before := order[..|order| - 1];
    if j < |before| {
      EventAt(h, txData, before, j);
      assert before[..j] == order[..j];
    }
  }

  /**
   The event of the n-th match of a key that is put carries revision n - 1 further than the one after
   the stored one; every event of a deleted key but the first has no previous value.
   */
  lemma {:induction false} EventOfMatch<V>(h: History<V>, txData: map<string, Change<V>>, order: seq<Match>, j: nat)
    requires forall j :: 0 <= j < |order| ==> order[j].key in txData
    requires j < |order|
    ensures var event, key, earlier := EventsOf(h, txData, order)[j], order[j].key, MatchesOn(order[..j], order[j].key);
      && event.sub == order[j].sub && event.key == key && event.change == txData[key]
      && (earlier == 0 ==> event.prev == Lookup(h, key) && event.curRev == Following(event.prev))
      && (earlier > 0 && txData[key].delete ==> event.prev == None && event.curRev == 0)
      && (earlier > 0 && !txData[key].delete ==>
            && event.curRev == Advance(Following(Lookup(h, key)), earlier)
            && ValueOf(event.prev) == Some(txData[key].value))
  {
    EventAt(h, txData, order, j);
    if txData[order[j].key].delete {
      FirstMatchDeletes(h, txData, order[..j], order[j].key);
    } else {
      EveryMatchBumps(h, txData, order[..j], order[j].key);
    }
  }

  // ---------------------------------------------------------------- when every event is right

  predicate Watches(subs: map<string, seq<string>>, sub: string, i: nat, key: string) {
    sub in subs && i < |subs[sub]| && subs[sub][i] <= key
  }

  /** Of all prefixes of all subscriptions, at most one is a prefix of the key. */
  ghost predicate WatchedOnce(subs: map<string, seq<string>>, key: string) {
    forall s1, i1, s2, i2 :: Watches(subs, s1, i1, key) && Watches(subs, s2, i2, key) ==> s1 == s2 && i1 == i2
  }

  lemma {:induction false} TimesCounts(order: seq<Match>, x: Match)
    ensures Times(order, x) > 0 <==> x in order
    ensures Times(order, x) <= MatchesOn(order, x.key)
  {
    if order != [] {
      TimesCounts(order[..|order| - 1], x);
      assert order == order[..|order| - 1] + [order[|order| - 1]];
    }
  }

  lemma {:induction false} TwoMatchesCount(order: seq<Match>, x: Match, y: Match)
    requires x != y && x.key == y.key
    ensures Times(order, x) + Times(order, y) <= MatchesOn(order, x.key)
  {
    if order != [] {
      TwoMatchesCount(order[..|order| - 1], x, y);
    }
  }

  lemma {:induction false} SomeMatch(order: seq<Match>, key: string) returns (x: Match)
    requires MatchesOn(order, key) > 0
    ensures x in order && x.key == key
  {
    var last := order[|order| - 1];
    if last.key == key {
      x := last;
    } else {
      x := SomeMatch(order[..|order| - 1], key);
    }
  }

  /** More than one match of a key: either one that occurs twice, or two. */
  lemma {:induction false} SecondMatch(order: seq<Match>, key: string) returns (x: Match, y: Match)
    requires MatchesOn(order, key) > 1
    ensures x.key == y.key == key
    ensures if x == y then Times(order, x) > 1 else x in order && y in order
  {
    var before, last := order[..|order| - 1], order[|order| - 1];
    if last.key == key {
      x := last;
      y := SomeMatch(before, key);
      TimesCounts(before, y);
    } else {
      x, y := SecondMatch(before, key);
    }
  }

  /** A key has at most one event if and only if at most one registered prefix is a prefix of it. */
  lemma {:induction false} OneEventIffWatchedOnce<V>(
      subs: map<string, seq<string>>, txData: map<string, Change<V>>, order: seq<Match>, key: string)
    requires AllMatchesOnce(subs, txData, order) && key in txData
    ensures MatchesOn(order, key) <= 1 <==> WatchedOnce(subs, key)
  {
    if MatchesOn(order, key) > 1 {
      var x, y := SecondMatch(order, key);
      TimesCounts(order, x);
      TimesCounts(order, y);
      assert Watches(subs, x.sub, x.i, key) && Watches(subs, y.sub, y.i, key);
    } else {
      forall s1, i1, s2, i2 | Watches(subs, s1, i1, key) && Watches(subs, s2, i2, key)
        ensures s1 == s2 && i1 == i2
      {
        var x, y := Match(s1, i1, key), Match(s2, i2, key);
        assert IsMatch(subs, txData, x) && IsMatch(subs, txData, y);
        if x != y {
          TwoMatchesCount(order, x, y);
        }
      }
    }
  }

  /** The event says what was stored before the transaction, and the revision that follows it. */
  ghost predicate IsRight<V>(h: History<V>, event: ChangeEvent<V>) {
    event.prev == Lookup(h, event.key) && event.curRev == Following(Lookup(h, event.key))
  }

  ghost predicate AllRight<V>(h: History<V>, events: seq<ChangeEvent<V>>, key: string) {
    forall j :: 0 <= j < |events| && events[j].key == key ==> IsRight(h, events[j])
  }

  lemma {:induction false} SecondEvent(order: seq<Match>, key: string) returns (j: nat)
    requires MatchesOn(order, key) > 1
    ensures j < |order| && order[j].key == key && MatchesOn(order[..j], key) == 1
  {
    var before := order[..|order| - 1];
    if MatchesOn(before, key) == 1 {
      j := |order| - 1;
    } else {
      j := SecondEvent(before, key);
      assert before[..j] == order[..j];
    }
  }

  lemma {:induction false} EarlierMatches(order: seq<Match>, j: nat)
    requires j < |order|
    ensures MatchesOn(order[..j], order[j].key) < MatchesOn(order, order[j].key)
  {
    var before := order[..|order| - 1];
    if j < |before| {
      assert before[..j] == order[..j];
      EarlierMatches(before, j);
    }
  }

  /**
   Every event of a key is right if and only if at most one registered prefix is a prefix of it, or it
   is a delete of something that is not stored.
   */
  lemma {:induction false} EventsRightIff<V>(
      h: History<V>, subs: map<string, seq<string>>, txData: map<string, Change<V>>, order: seq<Match>, key: string)
    requires forall j :: 0 <= j < |order| ==> order[j].key in txData
    requires AllMatchesOnce(subs, txData, order) && key in txData
    ensures var events := EventsOf(h, txData, order);
      AllRight(h, events, key) <==> WatchedOnce(subs, key) || (txData[key].delete && key !in h)
  {
    var events := EventsOf(h, txData, order);
    OneEventIffWatchedOnce(subs, txData, order, key);
    if MatchesOn(order, key) <= 1 || (txData[key].delete && key !in h) {
      forall j | 0 <= j < |events| && events[j].key == key
        ensures IsRight(h, events[j])
      {
        EventOfMatch(h, txData, order, j);
        EarlierMatches(order, j);
      }
    } else {
      var j := SecondEvent(order, key);
      EventOfMatch(h, txData, order, j);
      assert Advance(Following(Lookup(h, key)), 1) == Next(Following(Lookup(h, key)));
      assert events[j].key == key && !IsRight(h, events[j]);
    }
  }
}

/**
 datasync/syncbase/done.go: a transaction fires its events one by one; each receiver acknowledges
 into a shared channel of five places with a send that does not wait; a collector counts the
 acknowledgements and then reports once.  All interleavings are considered.
 */
module DoneAggregation {
  import opened Wrappers

  /** An acknowledgement: nil or an error.  The number of its event is there for the proof only. */
  datatype Ack = Ack(event: nat, err: Option<string>)

  const CAPACITY := 5

  datatype State = State(
    n: nat,                         // len(events)
    fired: nat,                     // events fired so far, in order
    acked: map<nat, Option<string>>,  // events acknowledged so far, and how
    partialDone: seq<Ack>,          // the buffer of the channel
    collected: seq<Ack>,            // what the collector has received
    dropped: nat,                   // acknowledgements that found the buffer full
    done: seq<Option<string>>       // messages sent to done
  )

  datatype Step = Fire | Acknowledge(ack: Ack) | Collect | Report

  function Init(n: nat): State {
    State(n, 0, map[], [], [], 0, [])
  }

  /** The last error among the acknowledgements, if any. */
  function LastError(acks: seq<Ack>): Option<string> {
    if acks == [] then None
    else if acks[|acks| - 1].err.Some? then acks[|acks| - 1].err
    else LastError(acks[..|acks| - 1])
  }

  predicate Enabled(s: State, step: Step) {
    match step
    case Fire => s.fired < s.n
    case Acknowledge(ack) => ack.event < s.fired && ack.event !in s.acked  // an event is acknowledged at most once
    case Collect => s.done == [] && |s.collected| < s.n && s.partialDone != []
    case Report => s.done == [] && |s.collected| >= s.n
  }

  function Taken(s: State, step: Step): State
    requires Enabled(s, step)
  {
    match step
    case Fire => s.(fired := s.fired + 1)
    case Acknowledge(ack) =>
      var s' := s.(acked := s.acked[ack.event := ack.err]);
      if |s.partialDone| < CAPACITY then s'.(partialDone := s.partialDone + [ack]) else s'.(dropped := s.dropped + 1)
    case Collect => s.(collected := s.collected + [s.partialDone[0]], partialDone := s.partialDone[1..])
    case Report => s.(done := [LastError(s.collected)])
  }

  ghost predicate Possible(s: State, steps: seq<Step>)
    decreases |steps|
  {
    steps == [] || (Enabled(s, steps[0]) && Possible(Taken(s, steps[0]), steps[1..]))
  }

  ghost function Final(s: State, steps: seq<Step>): State
    requires Possible(s, steps)
    decreases |steps|
  {
    if steps == [] then s else Final(Taken(s, steps[0]), steps[1..])
  }

  /** The state can come about in some interleaving for n events. */
  ghost predicate Reachable(s: State, n: nat) {
    exists steps :: Possible(Init(n), steps) && Final(Init(n), steps) == s
  }

  // ---------------------------------------------------------------- what every step keeps

  /** What was acknowledged and not lost, oldest first. */
  function Received(s: State): seq<Ack> {
    s.collected + s.partialDone
  }

  /** Each acknowledgement is of another event, and as that event was acknowledged. */
  ghost predicate RecordedOnce(acks: seq<Ack>, acked: map<nat, Option<string>>) {
    && (forall k :: 0 <= k < |acks| ==> acks[k].event in acked && acked[acks[k].event] == acks[k].err)
    && (forall j, k :: 0 <= j < k < |acks| ==> acks[j].event != acks[k].event)
  }

  ghost predicate Inv(s: State) {
    && s.fired <= s.n
    && (forall i :: i in s.acked ==> i < s.fired)
    && |s.acked| == |s.collected| + |s.partialDone| + s.dropped
    && |s.partialDone| <= CAPACITY && |s.collected| <= s.n
    && RecordedOnce(Received(s), s.acked)
    && (s.done != [] ==> |s.collected| == s.n && s.done == [LastError(s.collected)])
  }

  lemma {:induction false} AckedFits(s: State)
    requires forall i :: i in s.acked ==> i < s.fired
    ensures |s.acked| <= s.fired
  {
    SubsetSize(s.acked.Keys, s.fired);
  }

  function Below(n: nat): (r: set<nat>)
    ensures forall i: nat :: i in r <==> i < n
  {
    if n == 0 then {} else Below(n - 1) + {n - 1}
  }

  lemma {:induction false} BelowSize(n: nat)
    ensures |Below(n)| == n
  {
    if n > 0 {
      BelowSize(n - 1);
    }
  }

  lemma {:induction false} SubsetSize(s: set<nat>, n: nat)
    requires forall i :: i in s ==> i < n
    ensures |s| <= n
    ensures |s| == n ==> s == Below(n)
  {
    BelowSize(n);
    assert s <= Below(n);
    assert |Below(n) - s| == |Below(n)| - |s|;
  }

  lemma {:induction false} RecordOne(acks: seq<Ack>, acked: map<nat, Option<string>>, ack: Ack)
    requires RecordedOnce(acks, acked) && ack.event !in acked
    ensures RecordedOnce(acks, acked[ack.event := ack.err])
    ensures RecordedOnce(acks + [ack], acked[ack.event := ack.err])
    ensures |acked[ack.event := ack.err]| == |acked| + 1
  {
  }

  lemma {:induction false} StepKeepsInv(s: State, step: Step)
    requires Inv(s) && Enabled(s, step)
    ensures Inv(Taken(s, step)) && Taken(s, step).n == s.n
  {
    var s' := Taken(s, step);
    if step.Acknowledge? {
      RecordOne(Received(s), s.acked, step.ack);
      if |s.partialDone| < CAPACITY {
        assert Received(s') == Received(s) + [step.ack];
      } else {
        assert Received(s') == Received(s);
      }
    } else if step.Collect? {
      assert Received(s') == Received(s);
    }
  }

  lemma {:induction false} RunKeepsInv(s: State, steps: seq<Step>)
    requires Inv(s) && Possible(s, steps)
    ensures Inv(Final(s, steps)) && Final(s, steps).n == s.n
    decreases |steps|
  {
    if steps != [] {
      StepKeepsInv(s, steps[0]);
      RunKeepsInv(Taken(s, steps[0]), steps[1..]);
    }
  }

  lemma {:induction false} ReachableHasInv(s: State, n: nat)
    requires Reachable(s, n)
    ensures Inv(s) && s.n == n
  {
    var steps :| Possible(Init(n), steps) && Final(Init(n), steps) == s;
    RunKeepsInv(Init(n), steps);
  }

  // ---------------------------------------------------------------- the collector

  lemma {:induction false} LastErrorNilIffAllNil(acks: seq<Ack>)
    ensures LastError(acks) == None <==> forall k :: 0 <= k < |acks| ==> acks[k].err == None
  {
    if acks != [] {
      LastErrorNilIffAllNil(acks[..|acks| - 1]);
      assert forall k :: 0 <= k < |acks| - 1 ==> acks[..|acks| - 1][k] == acks[k];
    }
  }

  /** The value is an error, and of the last acknowledgement that has one; or it is nil and so are all of them. */
  ghost predicate IsLastError(err: Option<string>, acks: seq<Ack>) {
    if err == None then forall k :: 0 <= k < |acks| ==> acks[k].err == None
    else exists k :: LastErrorAt(err, acks, k)
  }

  predicate LastErrorAt(err: Option<string>, acks: seq<Ack>, k: int) {
    0 <= k < |acks| && acks[k].err == err && forall j :: k < j < |acks| ==> acks[j].err == None
  }

  lemma {:induction false} LastErrorIsLast(acks: seq<Ack>)
    ensures IsLastError(LastError(acks), acks)
  {
    LastErrorNilIffAllNil(acks);
    if LastError(acks).Some? {
      var n := |acks| - 1;
      if acks[n].err == None {
        LastErrorIsLast(acks[..n]);
        var k :| LastErrorAt(LastError(acks), acks[..n], k);
        assert forall j :: 0 <= j < n ==> acks[..n][j] == acks[j];
        assert LastErrorAt(LastError(acks), acks, k);
      } else {
        assert LastErrorAt(LastError(acks), acks, n);
      }
    }
  }

  /** done.go:71-89.  incoming is what the channel delivers; the loop counts receipts until there are evCount. */
  method CollectDoneEvents(incoming: seq<Ack>, evCount: nat) returns (lastError: Option<string>)
    requires evCount <= |incoming|
    ensures lastError == LastError(incoming[..evCount])
    ensures lastError == None <==> forall k :: 0 <= k < evCount ==> incoming[k].err == None
    ensures IsLastError(lastError, incoming[..evCount])
  {
    lastError := None;
    if evCount > 0 {
      var numDone := 0;
      while true
        invariant numDone < evCount && lastError == LastError(incoming[..numDone])
        decreases evCount - numDone
      {
        var doneEv := incoming[numDone];
        assert incoming[..numDone + 1][..numDone] == incoming[..numDone];
        numDone := numDone + 1;
        if doneEv.err.Some? {
          lastError := doneEv.err;
        }
        if numDone >= evCount {
          break;
        }
      }
    }
    LastErrorNilIffAllNil(incoming[..evCount]);
    LastErrorIsLast(incoming[..evCount]);
    assert forall k :: 0 <= k < evCount ==> incoming[..evCount][k] == incoming[k];
  }

  // ---------------------------------------------------------------- main results

  ghost function Events(acks: seq<Ack>): set<nat> {
    set k | 0 <= k < |acks| :: acks[k].event
  }

  lemma {:induction false} DistinctEventsCount(acks: seq<Ack>)
    requires forall j, k :: 0 <= j < k < |acks| ==> acks[j].event != acks[k].event
    ensures |Events(acks)| == |acks|
  {
    if acks != [] {
      var init, last := acks[..|acks| - 1], acks[|acks| - 1];
      DistinctEventsCount(init);
      assert Events(acks) == Events(init) + {last.event};
      assert last.event !in Events(init);
    }
  }

  /**
   In every interleaving done gets at most one message; when it has one, all n events were
   acknowledged, every acknowledgement was collected, and the message is nil exactly when all of
   them were nil.
   */
  lemma {:induction false} ReportIsRight(s: State, n: nat)
    requires Reachable(s, n)
    ensures |s.done| <= 1
    ensures s.done != [] ==>
      && |s.collected| == n && s.dropped == 0 && s.acked.Keys == Below(n)
      && (s.done[0] == None <==> forall i :: 0 <= i < n ==> s.acked[i] == None)
      && (s.done[0].Some? ==> s.done[0] in s.acked.Values)
  {
    ReachableHasInv(s, n);
    if s.done != [] {
      AckedFits(s);
      SubsetSize(s.acked.Keys, n);
      assert s.partialDone == [] && Received(s) == s.collected;
      DistinctEventsCount(s.collected);
      SubsetSize(Events(s.collected), n);
      LastErrorNilIffAllNil(s.collected);
      LastErrorIsLast(s.collected);
      if s.done[0] == None {
        forall i | 0 <= i < n
          ensures s.acked[i] == None
        {
          assert i in Events(s.collected);
          var k :| 0 <= k < |s.collected| && s.collected[k].event == i;
          assert Received(s)[k] == s.collected[k];
        }
      }
    }
  }

  /** The acknowledgements of a run, in the order in which they were sent. */
  ghost function Acks(steps: seq<Step>): seq<Ack> {
    if steps == [] then []
    else (if steps[0].Acknowledge? then [steps[0].ack] else []) + Acks(steps[1..])
  }

  /** One step appends its acknowledgement, or loses it, and leaves the order of the others. */
  lemma {:induction false} StepAppends(s: State, step: Step)
    requires Enabled(s, step)
    ensures var next := Taken(s, step);
      next.dropped > s.dropped ||
      (next.dropped == s.dropped && Received(next) == Received(s) + if step.Acknowledge? then [step.ack] else [])
  {
    if step.Collect? {
      assert s.partialDone == [s.partialDone[0]] + s.partialDone[1..];
    }
  }

  /** As long as none is lost they arrive in the order in which they were sent. */
  lemma {:induction false} ReceivedInOrder(s: State, steps: seq<Step>)
    requires Possible(s, steps)
    ensures Final(s, steps).dropped >= s.dropped
    ensures Final(s, steps).dropped == s.dropped ==> Received(Final(s, steps)) == Received(s) + Acks(steps)
    decreases |steps|
  {
    if steps != [] {
      StepAppends(s, steps[0]);
      ReceivedInOrder(Taken(s, steps[0]), steps[1..]);
    } else {
      assert Received(s) + [] == Received(s);
    }
  }

  /** What is reported is the error of the acknowledgement that was sent last among those with an error. */
  lemma {:induction false} LastSentErrorIsReported(n: nat, steps: seq<Step>)
    requires Possible(Init(n), steps) && Final(Init(n), steps).done != []
    ensures |Acks(steps)| == n && IsLastError(Final(Init(n), steps).done[0], Acks(steps))
  {
    var s := Final(Init(n), steps);
    assert Reachable(s, n);
    ReportIsRight(s, n);
    ReachableHasInv(s, n);
    AckedFits(s);
    ReceivedInOrder(Init(n), steps);
    assert s.partialDone == [] && Received(s) == s.collected == Acks(steps);
    LastErrorIsLast(s.collected);
  }

  /** Once an acknowledgement is lost, done never gets a message: whoever waits for it runs into the timeout. */
  lemma {:induction false} LostAckIsNeverReported(s: State, n: nat)
    requires Reachable(s, n) && s.dropped > 0
    ensures s.done == [] && |s.collected| < n
  {
    ReachableHasInv(s, n);
    AckedFits(s);
  }

  /** Without a loss the collector cannot get stuck: with all events acknowledged it can go on until it has reported. */
  lemma {:induction false} CollectorProceeds(s: State, n: nat)
    requires Reachable(s, n) && s.dropped == 0 && s.acked.Keys == Below(n) && s.done == []
    ensures if |s.collected| < n then Enabled(s, Collect) && |Taken(s, Collect).collected| == |s.collected| + 1
            else Enabled(s, Report) && |Taken(s, Report).done| == 1
  {
    ReachableHasInv(s, n);
    BelowSize(n);
  }

  lemma {:induction false} SmallTransactionsLoseNothing(s: State, n: nat)
    requires Reachable(s, n) && n <= CAPACITY
    ensures s.dropped == 0
  {
    var steps :| Possible(Init(n), steps) && Final(Init(n), steps) == s;
    NoDropWithin(Init(n), steps);
  }

  lemma {:induction false} NoDropWithin(s: State, steps: seq<Step>)
    requires Inv(s) && s.n <= CAPACITY && s.dropped == 0 && Possible(s, steps)
    ensures Final(s, steps).dropped == 0
    decreases |steps|
  {
    if steps != [] {
      StepKeepsInv(s, steps[0]);
      if steps[0].Acknowledge? {
        AckedFits(Taken(s, steps[0]));
        assert Taken(s, steps[0]).acked.Keys == s.acked.Keys + {steps[0].ack.event};
      }
      NoDropWithin(Taken(s, steps[0]), steps[1..]);
    }
  }

  /** Six events fired and acknowledged before the collector runs. */
  lemma {:induction false} SixAcksOverflow(n: nat)
    requires n > CAPACITY
    ensures exists s :: Reachable(s, n) && s.dropped > 0
  {
    var s := Init(n);
    ghost var steps := FireAll(s, 6);
    var s6 := s.(fired := 6);
    ghost var acks := AckFrom(s6, 0);
    PossibleThen(s, steps, acks);
  }

  lemma {:induction false} FireAll(s: State, k: nat) returns (steps: seq<Step>)
    requires s.fired + k <= s.n
    ensures Possible(s, steps) && Final(s, steps) == s.(fired := s.fired + k)
    decreases k
  {
    if k == 0 {
      steps := [];
    } else {
      var rest := FireAll(Taken(s, Fire), k - 1);
      steps := [Fire] + rest;
      assert steps[1..] == rest;
    }
  }

  lemma {:induction false} AckFrom(s: State, i: nat) returns (steps: seq<Step>)
    requires s.fired == 6 && i <= 5 && |s.partialDone| == i && forall k :: k in s.acked ==> k < i
    ensures Possible(s, steps) && Final(s, steps).dropped > 0
    decreases 5 - i
  {
    var step := Acknowledge(Ack(i, None));
    if i == 5 {
      steps := [step];
      assert steps[1..] == [];
    } else {
      var rest := AckFrom(Taken(s, step), i + 1);
      steps := [step] + rest;
      assert steps[1..] == rest;
    }
  }

  lemma {:induction false} PossibleThen(s: State, a: seq<Step>, b: seq<Step>)
    requires Possible(s, a) && Possible(Final(s, a), b)
    ensures Possible(s, a + b) && Final(s, a + b) == Final(Final(s, a), b)
    decreases |a|
  {
    if a == [] {
      assert a + b == b;
    } else {
      PossibleThen(Taken(s, a[0]), a[1..], b);
      assert (a + b)[1..] == a[1..] + b;
    }
  }

  /** The non-waiting acknowledgement can be lost exactly when there are more events than places in the buffer. */
  lemma {:induction false} LossPossibleIffMoreThanCapacity(n: nat)
    ensures (exists s :: Reachable(s, n) && s.dropped > 0) <==> n > CAPACITY
  {
    if n > CAPACITY {
      SixAcksOverflow(n);
    } else {
      forall s | Reachable(s, n)
        ensures s.dropped == 0
      {
        SmallTransactionsLoseNothing(s, n);
      }
    }
  }
}

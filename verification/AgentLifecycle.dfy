/**
 core/agent_core.go and core/event_loop.go: the calls that starting, running and stopping an agent
 makes to its plugins.  The startup timeout is taken not to expire.
 */
module AgentLifecycle {
  import opened Wrappers

  /**
   A listed plugin: its name, whether it implements AfterInit, and whether safeclose gets to call
   Close on its value, which it does not if that is a plain struct (utils/safeclose/safeclose.go:37
   panics and recovers) or a nil pointer.
   */
  datatype NamedPlugin = NamedPlugin(name: string, postInit: bool, closable: bool)

  /** What the methods of plugin i return when they are called. */
  datatype Outcomes = Outcomes(
    init: nat -> Option<string>, afterInit: nat -> Option<string>, close: nat -> Option<string>)

  datatype Call = Init(i: nat) | AfterInit(i: nat) | Close(i: nat)

  /** What a method of plugin i returned. */
  datatype PluginError =
    | InitFailed(i: nat, msg: string)
    | AfterInitFailed(i: nat, msg: string)
    | CloseFailed(i: nat, msg: string)

  /** What the agent returns: an error of a plugin as it is, one formatted into a new error, or a joined one. */
  datatype Error =
    | AsIs(error: PluginError)
    | Wrapped(error: PluginError)
    | StopFailed(failed: seq<nat>)  // the plugins named in the joined message

  // ---------------------------------------------------------------- the expected calls

  /** The first plugin from i on whose Init fails, or the number of plugins. */
  function FailingInit(n: nat, out: Outcomes, i: nat): (k: nat)
    requires i <= n
    ensures i <= k <= n && (k < n ==> out.init(k).Some?)
    ensures forall j :: i <= j < k ==> out.init(j) == None
    decreases n - i
  {
    if i == n || out.init(i).Some? then i else FailingInit(n, out, i + 1)
  }

  /** The first plugin from i on whose AfterInit is called and fails, or the number of plugins. */
  function FailingAfterInit(plugins: seq<NamedPlugin>, out: Outcomes, i: nat): (k: nat)
    requires i <= |plugins|
    ensures i <= k <= |plugins| && (k < |plugins| ==> plugins[k].postInit && out.afterInit(k).Some?)
    ensures forall j :: i <= j < k && plugins[j].postInit ==> out.afterInit(j) == None
    decreases |plugins| - i
  {
    if i == |plugins| || (plugins[i].postInit && out.afterInit(i).Some?) then i
    else FailingAfterInit(plugins, out, i + 1)
  }

  /** Init of plugins 0 to k - 1 in order. */
  function Inits(k: nat): seq<Call> {
    if k == 0 then [] else Inits(k - 1) + [Init(k - 1)]
  }

  /** AfterInit of those among plugins 0 to k - 1 that have it, in order. */
  function AfterInits(plugins: seq<NamedPlugin>, k: nat): seq<Call>
    requires k <= |plugins|
  {
    if k == 0 then []
    else if plugins[k - 1].postInit then AfterInits(plugins, k - 1) + [AfterInit(k - 1)]
    else AfterInits(plugins, k - 1)
  }

  /** Close of plugins k - 1 down to 0, of all or of those whose Close can be reached. */
  function Closes(plugins: seq<NamedPlugin>, k: nat, all: bool): seq<Call>
    requires k <= |plugins|
  {
    if k == 0 then [] else (if all || plugins[k - 1].closable then [Close(k - 1)] else []) + Closes(plugins, k - 1, all)
  }

  /** The calls of the Init round: up to the first failure, after which every plugin is closed. */
  function InitRound(plugins: seq<NamedPlugin>, out: Outcomes): seq<Call> {
    var n, k := |plugins|, FailingInit(|plugins|, out, 0);
    if k == n then Inits(n) else Inits(k + 1) + Closes(plugins, n, true)
  }

  /** The calls of the AfterInit round: up to the first failure, after which the agent is stopped. */
  function AfterInitRound(plugins: seq<NamedPlugin>, out: Outcomes): seq<Call> {
    var n, m := |plugins|, FailingAfterInit(plugins, out, 0);
    if m == n then AfterInits(plugins, n) else AfterInits(plugins, m + 1) + Closes(plugins, n, false)
  }

  /** All calls of a run, from Start to the end. */
  function Trace(plugins: seq<NamedPlugin>, out: Outcomes): seq<Call> {
    if FailingInit(|plugins|, out, 0) < |plugins| then InitRound(plugins, out)
    else if FailingAfterInit(plugins, out, 0) < |plugins| then InitRound(plugins, out) + AfterInitRound(plugins, out)
    else InitRound(plugins, out) + AfterInitRound(plugins, out) + Closes(plugins, |plugins|, false)
  }

  predicate StartFails(plugins: seq<NamedPlugin>, out: Outcomes) {
    FailingInit(|plugins|, out, 0) < |plugins| || FailingAfterInit(plugins, out, 0) < |plugins|
  }

  /** The plugins below k whose Close fails, highest first. */
  function FailedCloses(plugins: seq<NamedPlugin>, out: Outcomes, k: nat): seq<nat>
    requires k <= |plugins|
  {
    if k == 0 then []
    else (if plugins[k - 1].closable && out.close(k - 1).Some? then [k - 1] else []) + FailedCloses(plugins, out, k - 1)
  }

  /** The error of the lowest of plugins i to n - 1 whose Close fails. */
  function FirstCloseError(out: Outcomes, i: nat, n: nat): (e: Option<Error>)
    requires i <= n
    ensures e == None <==> forall j :: i <= j < n ==> out.close(j) == None
    ensures e.Some? ==>
      && e.value.AsIs? && e.value.error.CloseFailed?
      && i <= e.value.error.i < n && out.close(e.value.error.i) == Some(e.value.error.msg)
      && forall j :: i <= j < e.value.error.i ==> out.close(j) == None
    decreases n - i
  {
    if i == n then None
    else if out.close(i).Some? then Some(AsIs(CloseFailed(i, out.close(i).value)))
    else FirstCloseError(out, i + 1, n)
  }

  /** The error that cancels a start: that of the first Init that fails, or else of the first AfterInit. */
  function Encountered(plugins: seq<NamedPlugin>, out: Outcomes): Option<PluginError> {
    var n, k, m := |plugins|, FailingInit(|plugins|, out, 0), FailingAfterInit(plugins, out, 0);
    if k < n then Some(InitFailed(k, out.init(k).value))
    else if m < n then Some(AfterInitFailed(m, out.afterInit(m).value))
    else None
  }

  /** The error a start returns. */
  function StartError(plugins: seq<NamedPlugin>, out: Outcomes): Option<Error> {
    var cause, closeError := Encountered(plugins, out), FirstCloseError(out, 0, |plugins|);
    if FailingInit(|plugins|, out, 0) < |plugins| && closeError.Some? then closeError
    else if cause.Some? then Some(Wrapped(cause.value))
    else None
  }

  // ---------------------------------------------------------------- the order of the calls

  /** The first call may come before the second: Inits and AfterInits go up the list, Closes go down. */
  predicate InOrder(a: Call, b: Call) {
    match a
    case Init(i) => (b.Init? ==> i < b.i)
    case AfterInit(i) => !b.Init? && (b.AfterInit? ==> i < b.i)
    case Close(i) => b.Close? && i > b.i
  }

  predicate Ordered(calls: seq<Call>) {
    forall p, q :: 0 <= p < q < |calls| ==> InOrder(calls[p], calls[q])
  }

  lemma {:induction false} OrderedSum(a: seq<Call>, b: seq<Call>)
    requires Ordered(a) && Ordered(b) && forall x, y :: x in a && y in b ==> InOrder(x, y)
    ensures Ordered(a + b)
  {
    forall p, q | 0 <= p < q < |a + b|
      ensures InOrder((a + b)[p], (a + b)[q])
    {
      if p < |a| <= q {
        assert a[p] in a && b[q - |a|] in b;
      }
    }
  }

  lemma {:induction false} InitsAscend(k: nat)
    ensures Ordered(Inits(k)) && forall c :: c in Inits(k) ==> c.Init? && c.i < k
  {
    if k > 0 {
      InitsAscend(k - 1);
      OrderedSum(Inits(k - 1), [Init(k - 1)]);
    }
  }

  lemma {:induction false} AfterInitsAscend(plugins: seq<NamedPlugin>, k: nat)
    requires k <= |plugins|
    ensures Ordered(AfterInits(plugins, k)) && forall c :: c in AfterInits(plugins, k) ==> c.AfterInit? && c.i < k
  {
    if k > 0 {
      AfterInitsAscend(plugins, k - 1);
      if plugins[k - 1].postInit {
        OrderedSum(AfterInits(plugins, k - 1), [AfterInit(k - 1)]);
      }
    }
  }

  lemma {:induction false} ClosesDescend(plugins: seq<NamedPlugin>, k: nat, all: bool)
    requires k <= |plugins|
    ensures Ordered(Closes(plugins, k, all)) && forall c :: c in Closes(plugins, k, all) ==> c.Close? && c.i < k
  {
    if k > 0 {
      ClosesDescend(plugins, k - 1, all);
      OrderedSum(if all || plugins[k - 1].closable then [Close(k - 1)] else [], Closes(plugins, k - 1, all));
    }
  }

  lemma {:induction false} ClosesAreCloses(plugins: seq<NamedPlugin>)
    ensures var closes := Closes(plugins, |plugins|, false);
      && (forall p :: 0 <= p < |closes| ==> closes[p].Close?)
      && (forall p, q :: 0 <= p < q < |closes| ==> closes[p].i > closes[q].i)
  {
    ClosesDescend(plugins, |plugins|, false);
    var closes := Closes(plugins, |plugins|, false);
    forall p | 0 <= p < |closes|
      ensures closes[p].Close?
    {
      assert closes[p] in closes;
    }
    assert forall p, q :: 0 <= p < q < |closes| ==> InOrder(closes[p], closes[q]);
  }

  lemma {:induction false} InitRoundInOrder(plugins: seq<NamedPlugin>, out: Outcomes)
    ensures Ordered(InitRound(plugins, out))
    ensures FailingInit(|plugins|, out, 0) == |plugins| ==> forall c :: c in InitRound(plugins, out) ==> c.Init?
  {
    var n, k := |plugins|, FailingInit(|plugins|, out, 0);
    InitsAscend(n);
    if k < n {
      InitsAscend(k + 1);
      ClosesDescend(plugins, n, true);
      OrderedSum(Inits(k + 1), Closes(plugins, n, true));
    }
  }

  lemma {:induction false} AfterInitRoundInOrder(plugins: seq<NamedPlugin>, out: Outcomes)
    ensures Ordered(AfterInitRound(plugins, out))
    ensures forall c :: c in AfterInitRound(plugins, out) ==> !c.Init?
    ensures FailingAfterInit(plugins, out, 0) == |plugins| ==>
      forall c :: c in AfterInitRound(plugins, out) ==> c.AfterInit?
  {
    var n, m := |plugins|, FailingAfterInit(plugins, out, 0);
    AfterInitsAscend(plugins, n);
    if m < n {
      AfterInitsAscend(plugins, m + 1);
      ClosesDescend(plugins, n, false);
      OrderedSum(AfterInits(plugins, m + 1), Closes(plugins, n, false));
    }
  }

  /** In every run Inits go before AfterInits before Closes, and plugins are closed in reverse. */
  lemma {:induction false} TraceInOrder(plugins: seq<NamedPlugin>, out: Outcomes)
    ensures Ordered(Trace(plugins, out))
  {
    var ir, ar, cl := InitRound(plugins, out), AfterInitRound(plugins, out), Closes(plugins, |plugins|, false);
    InitRoundInOrder(plugins, out);
    AfterInitRoundInOrder(plugins, out);
    if FailingInit(|plugins|, out, 0) == |plugins| {
      OrderedSum(ir, ar);
      if FailingAfterInit(plugins, out, 0) == |plugins| {
        ClosesDescend(plugins, |plugins|, false);
        OrderedSum(ir + ar, cl);
      }
    }
  }

  /** The joined message names the plugins whose Close failed, in the order in which they were closed. */
  predicate NamesFailed(plugins: seq<NamedPlugin>, out: Outcomes, failed: seq<nat>, k: nat)
    requires k <= |plugins|
  {
    && (forall p, q :: 0 <= p < q < |failed| ==> failed[p] > failed[q])
    && (forall i :: i in failed ==> i < k)
    && (forall i :: 0 <= i < k ==> (i in failed <==> plugins[i].closable && out.close(i).Some?))
  }

  lemma {:induction false} FailedClosesAreNamed(plugins: seq<NamedPlugin>, out: Outcomes, k: nat)
    requires k <= |plugins|
    ensures NamesFailed(plugins, out, FailedCloses(plugins, out, k), k)
  {
    if k > 0 {
      FailedClosesAreNamed(plugins, out, k - 1);
      var rest := FailedCloses(plugins, out, k - 1);
      assert forall p :: 0 <= p < |rest| ==> rest[p] in rest;
    }
  }

  lemma {:induction false} Shift<T>(a: seq<T>, b: seq<T>, c: seq<T>)
    ensures a + (b + c) == (a + b) + c && a + [] == a
  {
  }

  // ---------------------------------------------------------------- the code

  class Agent {
    const plugins: seq<NamedPlugin>
    const out: Outcomes
    var currentlyProcessing: string
    var calls: seq<Call>  // what the plugins have seen

    constructor (plugins: seq<NamedPlugin>, out: Outcomes)
      ensures this.plugins == plugins && this.out == out && calls == []
    {
      this.plugins, this.out, currentlyProcessing, calls := plugins, out, "", [];
    }

    /**
     agent_core.go:263-310.  After a failure the loop goes on, passing over the other plugins, so that
     the closing loop starts from the last plugin listed.  The error of Init is formatted into a new one
     (line 290); an error of Close replaces it, and is returned as it is (line 304).
     */
    method InitPlugins() returns (err: Option<Error>)
      modifies this
      ensures var k := FailingInit(|plugins|, out, 0);
        && (err == None <==> k == |plugins|)
        && calls == old(calls) + InitRound(plugins, out)
        && (k < |plugins| ==>
              (err == Some(Wrapped(InitFailed(k, out.init(k).value))) <==>
               forall i :: 0 <= i < |plugins| ==> out.close(i) == None))
        && (k < |plugins| && FirstCloseError(out, 0, |plugins|).Some? ==> err == FirstCloseError(out, 0, |plugins|))
    {
      var initPluginCounter, wasError := InitAll();
      if wasError.Some? {
        var closeError := CloseListed(initPluginCounter + 1);
        return if closeError.Some? then closeError else wasError;
      }
      return None;
    }

    /** agent_core.go:271-295: the last index visited, and the error of the first Init that failed. */
    method InitAll() returns (initPluginCounter: nat, wasError: Option<Error>)
      modifies this
      ensures |plugins| > 0 ==> initPluginCounter == |plugins| - 1
      ensures var k := FailingInit(|plugins|, out, 0);
        && wasError == (if k < |plugins| then Some(Wrapped(InitFailed(k, out.init(k).value))) else None)
        && calls == old(calls) + Inits(if k < |plugins| then k + 1 else k)
    {
      ghost var k := FailingInit(|plugins|, out, 0);
      var pluginFailed := false;
      initPluginCounter, wasError := 0, None;
      for index := 0 to |plugins|
        invariant index > 0 ==> initPluginCounter == index - 1
        invariant pluginFailed <==> k < index
        invariant !pluginFailed ==> FailingInit(|plugins|, out, index) == k && wasError == None
        invariant pluginFailed ==> wasError == Some(Wrapped(InitFailed(k, out.init(k).value)))
        invariant calls == old(calls) + Inits(if pluginFailed then k + 1 else index)
      {
        initPluginCounter := index;
        currentlyProcessing := plugins[index].name;
        if pluginFailed {
          continue;
        }
        calls := calls + [Init(index)];
        var e := out.init(index);
        if e.Some? {
          pluginFailed := true;
          wasError := Some(Wrapped(InitFailed(index, e.value)));
        }
      }
    }

    /** agent_core.go:300-306: plugins count - 1 down to 0, closed through the list entry, which always has a Close. */
    method CloseListed(count: nat) returns (lastError: Option<Error>)
      requires count <= |plugins|
      modifies this`calls
      ensures calls == old(calls) + Closes(plugins, count, true)
      ensures lastError == FirstCloseError(out, 0, count)
    {
      lastError := None;
      var i := count;
      while i > 0
        invariant 0 <= i <= count
        invariant calls + Closes(plugins, i, true) == old(calls) + Closes(plugins, count, true)
        invariant lastError == FirstCloseError(out, i, count)
      {
        i := i - 1;
        calls := calls + [Close(i)];
        if out.close(i).Some? {
          lastError := Some(AsIs(CloseFailed(i, out.close(i).value)));
        }
      }
    }

    /** agent_core.go:314-356. */
    method HandleAfterInit() returns (err: Option<Error>)
      modifies this
      ensures var k := FailingAfterInit(plugins, out, 0);
        && (err == None <==> k == |plugins|)
        && (k < |plugins| ==> err == Some(Wrapped(AfterInitFailed(k, out.afterInit(k).value))))
        && calls == old(calls) + AfterInitRound(plugins, out)
    {
      var wasError := AfterInitAll();
      if wasError.Some? {
        var _ := Stop();
        return wasError;
      }
      return None;
    }

    /** agent_core.go:316-347: the error of the first AfterInit that failed. */
    method AfterInitAll() returns (wasError: Option<Error>)
      modifies this
      ensures var k := FailingAfterInit(plugins, out, 0);
        && wasError == (if k < |plugins| then Some(Wrapped(AfterInitFailed(k, out.afterInit(k).value))) else None)
        && calls == old(calls) + AfterInits(plugins, if k < |plugins| then k + 1 else k)
    {
      ghost var k := FailingAfterInit(plugins, out, 0);
      var pluginFailed := false;
      wasError := None;
      for index := 0 to |plugins|
        invariant pluginFailed <==> k < index
        invariant !pluginFailed ==> FailingAfterInit(plugins, out, index) == k && wasError == None
        invariant pluginFailed ==> wasError == Some(Wrapped(AfterInitFailed(k, out.afterInit(k).value)))
        invariant calls == old(calls) + AfterInits(plugins, if pluginFailed then k + 1 else index)
      {
        currentlyProcessing := plugins[index].name;
        if pluginFailed {
          continue;
        }
        if plugins[index].postInit {
          calls := calls + [AfterInit(index)];
          var e := out.afterInit(index);
          if e.Some? {
            pluginFailed := true;
            wasError := Some(Wrapped(AfterInitFailed(index, e.value)));
          }
        }
      }
    }

    /** agent_core.go:238-260: closing goes on after an error; the errors are joined. */
    method Stop() returns (err: Option<Error>)
      modifies this`calls
      ensures calls == old(calls) + Closes(plugins, |plugins|, false)
      ensures var failed := FailedCloses(plugins, out, |plugins|);
        err == if failed == [] then None else Some(StopFailed(failed))
      ensures forall p :: |old(calls)| <= p < |calls| ==> calls[p].Close?
      ensures forall p, q :: |old(calls)| <= p < q < |calls| ==> calls[p].i > calls[q].i
      ensures err.Some? ==> err.value.StopFailed? && NamesFailed(plugins, out, err.value.failed, |plugins|)
    {
      var errMsg := CloseReachable();
      FailedClosesAreNamed(plugins, out, |plugins|);
      ClosesAreCloses(plugins);
      if |errMsg| > 0 {
        return Some(StopFailed(errMsg));
      }
      return None;
    }

    /** agent_core.go:239-251, the loop. */
    method CloseReachable() returns (errMsg: seq<nat>)
      modifies this`calls
      ensures calls == old(calls) + Closes(plugins, |plugins|, false)
      ensures errMsg == FailedCloses(plugins, out, |plugins|)
    {
      errMsg := [];
      var i := |plugins|;
      while i > 0
        invariant 0 <= i <= |plugins|
        invariant calls + Closes(plugins, i, false) == old(calls) + Closes(plugins, |plugins|, false)
        invariant errMsg + FailedCloses(plugins, out, i) == FailedCloses(plugins, out, |plugins|)
      {
        i := i - 1;
        Shift(calls, if plugins[i].closable then [Close(i)] else [], Closes(plugins, i, false));
        Shift(errMsg, if plugins[i].closable && out.close(i).Some? then [i] else [], FailedCloses(plugins, out, i));
        if plugins[i].closable {
          calls := calls + [Close(i)];
          if out.close(i).Some? {
            errMsg := errMsg + [i];
          }
        }
      }
      Shift(calls, [], []);
      Shift(errMsg, [], []);
    }

    /** agent_core.go:193-231, without the timeout. */
    method Start() returns (err: Option<Error>)
      modifies this
      ensures err == None <==> !StartFails(plugins, out)
      ensures err == StartError(plugins, out)
      ensures calls == old(calls) +
        if FailingInit(|plugins|, out, 0) < |plugins| then InitRound(plugins, out)
        else InitRound(plugins, out) + AfterInitRound(plugins, out)
    {
      err := InitPlugins();
      if err.Some? {
        return;
      }
      err := HandleAfterInit();
      assert old(calls) + InitRound(plugins, out) + AfterInitRound(plugins, out) ==
             old(calls) + (InitRound(plugins, out) + AfterInitRound(plugins, out));
    }

    /** event_loop.go:25-45: after a failed start nothing more is called, else the agent is stopped in the end. */
    method EventLoopWithInterrupt() returns (err: Option<Error>)
      requires calls == []
      modifies this
      ensures calls == Trace(plugins, out)
      ensures Ordered(calls)
      ensures StartFails(plugins, out) ==> err.Some? && err == StartError(plugins, out)
      ensures !StartFails(plugins, out) ==>
        && (err == None <==> forall i :: 0 <= i < |plugins| && plugins[i].closable ==> out.close(i) == None)
        && (err.Some? ==> err.value.StopFailed? && NamesFailed(plugins, out, err.value.failed, |plugins|))
    {
      TraceInOrder(plugins, out);
      err := Start();
      ghost var ir, ar := InitRound(plugins, out), AfterInitRound(plugins, out);
      assert [] + ir == ir && [] + (ir + ar) == ir + ar;
      if err.Some? {
        return;
      }
      assert calls == ir + ar;
      FailedClosesEmpty(plugins, out, |plugins|);
      err := Stop();
    }
  }

  /**
   The failure that cancelled the start is the one reported, if there is any, exactly if it is not of an
   Init or no Close fails.
   */
  lemma {:induction false} CauseIsReportedIff(plugins: seq<NamedPlugin>, out: Outcomes)
    requires StartFails(plugins, out)
    ensures StartError(plugins, out) == Some(Wrapped(Encountered(plugins, out).value)) <==>
      FailingInit(|plugins|, out, 0) == |plugins| || forall i :: 0 <= i < |plugins| ==> out.close(i) == None
  {
    assert FirstCloseError(out, 0, |plugins|) != Some(Wrapped(Encountered(plugins, out).value));
  }

  /**
   It is never returned as it is: an error that is returned as it is comes from a Close, and comes exactly
   if an Init failed and a Close fails.
   */
  lemma {:induction false} OnlyCloseErrorsAreAsIs(plugins: seq<NamedPlugin>, out: Outcomes)
    requires StartFails(plugins, out)
    ensures StartError(plugins, out) != Some(AsIs(Encountered(plugins, out).value))
    ensures StartError(plugins, out).value.AsIs? <==>
      FailingInit(|plugins|, out, 0) < |plugins| && exists i :: 0 <= i < |plugins| && out.close(i).Some?
  {
    assert FirstCloseError(out, 0, |plugins|) == None <==> forall i :: 0 <= i < |plugins| ==> out.close(i) == None;
  }

  lemma {:induction false} FailedClosesEmpty(plugins: seq<NamedPlugin>, out: Outcomes, k: nat)
    requires k <= |plugins|
    ensures FailedCloses(plugins, out, k) == [] <==>
      forall i :: 0 <= i < k && plugins[i].closable ==> out.close(i) == None
  {
    if k > 0 {
      FailedClosesEmpty(plugins, out, k - 1);
    }
  }

  // ---------------------------------------------------------------- what a run does to each plugin

  function Count(calls: seq<Call>, c: Call): nat {
    if calls == [] then 0 else Count(calls[..|calls| - 1], c) + if calls[|calls| - 1] == c then 1 else 0
  }

  lemma {:induction false} CountOfSum(a: seq<Call>, b: seq<Call>, c: Call)
    ensures Count(a + b, c) == Count(a, c) + Count(b, c)
  {
    if b == [] {
      assert a + b == a;
    } else {
      CountOfSum(a, b[..|b| - 1], c);
      assert (a + b)[..|a + b| - 1] == a + b[..|b| - 1];
    }
  }

  lemma {:induction false} CountOfOne(call: Call, c: Call)
    ensures Count([call], c) == if call == c then 1 else 0
  {
    assert [call][..0] == [];
  }

  lemma {:induction false} CountInits(k: nat, c: Call)
    ensures Count(Inits(k), c) == if c.Init? && c.i < k then 1 else 0
  {
    if k > 0 {
      CountInits(k - 1, c);
    }
  }

  lemma {:induction false} CountAfterInits(plugins: seq<NamedPlugin>, k: nat, c: Call)
    requires k <= |plugins|
    ensures Count(AfterInits(plugins, k), c) == if c.AfterInit? && c.i < k && plugins[c.i].postInit then 1 else 0
  {
    if k > 0 {
      var before := AfterInits(plugins, k - 1);
      CountAfterInits(plugins, k - 1, c);
      if plugins[k - 1].postInit {
        CountOfSum(before, [AfterInit(k - 1)], c);
        CountOfOne(AfterInit(k - 1), c);
      }
    }
  }

  lemma {:induction false} CountCloses(plugins: seq<NamedPlugin>, k: nat, all: bool, c: Call)
    requires k <= |plugins|
    ensures Count(Closes(plugins, k, all), c) == if c.Close? && c.i < k && (all || plugins[c.i].closable) then 1 else 0
  {
    if k > 0 {
      CountCloses(plugins, k - 1, all, c);
      var after := Closes(plugins, k - 1, all);
      if all || plugins[k - 1].closable {
        CountOfSum([Close(k - 1)], after, c);
        CountOfOne(Close(k - 1), c);
      } else {
        assert [] + after == after;
      }
    }
  }

  lemma {:induction false} CountInitRound(plugins: seq<NamedPlugin>, out: Outcomes, c: Call)
    requires c.i < |plugins|
    ensures var k := FailingInit(|plugins|, out, 0);
      Count(InitRound(plugins, out), c) ==
        match c
        case Init(i) => if i <= k then 1 else 0
        case AfterInit(_) => 0
        case Close(_) => if k < |plugins| then 1 else 0
  {
    var n, k := |plugins|, FailingInit(|plugins|, out, 0);
    if k == n {
      CountInits(n, c);
    } else {
      CountInits(k + 1, c);
      CountCloses(plugins, n, true, c);
      CountOfSum(Inits(k + 1), Closes(plugins, n, true), c);
    }
  }

  lemma {:induction false} CountAfterInitRound(plugins: seq<NamedPlugin>, out: Outcomes, c: Call)
    requires c.i < |plugins|
    ensures var m := FailingAfterInit(plugins, out, 0);
      Count(AfterInitRound(plugins, out), c) ==
        match c
        case Init(_) => 0
        case AfterInit(i) => if i <= m && plugins[i].postInit then 1 else 0
        case Close(i) => if m < |plugins| && plugins[i].closable then 1 else 0
  {
    var n, m := |plugins|, FailingAfterInit(plugins, out, 0);
    if m == n {
      CountAfterInits(plugins, n, c);
    } else {
      CountAfterInits(plugins, m + 1, c);
      CountCloses(plugins, n, false, c);
      CountOfSum(AfterInits(plugins, m + 1), Closes(plugins, n, false), c);
    }
  }

  /**
   How often a run calls what: Init of a plugin once if none before it failed; AfterInit once if it has
   one, all Inits succeeded and no AfterInit before it failed; Close once unless every Init succeeded
   and its value is one that safeclose cannot close.
   */
  lemma {:induction false} CallsOfRun(plugins: seq<NamedPlugin>, out: Outcomes, c: Call)
    requires c.i < |plugins|
    ensures var k, m := FailingInit(|plugins|, out, 0), FailingAfterInit(plugins, out, 0);
      Count(Trace(plugins, out), c) ==
        match c
        case Init(i) => if i <= k then 1 else 0
        case AfterInit(i) => if k == |plugins| && i <= m && plugins[i].postInit then 1 else 0
        case Close(i) => if k == |plugins| && !plugins[i].closable then 0 else 1
  {
    var ir, ar, cl := InitRound(plugins, out), AfterInitRound(plugins, out), Closes(plugins, |plugins|, false);
    CountInitRound(plugins, out, c);
    CountAfterInitRound(plugins, out, c);
    CountCloses(plugins, |plugins|, false, c);
    CountOfSum(ir, ar, c);
    CountOfSum(ir + ar, cl, c);
  }

  /** Every plugin is closed exactly once if and only if some Init failed or all of their values can be closed. */
  lemma {:induction false} AllClosedIff(plugins: seq<NamedPlugin>, out: Outcomes)
    ensures (forall i :: 0 <= i < |plugins| ==> Count(Trace(plugins, out), Close(i)) == 1) <==>
      FailingInit(|plugins|, out, 0) < |plugins| || forall i :: 0 <= i < |plugins| ==> plugins[i].closable
  {
    forall i | 0 <= i < |plugins|
      ensures Count(Trace(plugins, out), Close(i)) ==
        if FailingInit(|plugins|, out, 0) == |plugins| && !plugins[i].closable then 0 else 1
    {
      CallsOfRun(plugins, out, Close(i));
    }
  }

  /**
   When Init fails, exactly the plugins after the failing one are closed without their Init having
   run; so only plugins whose Init ran are closed just when the failing one is the last.
   */
  lemma {:induction false} FailedInitClosesOthersToo(plugins: seq<NamedPlugin>, out: Outcomes)
    requires FailingInit(|plugins|, out, 0) < |plugins|
    ensures forall i :: 0 <= i < |plugins| ==>
      (Count(Trace(plugins, out), Close(i)) > Count(Trace(plugins, out), Init(i)) <==>
       i > FailingInit(|plugins|, out, 0))
    ensures (forall i :: 0 <= i < |plugins| ==>
               Count(Trace(plugins, out), Close(i)) == Count(Trace(plugins, out), Init(i)))
      <==> FailingInit(|plugins|, out, 0) == |plugins| - 1
  {
    forall i | 0 <= i < |plugins|
      ensures Count(Trace(plugins, out), Close(i)) == 1
      ensures Count(Trace(plugins, out), Init(i)) == if i <= FailingInit(|plugins|, out, 0) then 1 else 0
    {
      CallsOfRun(plugins, out, Close(i));
      CallsOfRun(plugins, out, Init(i));
    }
    var last := |plugins| - 1;
    assert Count(Trace(plugins, out), Close(last)) == 1;
  }
}

/**
 health/statuscheck/plugin_impl_statuscheck.go: the status of every plugin and the status of the
 agent that is derived from the reports of the plugins.
 */
module StatusCheck {
  import opened Wrappers

  datatype OperationalState = INIT | OK | ERROR

  /** The state in a report is a string: one of the three constants or any other text. */
  datatype PluginState = InitState | OkState | ErrorState | OtherState(text: string)

  /** plugin_impl_statuscheck.go:284-294: an unknown state is an error. */
  function StateToProto(state: PluginState): (r: OperationalState)
    ensures r == OK <==> state.OkState?
    ensures r == INIT <==> state.InitState?
  {
    match state
    case InitState => INIT
    case OkState => OK
    case _ => ERROR
  }

  datatype Stat = Stat(state: OperationalState, error: string)

  datatype Publication = AgentData(state: OperationalState) | PluginData(name: string, stat: Stat)

  /** The data of the plugin as values. */
  datatype View = View(agent: OperationalState, plugins: map<string, Stat>, published: seq<Publication>)

  // ---------------------------------------------------------------- what the operations do

  const START := View(INIT, map[], [])

  predicate AllOk(v: View) {
    forall p :: p in v.plugins ==> v.plugins[p].state == OK
  }

  function AfterRegister(v: View, name: string): View {
    var stat := Stat(INIT, "");
    v.(plugins := v.plugins[name := stat], published := v.published + [PluginData(name, stat)])
  }

  function AfterInitDone(v: View): View {
    var v1 := v.(published := v.published + [AgentData(v.agent)]);
    if v.plugins == map[] then v1.(agent := OK, published := v1.published + [AgentData(OK)]) else v1
  }

  /** The report tells something new about a registered plugin. */
  predicate Effective(v: View, name: string, state: PluginState, lastError: Option<string>) {
    name in v.plugins &&
    v.plugins[name] != Stat(StateToProto(state), if lastError.Some? then lastError.value else "")
  }

  function AfterReport(v: View, name: string, state: PluginState, lastError: Option<string>): View {
    if !Effective(v, name, state, lastError) then v
    else
      var stat := Stat(StateToProto(state), if lastError.Some? then lastError.value else "");
      var v1 := v.(plugins := v.plugins[name := stat], published := v.published + [PluginData(name, stat)]);
      if !state.OkState? || AllOk(v1)
        then v1.(agent := StateToProto(state), published := v1.published + [AgentData(StateToProto(state))])
        else v1
  }

  // ---------------------------------------------------------------- the code

  class PluginStatus {
    var state: OperationalState
    var error: string
    ghost const plugin: string  // whose status it is

    constructor (state: OperationalState, ghost plugin: string)
      ensures this.state == state && this.error == "" && this.plugin == plugin
    {
      this.state, this.error, this.plugin := state, "", plugin;
    }
  }

  class Plugin {
    var agentState: OperationalState
    var pluginStat: map<string, PluginStatus>
    var published: seq<Publication>  // what was handed to the transport
    ghost var stats: set<PluginStatus>

    /** Every plugin has a status object of its own. */
    ghost predicate Valid()
      reads this`pluginStat, this`stats
    {
      forall p :: p in pluginStat ==> pluginStat[p] in stats && pluginStat[p].plugin == p
    }

    ghost function Plugins(): map<string, Stat>
      reads this`pluginStat, this`stats, stats
      requires Valid()
    {
      map p | p in pluginStat :: Stat(pluginStat[p].state, pluginStat[p].error)
    }

    ghost function AsView(): View
      reads this`agentState, this`pluginStat, this`published, this`stats, stats
      requires Valid()
    {
      View(agentState, Plugins(), published)
    }

    /** Init, plugin_impl_statuscheck.go:66-86. */
    constructor ()
      ensures Valid() && fresh(stats) && AsView() == START
    {
      agentState, pluginStat, published, stats := INIT, map[], [], {};
    }

    /** plugin_impl_statuscheck.go:90-110. */
    method AfterInit()
      requires Valid()
      modifies this`agentState, this`published
      ensures Valid() && AsView() == AfterInitDone(old(AsView()))
    {
      PublishAgentData();
      assert Plugins() == map[] <==> pluginStat == map[] by {
        assert Plugins().Keys == pluginStat.Keys;
      }
      if |pluginStat| == 0 {
        agentState := OK;
        PublishAgentData();
      }
    }

    /** plugin_impl_statuscheck.go:121-139. */
    method Register(name: string)
      requires Valid()
      modifies this`pluginStat, this`published, this`stats
      ensures Valid() && fresh(stats - old(stats)) && AsView() == AfterRegister(old(AsView()), name)
    {
      var stat := new PluginStatus(INIT, name);
      stats := stats + {stat};
      pluginStat := pluginStat[name := stat];
      PublishPluginData(name, stat);
    }

    /** plugin_impl_statuscheck.go:143-196. */
    method ReportStateChange(name: string, state: PluginState, lastError: Option<string>)
      requires Valid()
      modifies this`agentState, this`published, stats
      ensures Valid() && AsView() == AfterReport(old(AsView()), name, state, lastError)
    {
      if name !in pluginStat {
        return;
      }
      var stat := pluginStat[name];
      var changed := HasChanged(name, stat, state, lastError);
      if !changed {
        return;
      }
      UpdateStatus(name, stat, state, lastError);
      ghost var plugins := Plugins();
      PublishPluginData(name, stat);
      UpdateGlobalState(state);
      assert Plugins() == plugins;
    }

    /** plugin_impl_statuscheck.go:154-162. */
    method HasChanged(name: string, stat: PluginStatus, state: PluginState, lastError: Option<string>)
      returns (changed: bool)
      requires Valid() && name in pluginStat && pluginStat[name] == stat
      ensures changed <==> Effective(AsView(), name, state, lastError)
    {
      changed := true;
      if StateToProto(state) == stat.state {
        if lastError == None && stat.error == "" {
          changed := false;
        }
        if lastError.Some? && lastError.value == stat.error {
          changed := false;
        }
      }
    }

    /** plugin_impl_statuscheck.go:180-195. */
    method UpdateGlobalState(state: PluginState)
      requires Valid()
      modifies this`agentState, this`published
      ensures if !state.OkState? || (forall p :: p in Plugins() ==> Plugins()[p].state == OK)
        then agentState == StateToProto(state) && published == old(published) + [AgentData(StateToProto(state))]
        else agentState == old(agentState) && published == old(published)
    {
      var changeGlobalState := true;
      if state.OkState? {
        changeGlobalState := CheckAllOk();
      }
      if changeGlobalState {
        agentState := StateToProto(state);
        PublishAgentData();
      }
    }

    /** plugin_impl_statuscheck.go:171-177. */
    method UpdateStatus(name: string, stat: PluginStatus, state: PluginState, lastError: Option<string>)
      requires Valid() && name in pluginStat && pluginStat[name] == stat
      modifies stat
      ensures Plugins() ==
        old(Plugins())[name := Stat(StateToProto(state), if lastError.Some? then lastError.value else "")]
    {
      stat.state := StateToProto(state);
      if lastError.Some? {
        stat.error := lastError.value;
      } else {
        stat.error := "";
      }
    }

    /** plugin_impl_statuscheck.go:184-189. */
    method CheckAllOk() returns (all: bool)
      requires Valid()
      ensures all <==> forall p :: p in Plugins() ==> Plugins()[p].state == OK
    {
      var left := pluginStat.Keys;
      while left != {}
        invariant left <= pluginStat.Keys
        invariant forall p :: p in pluginStat && p !in left ==> pluginStat[p].state == OK
      {
        var p :| p in left;
        if pluginStat[p].state != OK {
          assert Plugins()[p].state != OK;
          return false;
        }
        left := left - {p};
      }
      return true;
    }

    method PublishAgentData()
      modifies this`published
      ensures published == old(published) + [AgentData(agentState)]
    {
      published := published + [AgentData(agentState)];
    }

    method PublishPluginData(name: string, stat: PluginStatus)
      modifies this`published
      ensures published == old(published) + [PluginData(name, Stat(stat.state, stat.error))]
    {
      published := published + [PluginData(name, Stat(stat.state, stat.error))];
    }
  }

  // ---------------------------------------------------------------- runs

  datatype Call =
    | Register(name: string)
    | Report(name: string, state: PluginState, lastError: Option<string>)
    | AfterInit

  function After(v: View, call: Call): View {
    match call
    case Register(name) => AfterRegister(v, name)
    case Report(name, state, lastError) => AfterReport(v, name, state, lastError)
    case AfterInit => AfterInitDone(v)
  }

  function Run(calls: seq<Call>): View {
    if calls == [] then START else After(Run(calls[..|calls| - 1]), calls[|calls| - 1])
  }

  /** A call that brings news of a plugin. */
  predicate Told(v: View, call: Call) {
    call.Report? && Effective(v, call.name, call.state, call.lastError)
  }

  /** The plugin has told something new since it was last registered. */
  predicate ChangedSinceRegister(calls: seq<Call>, name: string) {
    calls != [] &&
    var before, last := calls[..|calls| - 1], calls[|calls| - 1];
    if last == Register(name) then false
    else ChangedSinceRegister(before, name) || (Told(Run(before), last) && last.name == name)
  }

  /** The last news of a run that was not of an OK plugin. */
  function LastBadNews(calls: seq<Call>): Option<OperationalState> {
    if calls == [] then None
    else
      var before, last := calls[..|calls| - 1], calls[|calls| - 1];
      if Told(Run(before), last) && !last.state.OkState? then Some(StateToProto(last.state)) else LastBadNews(before)
  }

  // ---------------------------------------------------------------- what the store shows

  /** What was published last under the name of a plugin. */
  function LastPublished(published: seq<Publication>, name: string): Option<Stat> {
    if published == [] then None
    else
      var before, last := published[..|published| - 1], published[|published| - 1];
      if last.PluginData? && last.name == name then Some(last.stat) else LastPublished(before, name)
  }

  /** What was published last of the agent. */
  function LastOfAgent(published: seq<Publication>): Option<OperationalState> {
    if published == [] then None
    else
      var before, last := published[..|published| - 1], published[|published| - 1];
      if last.AgentData? then Some(last.state) else LastOfAgent(before)
  }

  lemma {:induction false} PublishedNext(published: seq<Publication>, p: Publication, name: string)
    ensures LastPublished(published + [p], name) ==
            if p.PluginData? && p.name == name then Some(p.stat) else LastPublished(published, name)
    ensures LastOfAgent(published + [p]) == if p.AgentData? then Some(p.state) else LastOfAgent(published)
  {
    assert (published + [p])[..|published|] == published;
  }

  /** The store shows the plugin and the agent as they are. */
  predicate Shown(v: View, name: string) {
    && LastPublished(v.published, name) == (if name in v.plugins then Some(v.plugins[name]) else None)
    && (LastOfAgent(v.published) == Some(v.agent) || (LastOfAgent(v.published) == None && v.agent == INIT))
  }

  lemma {:induction false} StillShown(v: View, call: Call, name: string)
    requires Shown(v, name)
    ensures Shown(After(v, call), name)
  {
    match call {
      case Register(registered) =>
        PublishedNext(v.published, PluginData(registered, Stat(INIT, "")), name);
      case Report(reported, state, lastError) =>
        var stat := Stat(StateToProto(state), if lastError.Some? then lastError.value else "");
        PublishedNext(v.published, PluginData(reported, stat), name);
        PublishedNext(v.published + [PluginData(reported, stat)], AgentData(StateToProto(state)), name);
      case AfterInit =>
        PublishedNext(v.published, AgentData(v.agent), name);
        PublishedNext(v.published + [AgentData(v.agent)], AgentData(OK), name);
    }
  }

  /**
   After every run, what was published last under a plugin's name is its status, and what was published last
   of the agent is its state; as long as nothing was published of it, the agent is in INIT.
   */
  lemma {:induction false} StoreShowsStatus(calls: seq<Call>, name: string)
    ensures Shown(Run(calls), name)
  {
    if calls != [] {
      StoreShowsStatus(calls[..|calls| - 1], name);
      StillShown(Run(calls[..|calls| - 1]), calls[|calls| - 1], name);
    }
  }

  /** A report is published exactly if it changes the status of its plugin; nothing published is taken back. */
  lemma {:induction false} PublishedIffChanged(v: View, name: string, state: PluginState, lastError: Option<string>)
    ensures var after := AfterReport(v, name, state, lastError);
      && v.published <= after.published
      && (after.published == v.published <==> after.plugins == v.plugins)
      && (after.plugins == v.plugins ==> after == v)
  {
    if Effective(v, name, state, lastError) {
      assert AfterReport(v, name, state, lastError).plugins[name] != v.plugins[name];
    }
  }

  /** What the run said last of a plugin: its registration, or its own report after it. */
  function LastTold(calls: seq<Call>, name: string): Option<Stat> {
    if calls == [] then None
    else
      var before, last := LastTold(calls[..|calls| - 1], name), calls[|calls| - 1];
      if last == Register(name) then Some(Stat(INIT, ""))
      else if last.Report? && last.name == name && before.Some? then
        Some(Stat(StateToProto(last.state), if last.lastError.Some? then last.lastError.value else ""))
      else before
  }

  /** The status of a plugin is what the run said last of it; reports before the registration are lost. */
  lemma {:induction false} StatusIsLastTold(calls: seq<Call>, name: string)
    ensures LastTold(calls, name) ==
            if name in Run(calls).plugins then Some(Run(calls).plugins[name]) else None
  {
    if calls != [] {
      StatusIsLastTold(calls[..|calls| - 1], name);
    }
  }

  /** Without plugins the agent is OK exactly from the first AfterInit on. */
  lemma {:induction false} AgentWithoutPlugins(calls: seq<Call>)
    ensures Run(calls).plugins == map[] <==> forall i :: 0 <= i < |calls| ==> !calls[i].Register?
    ensures Run(calls).plugins == map[] ==> Run(calls).agent == if AfterInit in calls then OK else INIT
  {
    if calls != [] {
      var init, last := calls[..|calls| - 1], calls[|calls| - 1];
      AgentWithoutPlugins(init);
      assert calls == init + [last];
      if last.Register? {
        assert last.name in Run(calls).plugins;
      }
    }
  }

  /** If there are plugins and all of them are OK, so is the agent. */
  lemma {:induction false} AllOkMakesAgentOk(calls: seq<Call>)
    ensures var v := Run(calls);
      v.plugins != map[] && AllOk(v) ==> v.agent == OK
  {
    if calls != [] {
      var before, last := Run(calls[..|calls| - 1]), calls[|calls| - 1];
      AllOkMakesAgentOk(calls[..|calls| - 1]);
      if last.Register? {
        assert After(before, last).plugins[last.name].state == INIT;
      } else if Told(before, last) {
        assert After(before, last).plugins[last.name].state == StateToProto(last.state);
      }
    }
  }

  /** If the agent is OK, every plugin is OK or has told nothing since it was registered. */
  lemma {:induction false} AgentOkMeansPluginsOk(calls: seq<Call>, p: string)
    requires p in Run(calls).plugins
    ensures Run(calls).agent == OK ==> Run(calls).plugins[p].state == OK || !ChangedSinceRegister(calls, p)
    ensures !ChangedSinceRegister(calls, p) ==> Run(calls).plugins[p] == Stat(INIT, "")
  {
    var init, last := calls[..|calls| - 1], calls[|calls| - 1];
    if last != Register(p) {
      AgentOkMeansPluginsOk(init, p);
    }
  }

  /**
   While some plugin is in ERROR, the agent is in the state of the last bad news: in ERROR, unless a
   plugin has reported Init since, and then in INIT.
   */
  lemma {:induction false} ErrorShowsUnlessInitReported(calls: seq<Call>, p: string)
    requires p in Run(calls).plugins && Run(calls).plugins[p].state == ERROR
    ensures LastBadNews(calls) == Some(Run(calls).agent)
    ensures Run(calls).agent == ERROR <==> LastBadNews(calls) == Some(ERROR)
    ensures Run(calls).agent != OK
  {
    var init, last := calls[..|calls| - 1], calls[|calls| - 1];
    if !(last.Report? && last.name == p && Told(Run(init), last)) {
      ErrorShowsUnlessInitReported(init, p);
    }
  }

  predicate ReportsInit(calls: seq<Call>) {
    exists i :: 0 <= i < |calls| && calls[i].Report? && calls[i].state.InitState?
  }

  lemma {:induction false} BadNewsIsErrorWithoutInit(calls: seq<Call>)
    requires !ReportsInit(calls)
    ensures LastBadNews(calls) != Some(INIT)
  {
    if calls != [] {
      var init, last := calls[..|calls| - 1], calls[|calls| - 1];
      forall i | 0 <= i < |init|
        ensures !(init[i].Report? && init[i].state.InitState?)
      {
        assert init[i] == calls[i];
      }
      BadNewsIsErrorWithoutInit(init);
    }
  }

  /** If nobody reports Init, an ERROR of any plugin shows at the agent. */
  lemma {:induction false} ErrorShows(calls: seq<Call>, p: string)
    requires !ReportsInit(calls)
    requires p in Run(calls).plugins && Run(calls).plugins[p].state == ERROR
    ensures Run(calls).agent == ERROR
  {
    ErrorShowsUnlessInitReported(calls, p);
    BadNewsIsErrorWithoutInit(calls);
  }

  lemma {:induction false} RunOfNext(calls: seq<Call>, call: Call)
    ensures Run(calls + [call]) == After(Run(calls), call)
  {
    assert (calls + [call])[..|calls|] == calls;
  }

  /** A later Init report hides an error. */
  lemma {:induction false} InitReportHidesError()
    ensures exists calls ::
      "a" in Run(calls).plugins && Run(calls).plugins["a"].state == ERROR && Run(calls).agent == INIT
  {
    var c1, c2 := Register("a"), Register("b");
    var c3, c4 := Report("a", ErrorState, None), Report("b", InitState, Some("restarting"));
    RunOfNext([], c1);
    RunOfNext([] + [c1], c2);
    RunOfNext([] + [c1] + [c2], c3);
    RunOfNext([] + [c1] + [c2] + [c3], c4);
    assert "a" in Run([] + [c1] + [c2] + [c3] + [c4]).plugins;
  }

  /** A report given twice in a row has the effect and the publications of one. */
  lemma {:induction false} RepeatedReportIsSilent(v: View, name: string, state: PluginState, lastError: Option<string>)
    ensures var once := AfterReport(v, name, state, lastError);
      AfterReport(once, name, state, lastError) == once
  {
  }
}

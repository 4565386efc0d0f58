/** The profile manager and the plugin manager together: what a run of pushes, pops,
    freezes and thaws, libanjuta/anjuta-profile-manager.c, does to the active plugins, when
    loads do not call the manager in turn and all profiles can be read. */
module ProfileRuns {
  import opened PluginGraph
  import opened PluginManagement
  import opened Profiles
  import Stack = ProfileStack

  /** The profiles that the loop of anjuta_profile_manager_load_profiles loads, in order:
      all that are pending, the oldest first, unless the manager is frozen. */
  function Loads(st: Stack.State): (r: seq<nat>)
    requires st.reactions == []
    ensures |r| == if st.freezeCount > 0 then 0 else |st.queue|
    ensures forall i | 0 <= i < |r| :: r[i] == st.queue[|st.queue| - 1 - i]
    decreases |st.queue|
  {
    if st.freezeCount > 0 || st.queue == [] then []
    else
      var p := st.queue[|st.queue| - 1];
      [p] + Loads(Stack.LoadProfile(Stack.Moved(st), p))
  }

  /** The profiles that a call loads, in order. */
  function LoadsOf(st: Stack.State, c: Stack.Call): seq<nat>
    requires st.reactions == []
  {
    match c
    case Push(p) => Loads(Stack.Queued(st, p))
    case Pop(p) => if st.queue == [] && |st.profiles| > 1 && st.profiles[0] == p then [st.profiles[1]] else []
    case Freeze => []
    case Thaw => Loads(Stack.Thawed(st))
  }

  /** After some loads the last one is current; without any the loaded profiles are what
      they were. */
  ghost predicate LastIsCurrent(loads: seq<nat>, before: seq<nat>, after: seq<nat>) {
    if loads == [] then after == before else after != [] && after[0] == loads[|loads| - 1]
  }

  lemma {:induction false} LoadsCurrent(st: Stack.State)
    requires st.reactions == []
    ensures LastIsCurrent(Loads(st), st.profiles, Stack.LoadProfiles(st).profiles)
    decreases |st.queue|
  {
    if st.freezeCount == 0 && st.queue != [] {
      LoadsCurrent(Stack.LoadProfile(Stack.Moved(st), st.queue[|st.queue| - 1]));
    }
  }

  /** A call that empties the list of loaded profiles loads nothing, too. */
  lemma StepCurrent(st: Stack.State, c: Stack.Call)
    requires st.reactions == []
    ensures var after := Stack.Step(st, c).profiles;
            after == [] || LastIsCurrent(LoadsOf(st, c), st.profiles, after)
  {
    match c {
      case Push(p) => LoadsCurrent(Stack.Queued(st, p));
      case Pop(p) =>
      case Freeze =>
      case Thaw => LoadsCurrent(Stack.Thawed(st));
    }
  }

  predicate Below(s: seq<nat>, n: nat) {
    forall i :: 0 <= i < |s| ==> s[i] < n
  }

  lemma {:induction false} LoadsBelow(st: Stack.State, n: nat)
    requires st.reactions == [] && Below(st.queue, n)
    ensures Below(Loads(st), n)
    decreases |st.queue|
  {
    if st.freezeCount == 0 && st.queue != [] {
      LoadsBelow(Stack.LoadProfile(Stack.Moved(st), st.queue[|st.queue| - 1]), n);
    }
  }

  lemma PartsBelow(a: seq<nat>, b: seq<nat>, n: nat)
    ensures Below(a + b, n) <==> Below(a, n) && Below(b, n)
  {
    if Below(a + b, n) {
      assert forall i | 0 <= i < |a| :: (a + b)[i] == a[i];
      assert forall i | 0 <= i < |b| :: (a + b)[|a| + i] == b[i];
    }
  }

  /** The profile objects behind some numbers. */
  function Objects(profiles: seq<Profile>, loads: seq<nat>): (r: seq<Profile>)
    requires Below(loads, |profiles|)
    ensures |r| == |loads| && forall i | 0 <= i < |r| :: r[i] == profiles[loads[i]]
    ensures forall p | p in r :: p in profiles
  {
    seq(|loads|, i requires 0 <= i < |loads| => profiles[loads[i]])
  }

  /** All profiles name closed sets of plugins, and a system profile only pinned ones. */
  ghost predicate Loadable(manager: PluginManager, profiles: seq<Profile>, pinned: set<PluginHandle>)
    reads profiles
  {
    forall p | p in profiles ::
      && p.manager == manager
      && (p.name == SYSTEM_PROFILE_NAME ==> p.pluginsToLoad <= pinned)
      && p.pluginsToLoad <= manager.index.Values && Closed(manager.index, p.pluginsToLoad)
  }

  /** The active plugins are those of the current profile and the pinned ones. */
  ghost predicate Follows(manager: PluginManager, profiles: seq<Profile>, st: Stack.State, pinned: set<PluginHandle>)
    requires Below(st.profiles, |profiles|)
    reads manager, profiles
  {
    st.profiles != [] ==> manager.Active() == profiles[st.profiles[0]].pluginsToLoad + pinned
  }

  lemma NothingPending(st: Stack.State)
    requires Stack.Quiescent(st) && st.freezeCount == 0
    ensures Stack.Stack(st) == st.profiles
  {
    assert st.queue == [];
  }

  /** At the end, if nothing is frozen, the loaded profiles are the stack of the calls. */
  lemma RunEnds(calls: seq<Stack.Call>)
    ensures var st := Stack.Perform(Stack.EMPTY, calls);
            st.freezeCount == 0 ==> st.profiles == Stack.AppliedAll([], calls)
  {
    var st := Stack.Perform(Stack.EMPTY, calls);
    assert Stack.Kept(Stack.EMPTY, st);
    assert Stack.Stack(Stack.EMPTY) == [];
    if st.freezeCount == 0 {
      NothingPending(st);
    }
  }

  /** The plugin manager while profiles are loaded. */
  ghost predicate Ready(manager: PluginManager, pinned: set<PluginHandle>)
    reads manager, manager.objects
    reads manager.index.Values`dependencies, manager.index.Values`dependents, manager.index.Values`canLoad, manager.index.Values`canUnload
  {
    && manager.Valid() && Orderly(manager.index, manager.Active(), {})
    && Unloadable(manager.index) == pinned <= manager.Active() && Closed(manager.index, pinned)
  }

  method LoadAll(manager: PluginManager, profiles: seq<Profile>, loads: seq<nat>, ghost pinned: set<PluginHandle>)
    requires Ready(manager, pinned) && Loadable(manager, profiles, pinned) && Below(loads, |profiles|)
    modifies manager`activatedPlugins, manager`pluginsCache, manager`emitted, manager`objects, manager.objects`activated
    modifies manager.index.Values`canUnload, profiles`connections
    ensures Ready(manager, pinned) && fresh(manager.objects - old(manager.objects)) && old(manager.objects) <= manager.objects
    ensures manager.Active() == if loads == [] then old(manager.Active()) else profiles[loads[|loads| - 1]].pluginsToLoad + pinned
  {
    LoadInTurn(manager, Objects(profiles, loads));
  }

  /** One call on the profile manager, and the profiles that it loads. */
  method PerformNext(st: Stack.State, c: Stack.Call, n: nat) returns (next: Stack.State, loads: seq<nat>)
    requires st.reactions == [] && Below(Stack.Stack(st), n) && (c.Push? ==> c.profile < n)
    ensures next == Stack.Step(st, c) && Below(Stack.Stack(next), n) && Below(next.profiles, n) && Below(loads, n)
    ensures next.profiles == [] || LastIsCurrent(loads, st.profiles, next.profiles)
  {
    StepCurrent(st, c);
    next, loads := Stack.Step(st, c), LoadsOf(st, c);
    assert Stack.Stack(next) == Stack.Applied(Stack.Stack(st), c);
    PartsBelow(st.queue, st.profiles, n);
    if c.Push? {
      PartsBelow([c.profile], st.queue, n);
      PartsBelow([c.profile], Stack.Stack(st), n);
      LoadsBelow(Stack.Queued(st, c.profile), n);
    } else if c.Thaw? {
      LoadsBelow(Stack.Thawed(st), n);
    }
    PartsBelow(next.queue, next.profiles, n);
  }

  /** What that does to the plugins. */
  method Switch(manager: PluginManager, profiles: seq<Profile>, st: Stack.State, next: Stack.State, loads: seq<nat>,
                ghost pinned: set<PluginHandle>)
    requires Below(st.profiles, |profiles|) && Below(next.profiles, |profiles|) && Below(loads, |profiles|)
    requires next.profiles == [] || LastIsCurrent(loads, st.profiles, next.profiles)
    requires Ready(manager, pinned) && Loadable(manager, profiles, pinned) && Follows(manager, profiles, st, pinned)
    modifies manager`activatedPlugins, manager`pluginsCache, manager`emitted, manager`objects, manager.objects`activated
    modifies manager.index.Values`canUnload, profiles`connections
    ensures Ready(manager, pinned) && fresh(manager.objects - old(manager.objects)) && old(manager.objects) <= manager.objects
    ensures Loadable(manager, profiles, pinned) && Follows(manager, profiles, next, pinned)
  {
    if st.profiles != [] && next.profiles != st.profiles {
      profiles[st.profiles[0]].Disconnect();
    }
    LoadAll(manager, profiles, loads, pinned);
  }

  /** After the first k calls the others lead to the end of the run. */
  ghost predicate Performed(calls: seq<Stack.Call>, k: nat, st: Stack.State, n: nat) {
    && k <= |calls| && Stack.Perform(st, calls[k..]) == Stack.Perform(Stack.EMPTY, calls) && st.reactions == []
    && Below(Stack.Stack(st), n) && Below(st.profiles, n)
  }

  lemma PerformFirst(calls: seq<Stack.Call>, k: nat, st: Stack.State)
    requires k < |calls|
    ensures Stack.Perform(st, calls[k..]) == Stack.Perform(Stack.Step(st, calls[k]), calls[k + 1..])
  {
    assert calls[k..][1..] == calls[k + 1..];
  }

  method PerformTurn(manager: PluginManager, profiles: seq<Profile>, calls: seq<Stack.Call>, k: nat, st: Stack.State,
                     ghost pinned: set<PluginHandle>)
    returns (next: Stack.State)
    requires k < |calls| && Performed(calls, k, st, |profiles|) && (calls[k].Push? ==> calls[k].profile < |profiles|)
    requires Ready(manager, pinned) && Loadable(manager, profiles, pinned) && Follows(manager, profiles, st, pinned)
    modifies manager`activatedPlugins, manager`pluginsCache, manager`emitted, manager`objects, manager.objects`activated
    modifies manager.index.Values`canUnload, profiles`connections
    ensures Ready(manager, pinned) && fresh(manager.objects - old(manager.objects)) && old(manager.objects) <= manager.objects
    ensures Performed(calls, k + 1, next, |profiles|)
    ensures Loadable(manager, profiles, pinned) && Follows(manager, profiles, next, pinned)
  {
    var loads;
    PerformFirst(calls, k, st);
    next, loads := PerformNext(st, calls[k], |profiles|);
    Switch(manager, profiles, st, next, loads, pinned);
  }

  /** The calls one after the other. */
  method PerformCalls(manager: PluginManager, profiles: seq<Profile>, calls: seq<Stack.Call>, ghost pinned: set<PluginHandle>)
    returns (st: Stack.State)
    requires Ready(manager, pinned) && Loadable(manager, profiles, pinned)
    requires forall c | c in calls :: c.Push? ==> c.profile < |profiles|
    modifies manager`activatedPlugins, manager`pluginsCache, manager`emitted, manager`objects, manager.objects`activated
    modifies manager.index.Values`canUnload, profiles`connections
    ensures st == Stack.Perform(Stack.EMPTY, calls) && Below(st.profiles, |profiles|)
    ensures Ready(manager, pinned) && Follows(manager, profiles, st, pinned)
  {
    st := Stack.EMPTY;
    assert calls[0..] == calls;
    var k := 0;
    while k < |calls|
      invariant 0 <= k <= |calls| && Performed(calls, k, st, |profiles|)
      invariant Ready(manager, pinned) && fresh(manager.objects - old(manager.objects)) && old(manager.objects) <= manager.objects
      invariant Loadable(manager, profiles, pinned) && Follows(manager, profiles, st, pinned)
    {
      st := PerformTurn(manager, profiles, calls, k, st, pinned);
      k := k + 1;
    }
    assert calls[k..] == [];
  }

  /** A whole run, from an empty manager.  When it ends unfrozen, the active plugins are
      those of the profile on top of the stack of the calls, and the pinned ones. */
  method PerformAll(manager: PluginManager, profiles: seq<Profile>, calls: seq<Stack.Call>)
    requires Ready(manager, Unloadable(manager.index)) && Loadable(manager, profiles, Unloadable(manager.index))
    requires forall c | c in calls :: c.Push? ==> c.profile < |profiles|
    modifies manager`activatedPlugins, manager`pluginsCache, manager`emitted, manager`objects, manager.objects`activated
    modifies manager.index.Values`canUnload, profiles`connections
    ensures Ready(manager, old(Unloadable(manager.index)))
    ensures var stack := Stack.AppliedAll([], calls);
            stack != [] && Stack.Perform(Stack.EMPTY, calls).freezeCount == 0 ==>
              stack[0] < |profiles| && manager.Active() == profiles[stack[0]].pluginsToLoad + Unloadable(manager.index)
  {
    RunEnds(calls);
    var st := PerformCalls(manager, profiles, calls, Unloadable(manager.index));
  }
}

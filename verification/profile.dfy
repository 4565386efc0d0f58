/** Profiles, libanjuta/anjuta-profile.c: loading one exchanges the set of active
    plugins.  The XML reader is not part of this model; the plugins that it selects
    are the initial `pluginsToLoad`. */
module Profiles {
  import opened PluginGraph
  import opened PluginManagement

  const SYSTEM_PROFILE_NAME := "system"

  /** The active plugins that must not be unloaded. */
  ghost function Pinned(active: set<PluginHandle>): set<PluginHandle>
    reads active
  {
    set h | h in active && !h.canUnload
  }

  /** Every name resolves, no callback refuses, and nothing active lacks a dependency. */
  ghost predicate Orderly(index: Index, active: set<PluginHandle>, refusing: set<PluginHandle>) {
    AllKnown(index) && refusing == {} && active <= index.Values && Closed(index, active)
  }

  /** The plugins that no profile unloads. */
  ghost function Unloadable(index: Index): set<PluginHandle>
    reads index.Values`canUnload
  {
    set h | h in index.Values && !h.canUnload
  }

  /** The active set that loading a profile with plugins `wanted` leaves, when the
      set that it keeps is closed under dependencies. */
  function Switched(active: set<PluginHandle>, wanted: set<PluginHandle>, pinned: set<PluginHandle>): set<PluginHandle> {
    wanted + active * pinned
  }

  /** A loaded profile describes the active set. */
  predicate InSync(active: set<PluginHandle>, wanted: set<PluginHandle>, pinned: set<PluginHandle>) {
    active == Switched(active, wanted, pinned)
  }

  /** A signal as a loaded profile follows it: plugins excluded from sessions are not
      added to it. */
  function Followed(wanted: set<PluginHandle>, e: Event, excluded: set<PluginHandle>): set<PluginHandle> {
    if e.Activated? && e.handle in excluded then wanted else Apply(wanted, e)
  }

  /** The plugins of a profile after a sequence of signals. */
  function FollowedAll(wanted: set<PluginHandle>, events: seq<Event>, excluded: set<PluginHandle>): set<PluginHandle> {
    if events == [] then wanted
    else Followed(FollowedAll(wanted, events[..|events| - 1], excluded), events[|events| - 1], excluded)
  }

  lemma {:induction false} FollowedWithin(active: set<PluginHandle>, wanted: set<PluginHandle>, pinned: set<PluginHandle>,
                                          events: seq<Event>, excluded: set<PluginHandle>)
    requires InSync(active, wanted, pinned)
    ensures var followed, after := FollowedAll(wanted, events, excluded), Replay(active, events);
            followed <= after <= followed + pinned + excluded
    decreases |events|
  {
    if events != [] {
      FollowedWithin(active, wanted, pinned, events[..|events| - 1], excluded);
    }
  }

  /** Following the signals keeps a loaded profile in step with the active set exactly
      when every active plugin that is excluded from sessions belongs to the profile, or
      is pinned, all the same. */
  lemma FollowKeepsSync(active: set<PluginHandle>, wanted: set<PluginHandle>, pinned: set<PluginHandle>,
                        events: seq<Event>, excluded: set<PluginHandle>)
    requires InSync(active, wanted, pinned)
    ensures var followed, after := FollowedAll(wanted, events, excluded), Replay(active, events);
            InSync(after, followed, pinned) <==> after * excluded <= followed + pinned
  {
    FollowedWithin(active, wanted, pinned, events, excluded);
    var followed, after := FollowedAll(wanted, events, excluded), Replay(active, events);
    if after * excluded <= followed + pinned {
      forall h | h in after
        ensures h in Switched(after, followed, pinned)
      {
        assert h in followed + pinned + excluded && (h in excluded ==> h in after * excluded);
      }
    }
  }

  /** Activating an excluded plugin puts the profile out of step. */
  lemma ExcludedOutOfStep(h: PluginHandle)
    ensures InSync({}, {}, {}) && !InSync(Replay({}, [Activated(h)]), FollowedAll({}, [Activated(h)], {h}), {})
  {
    var one := [Activated(h)];
    assert one[..0] == [];
  }

  /** The active sets of a run of profile loads, one after the other. */
  function Run(active: set<PluginHandle>, loads: seq<set<PluginHandle>>, pinned: set<PluginHandle>): set<PluginHandle>
    decreases |loads|
  {
    if loads == [] then active
    else Switched(Run(active, loads[..|loads| - 1], pinned), loads[|loads| - 1], pinned)
  }

  /** Over any run of loads of closed plugin sets: pinned plugins stay active, the
      active set stays closed, and it is the last set loaded plus the pinned plugins.
      In particular pushing profiles and popping back to one that was in step
      restores the active set. */
  lemma {:induction false} RunKeepsPinned(index: Index, active: set<PluginHandle>, loads: seq<set<PluginHandle>>,
                                                pinned: set<PluginHandle>)
    requires pinned <= active && Closed(index, pinned) && Closed(index, active)
    requires forall t | t in loads :: Closed(index, t)
    ensures var after := Run(active, loads, pinned);
            && pinned <= after && Closed(index, after)
            && (loads != [] ==> after == loads[|loads| - 1] + pinned)
            && (loads != [] && InSync(active, loads[|loads| - 1], pinned) ==> after == active)
    decreases |loads|
  {
    if loads != [] {
      var n := |loads| - 1;
      RunKeepsPinned(index, active, loads[..n], pinned);
      assert loads[n] in loads;
      assert Closed(index, loads[n] + pinned);
    }
  }

  /** What is left of the active plugins when those of `out` have been unloaded, and with
      them all that need them. */
  ghost function Left(index: Index, active: set<PluginHandle>, out: set<PluginHandle>): set<PluginHandle> {
    set p | p in active && ({p} + Closure(index, p)) !! out
  }

  /** All that some plugins need. */
  ghost function Needed(index: Index, plugins: set<PluginHandle>): set<PluginHandle> {
    set q | q in index.Values && exists p :: p in plugins && DependsOn(index, p, q)
  }

  ghost function Joined(index: Index, active: set<PluginHandle>, plugins: set<PluginHandle>): set<PluginHandle> {
    active + plugins + Needed(index, plugins)
  }

  /** The active set after a load: what is not to be kept goes, with all that need it, and
      what was not active comes in, with all that it needs.  A wanted plugin that has to go
      with another does not come back. */
  ghost function Loaded(index: Index, before: set<PluginHandle>, wanted: set<PluginHandle>, kept: set<PluginHandle>): set<PluginHandle> {
    Joined(index, Left(index, before, before - kept), wanted - before)
  }

  lemma LeftClosed(index: Index, before: set<PluginHandle>, out: set<PluginHandle>)
    requires Closed(index, before) && before <= index.Values
    ensures Closed(index, Left(index, before, out))
  {
    var left := Left(index, before, out);
    forall p, q | p in left && q in Closure(index, p)
      ensures q in left
    {
      forall r | r in Closure(index, q)
        ensures r !in out
      {
        DependsTransitive(index, p, q, r);
        assert r in Closure(index, p);
      }
    }
  }

  lemma JoinedClosed(index: Index, active: set<PluginHandle>, plugins: set<PluginHandle>)
    requires Closed(index, active) && active <= index.Values
    ensures Closed(index, Joined(index, active, plugins))
  {
    var joined := Joined(index, active, plugins);
    forall p, q | p in joined && q in Closure(index, p)
      ensures q in joined
    {
      if p !in active && p !in plugins {
        var r :| r in plugins && DependsOn(index, r, p);
        DependsTransitive(index, r, p, q);
      }
    }
  }

  /** A load ends with a closed set; it is the kept one exactly when that is closed. */
  lemma LoadedIs(index: Index, before: set<PluginHandle>, wanted: set<PluginHandle>, kept: set<PluginHandle>)
    requires Closed(index, before) && before <= index.Values && wanted <= kept <= wanted + before
    ensures Closed(index, Loaded(index, before, wanted, kept))
    ensures Loaded(index, before, wanted, kept) == kept <==> Closed(index, kept)
  {
    var left := Left(index, before, before - kept);
    LeftClosed(index, before, before - kept);
    JoinedClosed(index, left, wanted - before);
    if Closed(index, kept) {
      forall p | p in before * kept
        ensures p in left
      {
        assert Closure(index, p) <= kept;
      }
      forall q | q in Needed(index, wanted - before)
        ensures q in kept
      {
        var p :| p in wanted - before && DependsOn(index, p, q);
        assert q in Closure(index, p) && Closure(index, p) <= kept;
      }
    }
  }

  /** A profile that lists a plugin without what it needs, loaded while both are active:
      what it needs is unloaded, takes the plugin along, and neither comes back. */
  lemma IncompleteProfile(p: PluginHandle, q: PluginHandle)
    requires p.dependencyNames == ["q"] && q.dependencyNames == []
    ensures var index := map["p" := p, "q" := q];
            Closed(index, {p, q}) && Loaded(index, {p, q}, {p}, {p}) == {}
  {
    var index := map["p" := p, "q" := q];
    assert index["q"] == q && index["p"] == p && Edge(index, p, q);
    EdgeDepends(index, p, q);
    assert index.Values == {p, q};
    assert q in Closure(index, p) && q in {p, q} - {p};
    assert Left(index, {p, q}, {p, q} - {p}) == {};
    assert {p} - {p, q} == {};
  }

  /** Unloading what is not kept has come down to `active`, with `rest` still to be looked
      at. */
  ghost predicate Emptied(index: Index, before: set<PluginHandle>, refusing: set<PluginHandle>, kept: set<PluginHandle>,
                          rest: set<PluginHandle>, active: set<PluginHandle>) {
    && active <= before && rest <= before
    && (Orderly(index, before, refusing) ==> active == Left(index, before, before - rest - kept))
  }

  lemma NothingEmptied(index: Index, before: set<PluginHandle>, refusing: set<PluginHandle>, kept: set<PluginHandle>)
    ensures Emptied(index, before, refusing, kept, before, before)
  {
    assert before - before - kept == {};
  }

  lemma KeptOne(index: Index, before: set<PluginHandle>, refusing: set<PluginHandle>, kept: set<PluginHandle>,
                rest: set<PluginHandle>, active: set<PluginHandle>, handle: PluginHandle)
    requires Emptied(index, before, refusing, kept, rest, active) && handle in rest && handle in kept
    ensures Emptied(index, before, refusing, kept, rest - {handle}, active)
  {
    assert before - (rest - {handle}) - kept == before - rest - kept;
  }

  lemma LeftOne(index: Index, before: set<PluginHandle>, out: set<PluginHandle>, handle: PluginHandle)
    requires Closed(index, before) && before <= index.Values && handle in before
    ensures Left(index, before, out + {handle}) == SetUpdate(index, Left(index, before, out), handle, false, {})
  {
    var left := Left(index, before, out);
    LeftClosed(index, before, out);
    forall p | p in left
      ensures p in Left(index, before, out + {handle}) <==> p in SetUpdate(index, left, handle, false, {})
    {
      assert handle in Closure(index, p) ==> handle in left;
    }
  }

  lemma UnloadOne(index: Index, before: set<PluginHandle>, refusing: set<PluginHandle>, kept: set<PluginHandle>,
                  rest: set<PluginHandle>, active: set<PluginHandle>, handle: PluginHandle)
    requires Emptied(index, before, refusing, kept, rest, active) && before <= index.Values && handle in rest && handle !in kept
    ensures Emptied(index, before, refusing, kept, rest - {handle}, SetUpdate(index, active, handle, false, refusing))
  {
    if Orderly(index, before, refusing) {
      assert before - (rest - {handle}) - kept == (before - rest - kept) + {handle};
      LeftOne(index, before, before - rest - kept, handle);
    }
  }

  lemma JoinOne(index: Index, active: set<PluginHandle>, plugins: set<PluginHandle>, handle: PluginHandle)
    requires AllKnown(index) && active <= index.Values && Closed(index, active) && plugins <= index.Values && handle in index.Values
    ensures Joined(index, active, plugins + {handle}) == SetUpdate(index, Joined(index, active, plugins), handle, true, {})
  {
    var joined := Joined(index, active, plugins);
    JoinedClosed(index, active, plugins);
    forall p | p in index.Values
      ensures !Blocked(index, p)
    {
      KnownNotBlocked(index, p);
    }
    assert Joined(index, active, plugins + {handle}) == joined + {handle} + Closure(index, handle);
    assert Wanted(index, handle) == {handle} + Closure(index, handle);
  }

  class Profile {
    const name: string
    const manager: PluginManager
    var pluginsToLoad: set<PluginHandle>
    var connections: nat  // live connections to the signals of the plugin manager

    constructor (name: string, manager: PluginManager, plugins: set<PluginHandle>)
      ensures this.name == name && this.manager == manager && pluginsToLoad == plugins && connections == 0
    {
      this.name, this.manager := name, manager;
      pluginsToLoad, connections := plugins, 0;
    }

    ghost predicate Valid()
      reads this`pluginsToLoad, manager, manager.objects
      reads manager.index.Values`dependencies, manager.index.Values`dependents, manager.index.Values`canLoad
    {
      manager.Valid() && pluginsToLoad <= manager.index.Values
    }

    /** One turn of the first loop of anjuta_profile_load: a plugin is unloaded if it is
        neither wanted nor pinned. */
    method UnloadTurn(handle: PluginHandle, refusing: set<PluginHandle>, ghost before: set<PluginHandle>,
                      ghost kept: set<PluginHandle>, ghost rest: set<PluginHandle>)
      requires Valid() && handle in rest && before <= manager.index.Values && kept == pluginsToLoad + Pinned(before)
      requires Emptied(manager.index, before, refusing, kept, rest, manager.Active())
      modifies manager`activatedPlugins, manager`pluginsCache, manager`emitted, manager`objects, manager.objects`activated
      ensures Valid() && fresh(manager.objects - old(manager.objects)) && old(manager.objects) <= manager.objects
      ensures Emptied(manager.index, before, refusing, kept, rest - {handle}, manager.Active())
    {
      if handle.canUnload && handle !in pluginsToLoad {
        UnloadOne(manager.index, before, refusing, kept, rest, manager.Active(), handle);
        var gone, events := manager.UnloadPluginByHandle(handle, refusing);
      } else {
        KeptOne(manager.index, before, refusing, kept, rest, manager.Active(), handle);
      }
    }

    /** The first loop of anjuta_profile_load: unload what is neither wanted nor pinned. */
    method UnloadOthers(refusing: set<PluginHandle>) returns (ghost kept: set<PluginHandle>)
      requires Valid()
      modifies manager`activatedPlugins, manager`pluginsCache, manager`emitted, manager`objects, manager.objects`activated
      ensures Valid() && fresh(manager.objects - old(manager.objects)) && old(manager.objects) <= manager.objects
      ensures kept == pluginsToLoad + old(Pinned(manager.Active()))
      ensures Emptied(manager.index, old(manager.Active()), refusing, kept, {}, manager.Active())
    {
      ghost var before := manager.Active();
      kept := pluginsToLoad + Pinned(before);
      NothingEmptied(manager.index, before, refusing, kept);
      var rest := manager.Active();
      while rest != {}
        invariant Valid() && fresh(manager.objects - old(manager.objects)) && old(manager.objects) <= manager.objects
        invariant Emptied(manager.index, before, refusing, kept, rest, manager.Active())
        decreases rest
      {
        var handle :| handle in rest;
        UnloadTurn(handle, refusing, before, kept, rest);
        rest := rest - {handle};
      }
    }

    /** anjuta_plugin_manager_activate_plugins */
    method ActivatePlugins(plugins: set<PluginHandle>, refusing: set<PluginHandle>)
      requires Valid() && plugins <= manager.index.Values
      modifies manager`activatedPlugins, manager`pluginsCache, manager`emitted, manager`objects, manager.objects`activated
      ensures Valid() && fresh(manager.objects - old(manager.objects)) && old(manager.objects) <= manager.objects
      ensures old(manager.Active()) <= manager.Active()
      ensures Orderly(manager.index, old(manager.Active()), refusing) ==>
                manager.Active() == Joined(manager.index, old(manager.Active()), plugins)
    {
      ghost var index := manager.index;
      ghost var before := manager.Active();
      ghost var orderly := Orderly(index, before, refusing);
      ghost var done: set<PluginHandle> := {};
      var rest := plugins;
      while rest != {}
        invariant Valid() && fresh(manager.objects - old(manager.objects)) && old(manager.objects) <= manager.objects
        invariant before <= manager.Active() && done + rest == plugins
        invariant orderly ==> manager.Active() == Joined(index, before, done)
        decreases rest
      {
        var handle :| handle in rest;
        if orderly {
          JoinOne(index, before, done, handle);
        }
        var instance, events := manager.GetPluginByHandle(handle, refusing);
        rest, done := rest - {handle}, done + {handle};
      }
    }

    /** The system profile lets no other profile unload what it activates. */
    method Pin(plugins: set<PluginHandle>)
      requires Valid() && plugins <= manager.index.Values
      modifies manager.index.Values`canUnload
      ensures Valid()
      ensures forall h | h in manager.index.Values ::
                h.canUnload == (old(h.canUnload) && !(name == SYSTEM_PROFILE_NAME && h in plugins))
    {
      if name != SYSTEM_PROFILE_NAME {
        return;
      }
      var rest := plugins;
      while rest != {}
        invariant rest <= plugins
        invariant Valid()
        invariant forall h | h in manager.index.Values :: h.canUnload == (old(h.canUnload) && h !in plugins - rest)
        decreases rest
      {
        var handle :| handle in rest;
        handle.canUnload := false;
        rest := rest - {handle};
      }
    }

    /** The end of a load, after what is not in `kept` has been unloaded. */
    method ActivateRest(plugins: set<PluginHandle>, refusing: set<PluginHandle>,
                        ghost before: set<PluginHandle>, ghost kept: set<PluginHandle>)
      requires Valid() && plugins == pluginsToLoad - before && before <= manager.index.Values
      requires Emptied(manager.index, before, refusing, kept, {}, manager.Active())
      modifies manager`activatedPlugins, manager`pluginsCache, manager`emitted, manager`objects, manager.objects`activated
      ensures Valid() && fresh(manager.objects - old(manager.objects)) && old(manager.objects) <= manager.objects
      ensures Orderly(manager.index, before, refusing) ==>
                manager.Active() == Loaded(manager.index, before, pluginsToLoad, kept)
    {
      if Orderly(manager.index, before, refusing) {
        assert before - {} - kept == before - kept;
        LeftClosed(manager.index, before, before - kept);
      }
      ActivatePlugins(plugins, refusing);
    }

    method PinAndActivate(refusing: set<PluginHandle>, ghost before: set<PluginHandle>, ghost kept: set<PluginHandle>,
                          plugins: set<PluginHandle>)
      requires Valid() && plugins == pluginsToLoad - before && before <= manager.index.Values
      requires Emptied(manager.index, before, refusing, kept, {}, manager.Active())
      modifies manager`activatedPlugins, manager`pluginsCache, manager`emitted, manager`objects, manager.objects`activated
      modifies manager.index.Values`canUnload
      ensures Valid() && fresh(manager.objects - old(manager.objects)) && old(manager.objects) <= manager.objects
      ensures forall h | h in manager.index.Values ::
                h.canUnload == (old(h.canUnload) && !(name == SYSTEM_PROFILE_NAME && h in plugins))
      ensures Orderly(manager.index, before, refusing) ==>
                manager.Active() == Loaded(manager.index, before, pluginsToLoad, kept)
    {
      Pin(plugins);
      ActivateRest(plugins, refusing, before, kept);
    }

    /** anjuta_profile_load, after its XML files have been read. */
    method Load(refusing: set<PluginHandle>) returns (ghost kept: set<PluginHandle>)
      requires Valid()
      modifies manager`activatedPlugins, manager`pluginsCache, manager`emitted, manager`objects, manager.objects`activated
      modifies manager.index.Values`canUnload, this`connections
      ensures Valid() && fresh(manager.objects - old(manager.objects)) && old(manager.objects) <= manager.objects
      ensures connections == old(connections) + 1
      ensures forall h | h in manager.index.Values ::
                h.canUnload == (old(h.canUnload) &&
                                !(name == SYSTEM_PROFILE_NAME && h in pluginsToLoad && h !in old(manager.Active())))
      ensures kept == old(pluginsToLoad + Pinned(manager.Active()))
      ensures Orderly(manager.index, old(manager.Active()), refusing) ==>
                && manager.Active() == Loaded(manager.index, old(manager.Active()), pluginsToLoad, kept)
                && Closed(manager.index, manager.Active()) && (manager.Active() == kept <==> Closed(manager.index, kept))
    {
      var activePlugins := manager.Active();
      kept := UnloadOthers(refusing);
      PinAndActivate(refusing, activePlugins, kept, pluginsToLoad - activePlugins);
      if Orderly(manager.index, activePlugins, refusing) {
        LoadedIs(manager.index, activePlugins, pluginsToLoad, kept);
      }
      connections := connections + 1;
    }

    /** A load over a closed set of plugins that are active and not to be unloaded, to
        which it adds nothing. */
    method LoadOver(ghost pinned: set<PluginHandle>)
      requires Valid() && Orderly(manager.index, manager.Active(), {})
      requires pinned == Unloadable(manager.index) <= manager.Active() && Closed(manager.index, pinned)
      requires Closed(manager.index, pluginsToLoad) && (name == SYSTEM_PROFILE_NAME ==> pluginsToLoad <= pinned)
      modifies manager`activatedPlugins, manager`pluginsCache, manager`emitted, manager`objects, manager.objects`activated
      modifies manager.index.Values`canUnload, this`connections
      ensures Valid() && fresh(manager.objects - old(manager.objects)) && old(manager.objects) <= manager.objects
      ensures Orderly(manager.index, manager.Active(), {}) && Unloadable(manager.index) == pinned
      ensures manager.Active() == pluginsToLoad + pinned && connections == old(connections) + 1
    {
      assert Pinned(manager.Active()) == pinned;
      ghost var kept := Load({});
    }

    /** The load of a system profile when nothing is active: all its plugins get pinned. */
    method LoadPinning()
      requires Valid() && AllKnown(manager.index) && manager.Active() == {} && Unloadable(manager.index) == {}
      requires name == SYSTEM_PROFILE_NAME && Closed(manager.index, pluginsToLoad)
      modifies manager`activatedPlugins, manager`pluginsCache, manager`emitted, manager`objects, manager.objects`activated
      modifies manager.index.Values`canUnload, this`connections
      ensures Valid() && fresh(manager.objects - old(manager.objects)) && old(manager.objects) <= manager.objects
      ensures Orderly(manager.index, manager.Active(), {})
      ensures manager.Active() == Unloadable(manager.index) == pluginsToLoad && connections == old(connections) + 1
    {
      assert Pinned({}) == {};
      ghost var kept := Load({});
      assert kept == pluginsToLoad;
    }

    /** anjuta_profile_unload: the profile stops following the plugin manager. */
    method Disconnect()
      modifies this`connections
      ensures connections == 0
    {
      connections := 0;
    }

    /** The handlers of the plugin manager's signals: a loaded profile follows what
        the user activates and deactivates, but for plugins excluded from sessions. */
    method Follow(e: Event, excluded: set<PluginHandle>)
      modifies this`pluginsToLoad
      ensures pluginsToLoad == Followed(old(pluginsToLoad), e, excluded)
    {
      match e {
        case Activated(h) =>
          if h !in excluded && h !in pluginsToLoad {
            pluginsToLoad := pluginsToLoad + {h};
          }
        case Deactivated(h) =>
          pluginsToLoad := pluginsToLoad - {h};
      }
    }
  }

  /** Of a list of profiles, only the last of the first i is connected, and once. */
  ghost predicate OnlyLast(profiles: seq<Profile>, i: nat)
    requires i <= |profiles|
    reads profiles
  {
    forall p | p in profiles :: p.connections == if i > 0 && p == profiles[i - 1] then 1 else 0
  }

  /** The next profile of a run: the one before it stops following the plugin manager. */
  method LoadNext(profiles: seq<Profile>, i: nat, ghost pinned: set<PluginHandle>)
    requires i < |profiles| && profiles[i].Valid() && Orderly(profiles[i].manager.index, profiles[i].manager.Active(), {})
    requires pinned == Unloadable(profiles[i].manager.index) <= profiles[i].manager.Active()
    requires Closed(profiles[i].manager.index, pinned) && Closed(profiles[i].manager.index, profiles[i].pluginsToLoad)
    requires profiles[i].name == SYSTEM_PROFILE_NAME ==> profiles[i].pluginsToLoad <= pinned
    modifies profiles[i].manager`activatedPlugins, profiles[i].manager`pluginsCache, profiles[i].manager`emitted
    modifies profiles[i].manager`objects, profiles[i].manager.objects`activated
    modifies profiles[i].manager.index.Values`canUnload, profiles`connections
    ensures var manager := profiles[i].manager;
            && manager.Valid() && Orderly(manager.index, manager.Active(), {})
            && fresh(manager.objects - old(manager.objects)) && old(manager.objects) <= manager.objects
            && Unloadable(manager.index) == pinned && manager.Active() == profiles[i].pluginsToLoad + pinned
    ensures old(OnlyLast(profiles, i)) ==> OnlyLast(profiles, i + 1)
  {
    if i > 0 {
      profiles[i - 1].Disconnect();
    }
    profiles[i].LoadOver(pinned);
  }

  /** A whole run on the plugin manager itself: the profiles are loaded one after the
      other, each after the one before it has been unloaded, as pushes and pops do.  A
      system profile may be among them once its plugins are pinned.  The pinned plugins
      stay active throughout, the active set ends as the plugins of the last profile and
      the pinned ones, and only the last profile is connected. */
  method LoadInTurn(manager: PluginManager, profiles: seq<Profile>)
    requires manager.Valid() && Orderly(manager.index, manager.Active(), {})
    requires Unloadable(manager.index) <= manager.Active() && Closed(manager.index, Unloadable(manager.index))
    requires forall p | p in profiles ::
               && p.manager == manager
               && (p.name == SYSTEM_PROFILE_NAME ==> p.pluginsToLoad <= Unloadable(manager.index))
               && p.pluginsToLoad <= manager.index.Values && Closed(manager.index, p.pluginsToLoad)
    modifies manager`activatedPlugins, manager`pluginsCache, manager`emitted, manager`objects, manager.objects`activated
    modifies manager.index.Values`canUnload, profiles`connections
    ensures manager.Valid() && Orderly(manager.index, manager.Active(), {})
    ensures fresh(manager.objects - old(manager.objects)) && old(manager.objects) <= manager.objects
    ensures Unloadable(manager.index) == old(Unloadable(manager.index)) <= manager.Active()
    ensures manager.Active() ==
            if profiles == [] then old(manager.Active()) else profiles[|profiles| - 1].pluginsToLoad + old(Unloadable(manager.index))
    ensures old(OnlyLast(profiles, 0)) ==> OnlyLast(profiles, |profiles|)
  {
    ghost var pinned := Unloadable(manager.index);
    var i := 0;
    while i < |profiles|
      invariant 0 <= i <= |profiles|
      invariant manager.Valid() && Orderly(manager.index, manager.Active(), {})
      invariant fresh(manager.objects - old(manager.objects)) && old(manager.objects) <= manager.objects
      invariant Unloadable(manager.index) == pinned <= manager.Active()
      invariant manager.Active() == if i == 0 then old(manager.Active()) else profiles[i - 1].pluginsToLoad + pinned
      invariant old(OnlyLast(profiles, 0)) ==> OnlyLast(profiles, i)
    {
      assert profiles[i] in profiles;
      LoadNext(profiles, i, pinned);
      i := i + 1;
    }
  }

  /** The promise of the system profile: loaded first, with nothing active, it pins all
      its plugins; whatever profiles follow, itself included, its plugins stay active. */
  method LoadSystemFirst(manager: PluginManager, system: Profile, profiles: seq<Profile>)
    requires manager.Valid() && AllKnown(manager.index) && manager.Active() == {} && Unloadable(manager.index) == {}
    requires system.manager == manager && system.name == SYSTEM_PROFILE_NAME
    requires system.pluginsToLoad <= manager.index.Values && Closed(manager.index, system.pluginsToLoad)
    requires forall p | p in profiles ::
               && p.manager == manager
               && (p.name == SYSTEM_PROFILE_NAME ==> p.pluginsToLoad <= system.pluginsToLoad)
               && p.pluginsToLoad <= manager.index.Values && Closed(manager.index, p.pluginsToLoad)
    modifies manager`activatedPlugins, manager`pluginsCache, manager`emitted, manager`objects, manager.objects`activated
    modifies manager.index.Values`canUnload, system`connections, profiles`connections
    ensures Unloadable(manager.index) == system.pluginsToLoad <= manager.Active()
    ensures Closed(manager.index, manager.Active())
    ensures manager.Active() ==
            (if profiles == [] then {} else profiles[|profiles| - 1].pluginsToLoad) + system.pluginsToLoad
  {
    system.LoadPinning();
    system.Disconnect();
    LoadInTurn(manager, profiles);
  }
}

/** Activation and deactivation of plugins, libanjuta/anjuta-plugin-manager.c
    and libanjuta/anjuta-plugin.c.

    The "plugin-activated" and "plugin-deactivated" signals are recorded in
    `emitted`, so that what holds between two activations can be stated.  A
    plugin whose callback answers FALSE, or whose object cannot be created, is
    in the set `refusing` of the call. */
module PluginManagement {
  import opened PluginGraph
  import opened DependencyResolution
  import opened Sequences

  /** A plugin object.  `handle` is the user data of its signal connections. */
  class Plugin {
    const handle: PluginHandle
    var activated: bool

    constructor (handle: PluginHandle)
      ensures this.handle == handle && !activated
    {
      this.handle := handle;
      activated := false;
    }
  }

  datatype Event = Activated(handle: PluginHandle) | Deactivated(handle: PluginHandle)

  function Apply(active: set<PluginHandle>, e: Event): set<PluginHandle> {
    match e
    case Activated(h) => active + {h}
    case Deactivated(h) => active - {h}
  }

  /** The active set after a sequence of signals. */
  function Replay(active: set<PluginHandle>, events: seq<Event>): set<PluginHandle> {
    if events == [] then active
    else Apply(Replay(active, events[..|events| - 1]), events[|events| - 1])
  }

  /** Every active plugin has all its dependencies active. */
  ghost predicate Closed(index: Index, active: set<PluginHandle>) {
    forall p | p in active :: Closure(index, p) <= active
  }

  /** The active set is closed before, between and after all the signals. */
  ghost predicate AlwaysClosed(index: Index, active: set<PluginHandle>, events: seq<Event>) {
    forall k {:trigger events[..k]} | 0 <= k <= |events| :: Closed(index, Replay(active, events[..k]))
  }

  lemma ReplayStep(index: Index, active: set<PluginHandle>, events: seq<Event>, e: Event)
    ensures Replay(active, events + [e]) == Apply(Replay(active, events), e)
    ensures AlwaysClosed(index, active, events) && Closed(index, Replay(active, events + [e])) ==>
              AlwaysClosed(index, active, events + [e])
  {
    var more := events + [e];
    assert more[..|more| - 1] == events;
    forall k | 0 <= k <= |events|
      ensures more[..k] == events[..k]
    {
    }
    assert more[..|more|] == more;
  }

  lemma {:induction false} ReplayAppend(active: set<PluginHandle>, e1: seq<Event>, e2: seq<Event>)
    ensures Replay(active, e1 + e2) == Replay(Replay(active, e1), e2)
  {
    if e2 == [] {
      assert e1 + e2 == e1;
    } else {
      var n := |e2| - 1;
      ReplayAppend(active, e1, e2[..n]);
      assert (e1 + e2)[..|e1 + e2| - 1] == e1 + e2[..n];
    }
  }

  lemma ReplayPrefix(active: set<PluginHandle>, e1: seq<Event>, e2: seq<Event>, k: nat)
    requires k <= |e2|
    ensures Replay(active, (e1 + e2)[..|e1| + k]) == Replay(Replay(active, e1), e2[..k])
  {
    assert (e1 + e2)[..|e1| + k] == e1 + e2[..k];
    ReplayAppend(active, e1, e2[..k]);
  }

  /** A run is closed at every step exactly when its parts are. */
  lemma AlwaysClosedAppend(index: Index, active: set<PluginHandle>, e1: seq<Event>, e2: seq<Event>)
    ensures AlwaysClosed(index, active, e1 + e2) <==> AlwaysClosed(index, active, e1) && AlwaysClosed(index, Replay(active, e1), e2)
  {
    forall k | 0 <= k <= |e1|
      ensures (e1 + e2)[..k] == e1[..k]
    {
    }
    forall k | 0 <= k <= |e2|
      ensures Replay(active, (e1 + e2)[..|e1| + k]) == Replay(Replay(active, e1), e2[..k])
    {
      ReplayPrefix(active, e1, e2, k);
    }
    if AlwaysClosed(index, active, e1) && AlwaysClosed(index, Replay(active, e1), e2) {
      forall k | 0 <= k <= |e1 + e2|
        ensures Closed(index, Replay(active, (e1 + e2)[..k]))
      {
        if k > |e1| { assert Closed(index, Replay(Replay(active, e1), e2[..k - |e1|])); }
      }
    }
  }

  /** What a load of `selected` adds. */
  ghost function Wanted(index: Index, selected: PluginHandle): set<PluginHandle> {
    set p | p in {selected} + Closure(index, selected) && p in index.Values && !Blocked(index, p)
  }

  /** What an unload of `selected` takes away. */
  ghost function Unwanted(index: Index, selected: PluginHandle): set<PluginHandle> {
    set p | p in index.Values && (p == selected || selected in Closure(index, p))
  }

  /** plugin_set_update, on sets. */
  ghost function SetUpdate(index: Index, active: set<PluginHandle>, selected: PluginHandle, load: bool,
                           refusing: set<PluginHandle>): set<PluginHandle> {
    if load == (selected in active) then active
    else if load then active + (Wanted(index, selected) - refusing)
    else active - (Unwanted(index, selected) - refusing)
  }

  function Among(list: seq<PluginHandle>, wanted: set<PluginHandle>): set<PluginHandle> {
    set p | p in list && p in wanted
  }

  lemma AmongStep(list: seq<PluginHandle>, wanted: set<PluginHandle>, l: nat)
    requires l < |list|
    ensures Among(list[..l + 1], wanted) == Among(list[..l], wanted) + (if list[l] in wanted then {list[l]} else {})
  {
    assert list[..l + 1] == list[..l] + [list[l]];
  }

  lemma AmongFrom(list: seq<PluginHandle>, wanted: set<PluginHandle>, l: nat)
    requires l < |list|
    ensures Among(list[l..], wanted) == Among(list[l + 1..], wanted) + (if list[l] in wanted then {list[l]} else {})
  {
    assert list[l..] == [list[l]] + list[l + 1..];
  }

  lemma AmongAll(list: seq<PluginHandle>, wanted: set<PluginHandle>)
    requires forall p | p in wanted :: p in list
    ensures Among(list, wanted) == Among(list[..|list|], wanted) == Among(list[0..], wanted) == wanted
    ensures Among(list[..0], wanted) == Among(list[|list|..], wanted) == {}
  {
    assert list[..|list|] == list[0..] == list;
  }

  /** The signal, if any, of activating a plugin of `goal` that is not active. */
  function Start(active: set<PluginHandle>, goal: set<PluginHandle>, p: PluginHandle): seq<Event> {
    if p in goal && p !in active then [Activated(p)] else []
  }

  /** The signal, if any, of deactivating a plugin of `goal` that is active. */
  function Stop(active: set<PluginHandle>, goal: set<PluginHandle>, p: PluginHandle): seq<Event> {
    if p in goal && p in active then [Deactivated(p)] else []
  }

  /** The signals of a loop that goes through the first l plugins and starts those of
      `goal`. */
  function Starts(list: seq<PluginHandle>, l: nat, active: set<PluginHandle>, goal: set<PluginHandle>): seq<Event>
    requires l <= |list|
  {
    if l == 0 then []
    else
      Starts(list, l - 1, active, goal) + Start(active + Among(list[..l - 1], goal), goal, list[l - 1])
  }

  /** The signals of a loop that goes through the plugins from the last down to the l-th
      and stops those of `goal`. */
  function Stops(list: seq<PluginHandle>, l: nat, active: set<PluginHandle>, goal: set<PluginHandle>): seq<Event>
    requires l <= |list|
    decreases |list| - l
  {
    if l == |list| then []
    else
      Stops(list, l + 1, active, goal) + Stop(active - Among(list[l + 1..], goal), goal, list[l])
  }

  lemma StartReplay(active: set<PluginHandle>, events: seq<Event>, goal: set<PluginHandle>, p: PluginHandle)
    ensures Replay(active, events + Start(Replay(active, events), goal, p))
         == Replay(active, events) + if p in goal then {p} else {}
  {
    assert (events + [Activated(p)])[..|events|] == events && events + [] == events;
  }

  lemma StopReplay(active: set<PluginHandle>, events: seq<Event>, goal: set<PluginHandle>, p: PluginHandle)
    ensures Replay(active, events + Stop(Replay(active, events), goal, p))
         == Replay(active, events) - if p in goal then {p} else {}
  {
    assert (events + [Deactivated(p)])[..|events|] == events && events + [] == events;
  }

  /** The loading loop brings in what it has seen of its goal. */
  lemma {:induction false} StartsReplay(list: seq<PluginHandle>, active: set<PluginHandle>, goal: set<PluginHandle>, l: nat)
    requires l <= |list|
    ensures Replay(active, Starts(list, l, active, goal)) == active + Among(list[..l], goal)
    decreases l
  {
    if l > 0 {
      StartsReplay(list, active, goal, l - 1);
      StartReplay(active, Starts(list, l - 1, active, goal), goal, list[l - 1]);
      AmongStep(list, goal, l - 1);
    }
  }

  /** The unloading loop takes out what it has seen of its goal. */
  lemma {:induction false} StopsReplay(list: seq<PluginHandle>, active: set<PluginHandle>, goal: set<PluginHandle>, l: nat)
    requires l <= |list|
    ensures Replay(active, Stops(list, l, active, goal)) == active - Among(list[l..], goal)
    decreases |list| - l
  {
    if l < |list| {
      StopsReplay(list, active, goal, l + 1);
      StopReplay(active, Stops(list, l + 1, active, goal), goal, list[l]);
      AmongFrom(list, goal, l);
    }
  }

  /** In load order, whatever a plugin needs has been loaded before it. */
  lemma LoadStepClosed(index: Index, list: seq<PluginHandle>, goal: set<PluginHandle>, active: set<PluginHandle>, l: nat)
    requires Lists(index, list) && LoadOrder(index, list) && l <= |list|
    requires Closed(index, active) && Closed(index, active + goal)
    ensures Closed(index, active + Among(list[..l], goal))
  {
    var loaded := active + Among(list[..l], goal);
    forall p | p in loaded
      ensures Closure(index, p) <= loaded
    {
      if p !in active {
        forall q | q in Closure(index, p)
          ensures q in loaded
        {
          var i :| 0 <= i < l && list[i] == p;
          var j :| 0 <= j < |list| && list[j] == q;
          assert DependsOn(index, list[i], list[j]) && j < i;
          assert list[..l][j] == q;
        }
      }
    }
  }

  lemma ComesLater(index: Index, list: seq<PluginHandle>, l: nat, p: PluginHandle, q: PluginHandle)
    requires LoadOrder(index, list) && l <= |list| && p in list && q in list[l..] && DependsOn(index, p, q)
    ensures p in list[l..]
  {
    var j :| l <= j < |list| && list[j] == q;
    var i :| 0 <= i < |list| && list[i] == p;
    assert DependsOn(index, list[i], list[j]);
    assert list[l..][i - l] == p;
  }

  /** In reverse load order, whatever needs a plugin has been unloaded before it. */
  lemma UnloadStepClosed(index: Index, list: seq<PluginHandle>, goal: set<PluginHandle>, active: set<PluginHandle>, l: nat)
    requires Lists(index, list) && LoadOrder(index, list) && l <= |list|
    requires active <= index.Values && Closed(index, active) && Closed(index, active - goal)
    ensures Closed(index, active - Among(list[l..], goal))
  {
    var left := active - Among(list[l..], goal);
    forall p | p in left
      ensures Closure(index, p) <= left
    {
      forall q | q in Closure(index, p)
        ensures q in left
      {
        if q in Among(list[l..], goal) {
          assert p !in active - goal;
          ComesLater(index, list, l, p, q);
        }
      }
    }
  }

  lemma OneMoreClosed(index: Index, active: set<PluginHandle>, events: seq<Event>, step: seq<Event>)
    requires AlwaysClosed(index, active, events) && |step| <= 1 && Closed(index, Replay(active, events + step))
    ensures AlwaysClosed(index, active, events + step)
  {
    if step == [] {
      assert events + step == events;
    } else {
      assert step == [step[0]];
      ReplayStep(index, active, events, step[0]);
    }
  }

  lemma NothingClosed(index: Index, active: set<PluginHandle>)
    ensures AlwaysClosed(index, active, []) <==> Closed(index, active)
  {
    var none: seq<Event> := [];
    assert none[..0] == none;
  }

  lemma StartClosed(index: Index, list: seq<PluginHandle>, goal: set<PluginHandle>, active: set<PluginHandle>, l: nat)
    requires Lists(index, list) && LoadOrder(index, list) && l <= |list|
    requires Closed(index, active) && Closed(index, active + goal)
    ensures Closed(index, Replay(active, Starts(list, l, active, goal)))
  {
    StartsReplay(list, active, goal, l);
    LoadStepClosed(index, list, goal, active, l);
  }

  lemma {:induction false} StartsClosedUpTo(index: Index, list: seq<PluginHandle>, goal: set<PluginHandle>, active: set<PluginHandle>, l: nat)
    requires Lists(index, list) && LoadOrder(index, list) && l <= |list|
    requires Closed(index, active) && Closed(index, active + goal)
    ensures AlwaysClosed(index, active, Starts(list, l, active, goal))
    decreases l
  {
    if l == 0 {
      NothingClosed(index, active);
    } else {
      StartsClosedUpTo(index, list, goal, active, l - 1);
      StartClosed(index, list, goal, active, l);
      OneMoreClosed(index, active, Starts(list, l - 1, active, goal), Start(active + Among(list[..l - 1], goal), goal, list[l - 1]));
    }
  }

  lemma StopClosed(index: Index, list: seq<PluginHandle>, goal: set<PluginHandle>, active: set<PluginHandle>, l: nat)
    requires Lists(index, list) && LoadOrder(index, list) && l <= |list| && active <= index.Values
    requires Closed(index, active) && Closed(index, active - goal)
    ensures Closed(index, Replay(active, Stops(list, l, active, goal)))
  {
    StopsReplay(list, active, goal, l);
    UnloadStepClosed(index, list, goal, active, l);
  }

  lemma {:induction false} StopsClosedDownTo(index: Index, list: seq<PluginHandle>, goal: set<PluginHandle>, active: set<PluginHandle>, l: nat)
    requires Lists(index, list) && LoadOrder(index, list) && l <= |list| && active <= index.Values
    requires Closed(index, active) && Closed(index, active - goal)
    ensures AlwaysClosed(index, active, Stops(list, l, active, goal))
    decreases |list| - l
  {
    if l == |list| {
      NothingClosed(index, active);
    } else {
      StopsClosedDownTo(index, list, goal, active, l + 1);
      StopClosed(index, list, goal, active, l);
      OneMoreClosed(index, active, Stops(list, l + 1, active, goal), Stop(active - Among(list[l + 1..], goal), goal, list[l]));
    }
  }

  /** A run is closed at every step only if it is closed at both ends. */
  lemma ClosedEnds(index: Index, active: set<PluginHandle>, events: seq<Event>)
    requires AlwaysClosed(index, active, events)
    ensures Closed(index, active) && Closed(index, Replay(active, events))
  {
    assert events[..0] == [] && events[..|events|] == events;
  }

  /** Loading in load order is closed at every step exactly when it is at both ends. */
  lemma StartsClosed(index: Index, list: seq<PluginHandle>, goal: set<PluginHandle>, active: set<PluginHandle>)
    requires Lists(index, list) && LoadOrder(index, list) && goal <= index.Values
    ensures Replay(active, Starts(list, |list|, active, goal)) == active + goal
    ensures AlwaysClosed(index, active, Starts(list, |list|, active, goal)) <==> Closed(index, active) && Closed(index, active + goal)
  {
    StartsReplay(list, active, goal, |list|);
    AmongAll(list, goal);
    if AlwaysClosed(index, active, Starts(list, |list|, active, goal)) {
      ClosedEnds(index, active, Starts(list, |list|, active, goal));
    }
    if Closed(index, active) && Closed(index, active + goal) {
      StartsClosedUpTo(index, list, goal, active, |list|);
    }
  }

  /** Unloading in reverse load order is closed at every step exactly when it is at both
      ends. */
  lemma StopsClosed(index: Index, list: seq<PluginHandle>, goal: set<PluginHandle>, active: set<PluginHandle>)
    requires Lists(index, list) && LoadOrder(index, list) && goal <= index.Values && active <= index.Values
    ensures Replay(active, Stops(list, 0, active, goal)) == active - goal
    ensures AlwaysClosed(index, active, Stops(list, 0, active, goal)) <==> Closed(index, active) && Closed(index, active - goal)
  {
    StopsReplay(list, active, goal, 0);
    AmongAll(list, goal);
    if AlwaysClosed(index, active, Stops(list, 0, active, goal)) {
      ClosedEnds(index, active, Stops(list, 0, active, goal));
    }
    if Closed(index, active) && Closed(index, active - goal) {
      StopsClosedDownTo(index, list, goal, active, 0);
    }
  }

  /** When all plugins are asked to stop, those that refuse are left. */
  lemma StopsAll(index: Index, list: seq<PluginHandle>, active: set<PluginHandle>, refusing: set<PluginHandle>)
    requires Lists(index, list) && LoadOrder(index, list) && active <= index.Values
    ensures var events := Stops(list, 0, active, index.Values - refusing);
            && Replay(active, events) == active * refusing
            && (AlwaysClosed(index, active, events) <==> Closed(index, active) && Closed(index, active * refusing))
  {
    StopsClosed(index, list, index.Values - refusing, active);
    assert active - (index.Values - refusing) == active * refusing;
  }

  /** The signals of plugin_set_update. */
  ghost function UpdateEvents(index: Index, list: seq<PluginHandle>, active: set<PluginHandle>, selected: PluginHandle, load: bool,
                              refusing: set<PluginHandle>): seq<Event> {
    if load == (selected in active) then []
    else if load then Starts(list, |list|, active, Wanted(index, selected) - refusing)
    else Stops(list, 0, active, Unwanted(index, selected) - refusing)
  }

  /** An update keeps the active set closed at every step exactly when it was closed and
      ends closed. */
  lemma UpdateClosed(index: Index, list: seq<PluginHandle>, active: set<PluginHandle>, selected: PluginHandle, load: bool,
                     refusing: set<PluginHandle>)
    requires Lists(index, list) && LoadOrder(index, list) && active <= index.Values
    ensures var events := UpdateEvents(index, list, active, selected, load, refusing);
            var after := SetUpdate(index, active, selected, load, refusing);
            && Replay(active, events) == after
            && (AlwaysClosed(index, active, events) <==> Closed(index, active) && Closed(index, after))
  {
    if load == (selected in active) {
      NothingClosed(index, active);
    } else if load {
      StartsClosed(index, list, Wanted(index, selected) - refusing, active);
    } else {
      StopsClosed(index, list, Unwanted(index, selected) - refusing, active);
    }
  }

  /** A load ends closed exactly when everything that it brings in finds its
      dependencies active or brought in with it: they neither refuse nor are known not
      to be loadable. */
  lemma LoadEndsClosed(index: Index, active: set<PluginHandle>, selected: PluginHandle, refusing: set<PluginHandle>)
    requires Closed(index, active) && selected in index.Values && selected !in active
    ensures Closed(index, SetUpdate(index, active, selected, true, refusing)) <==>
            forall p, q | p in Wanted(index, selected) - refusing - active && q in Closure(index, p) - active ::
              q !in refusing && !Blocked(index, q)
  {
    var goal := Wanted(index, selected) - refusing;
    forall p, q | p in goal && q in Closure(index, p)
      ensures q in {selected} + Closure(index, selected)
    {
      if p != selected { DependsTransitive(index, selected, p, q); }
    }
    if Closed(index, active + goal) {
      forall p, q | p in goal - active && q in Closure(index, p) - active
        ensures q in goal
      {
        assert Closure(index, p) <= active + goal;
      }
    }
  }

  /** A plugin is activated although the one that it needs refuses. */
  lemma RefusalLeavesGap(p: PluginHandle, q: PluginHandle)
    requires p.dependencyNames == ["q"] && q.dependencyNames == []
    ensures var index := map["p" := p, "q" := q];
            && Closed(index, {}) && SetUpdate(index, {}, p, true, {q}) == {p} && !Closed(index, {p})
  {
    var index := map["p" := p, "q" := q];
    assert index["p"] == p && index["q"] == q && index.Values == {p, q} && Edge(index, p, q);
    EdgeDepends(index, p, q);
    KnownNotBlocked(index, p);
    assert q in Closure(index, p);
  }

  /** An unload ends closed exactly when no active plugin that refuses to stop needs one
      that stops. */
  lemma UnloadEndsClosed(index: Index, active: set<PluginHandle>, selected: PluginHandle, refusing: set<PluginHandle>)
    requires Closed(index, active) && selected in active && active <= index.Values
    ensures Closed(index, SetUpdate(index, active, selected, false, refusing)) <==>
            forall p, q | p in active && p in refusing && q in Closure(index, p) && q in Unwanted(index, selected) :: q in refusing
  {
    var goal := Unwanted(index, selected) - refusing;
    forall p, q | p in active && q in Closure(index, p) && q in goal
      ensures p in Unwanted(index, selected)
    {
      if q != selected { DependsTransitive(index, p, q, selected); }
    }
    if Closed(index, active - goal) {
      forall p, q | p in active && p in refusing && q in Closure(index, p) && q in Unwanted(index, selected)
        ensures q in refusing
      {
        assert Closure(index, p) <= active - goal;
      }
    }
  }

  /** The plugin manager's tables and objects at one moment: the table of active plugins,
      the cache, the objects made so far and those among them that are activated. */
  datatype Registry = Registry(active: map<PluginHandle, Plugin>, cache: map<PluginHandle, Plugin>, objects: set<Plugin>, live: set<Plugin>) {

    /** A handle is active or cached or neither; its object knows which. */
    ghost predicate Right(index: Index) {
      && active.Keys + cache.Keys <= index.Values && active.Keys !! cache.Keys && live <= objects
      && (forall h | h in active :: active[h] in live && active[h].handle == h)
      && (forall h | h in cache :: cache[h] in objects && cache[h] !in live && cache[h].handle == h)
    }

    /** Of all the objects made so far, exactly those in the table of active plugins are
        activated; so no handle has two live objects. */
    ghost predicate FlagsRight() {
      forall o | o in objects :: o in live <==> o.handle in active && active[o.handle] == o
    }

    /** The object of a handle, if it has one. */
    function Object(h: PluginHandle): Plugin? {
      if h in active then active[h] else if h in cache then cache[h] else null
    }

    /** What every operation but the last keeps: no handle loses or changes its object, a
        handle that gets one gets a new one, objects that have been forgotten are left
        alone, and the flags stay right. */
    ghost predicate Onwards(r: Registry) {
      && objects <= r.objects
      && (forall h {:trigger r.Object(h)} | h in active.Keys + cache.Keys :: r.Object(h) == Object(h))
      && (forall h {:trigger r.Object(h)} | h in r.active.Keys + r.cache.Keys :: r.Object(h) == Object(h) || r.Object(h) !in objects)
      && (forall o | o in objects && Object(o.handle) != o :: o in live <==> o in r.live)
      && (FlagsRight() ==> r.FlagsRight())
    }

    function With(o: Plugin): Registry {
      this.(objects := objects + {o})
    }

    function WithActive(o: Plugin): Registry {
      Registry(active[o.handle := o], cache - {o.handle}, objects, live + {o})
    }

    function WithoutTables(): Registry {
      Registry(map[], map[], objects, live)
    }

    function WithInactive(o: Plugin): Registry {
      Registry(active - {o.handle}, cache[o.handle := o], objects, live - {o})
    }
  }

  lemma OnwardsTransitive(a: Registry, b: Registry, c: Registry)
    requires a.Onwards(b) && b.Onwards(c)
    ensures a.Onwards(c)
  {
    forall h | h in a.active.Keys + a.cache.Keys
      ensures c.Object(h) == a.Object(h)
    {
      assert b.Object(h) == a.Object(h);
    }
    forall h | h in c.active.Keys + c.cache.Keys
      ensures c.Object(h) == a.Object(h) || c.Object(h) !in a.objects
    {
      assert c.Object(h) == b.Object(h) || c.Object(h) !in b.objects;
    }
    forall o | o in a.objects && a.Object(o.handle) != o
      ensures o in a.live <==> o in c.live
    {
      assert b.Object(o.handle) != o;
    }
  }

  /** A handle without active object gets its cached object again, or a new one. */
  lemma ActivatedRight(index: Index, r: Registry, o: Plugin)
    requires r.Right(index) && o.handle in index.Values && o.handle !in r.active
    requires if o.handle in r.cache then r.cache[o.handle] == o else o !in r.objects
    ensures r.With(o).Right(index) && r.Onwards(r.With(o))
    ensures r.With(o).WithActive(o).Right(index) && r.Onwards(r.With(o).WithActive(o))
  {
  }

  lemma DeactivatedRight(index: Index, r: Registry, h: PluginHandle)
    requires r.Right(index) && h in r.active
    ensures r.WithInactive(r.active[h]).Right(index) && r.Onwards(r.WithInactive(r.active[h]))
  {
  }

  /** When the tables are dropped, what was active stays activated; so the flags stay right
      exactly when nothing was active. */
  lemma DroppedRight(index: Index, before: Registry, r: Registry)
    requires before.Right(index) && r.Right(index) && before.Onwards(r) && r.active.Keys <= before.active.Keys
    ensures r.WithoutTables().Right(index)
    ensures forall h | h in r.active.Keys :: before.active[h] in r.live
    ensures before.FlagsRight() ==> (r.WithoutTables().FlagsRight() <==> r.active.Keys == {})
  {
    forall h | h in r.active.Keys
      ensures before.active[h] == r.active[h] && r.active[h] in r.live
    {
      assert r.Object(h) == before.Object(h);
    }
    if h :| h in r.active {
      assert r.active[h] in r.live;
    }
  }

  /** After the tables have been dropped, a handle gets a second object, and its first one
      is still as it was. */
  lemma SecondObject(index: Index, before: Registry, r: Registry, first: Plugin)
    requires before.active == before.cache == map[] && first in before.objects
    requires before.Onwards(r) && r.Right(index) && first.handle in r.active
    ensures r.active[first.handle] != first && r.active[first.handle] in r.live
    ensures first in before.live ==> first in r.live
  {
    assert r.Object(first.handle) == before.Object(first.handle) || r.Object(first.handle) !in before.objects;
  }

  class PluginManager {
    const index: Index
    const available: seq<PluginHandle>
    var activatedPlugins: map<PluginHandle, Plugin>
    var pluginsCache: map<PluginHandle, Plugin>
    var emitted: seq<Event>
    ghost var objects: set<Plugin>  // the objects made so far

    function Active(): set<PluginHandle>
      reads this
    {
      activatedPlugins.Keys
    }

    /** What resolution set up and no activation changes. */
    ghost predicate Resolved()
      reads index.Values`dependencies, index.Values`dependents, index.Values`canLoad
    {
      && Acyclic(index)
      && Lists(index, available)
      && Resolution(index)
      && LoadOrder(index, available)
    }

    ghost function Now(): Registry
      reads this, objects
    {
      Registry(activatedPlugins, pluginsCache, objects, set o | o in objects && o.activated)
    }

    ghost predicate Valid()
      reads this, objects, index.Values`dependencies, index.Values`dependents, index.Values`canLoad
    {
      Resolved() && Now().Right(index)
    }

    /** A loop that started from `start`, with the signals `prior`, has gone so far. */
    ghost predicate Reached(start: Registry, prior: seq<Event>, events: seq<Event>, active: set<PluginHandle>)
      reads this, objects, index.Values`dependencies, index.Values`dependents, index.Values`canLoad
    {
      Valid() && start.Onwards(Now()) && emitted == prior + events && Active() == active
    }

    constructor (index: Index, plugins: seq<PluginHandle>, stack: nat)
      requires Lists(index, plugins)
      requires forall h | h in plugins :: h.Untouched()
      modifies index.Values`dependencies, index.Values`dependents,
               index.Values`canLoad, index.Values`checked, index.Values`resolvePass
      ensures this.index == index && Active() == {} && pluginsCache == map[] && emitted == []
      ensures Acyclic(index) ==> Valid()
    {
      var order, warned, done := ResolveDependencies(index, plugins, stack);
      this.index, available := index, order;
      activatedPlugins, pluginsCache, emitted, objects := map[], map[], [], {};
      new;
      if done {
        ListSort.SameElements(order, plugins);
      }
    }

    method OnPluginActivated(plugin: PluginHandle, instance: Plugin)
      modifies this`activatedPlugins, this`pluginsCache, this`emitted
      ensures activatedPlugins == old(activatedPlugins)[plugin := instance]
      ensures pluginsCache == old(pluginsCache) - {plugin}
      ensures emitted == old(emitted) + [Activated(plugin)]
    {
      activatedPlugins := activatedPlugins[plugin := instance];
      pluginsCache := pluginsCache - {plugin};
      emitted := emitted + [Activated(plugin)];
    }

    method OnPluginDeactivated(plugin: PluginHandle, instance: Plugin)
      modifies this`activatedPlugins, this`pluginsCache, this`emitted
      ensures pluginsCache == old(pluginsCache)[plugin := instance]
      ensures activatedPlugins == old(activatedPlugins) - {plugin}
      ensures emitted == old(emitted) + [Deactivated(plugin)]
    {
      pluginsCache := pluginsCache[plugin := instance];
      activatedPlugins := activatedPlugins - {plugin};
      emitted := emitted + [Deactivated(plugin)];
    }

    /** anjuta_plugin_activate. */
    method ActivateObject(instance: Plugin, refusing: set<PluginHandle>) returns (ok: bool)
      requires instance in objects
      modifies this`activatedPlugins, this`pluginsCache, this`emitted, instance`activated
      ensures ok == (!old(instance.activated) && instance.handle !in refusing)
      ensures Now() == if ok then old(Now()).WithActive(instance) else old(Now())
      ensures emitted == old(emitted) + if ok then [Activated(instance.handle)] else []
    {
      if instance.activated {
        return false;
      }
      instance.activated := instance.handle !in refusing;
      if instance.activated {
        OnPluginActivated(instance.handle, instance);
      }
      return instance.activated;
    }

    /** anjuta_plugin_deactivate. */
    method DeactivateObject(instance: Plugin, refusing: set<PluginHandle>) returns (ok: bool)
      requires instance in objects
      modifies this`activatedPlugins, this`pluginsCache, this`emitted, instance`activated
      ensures ok == (old(instance.activated) && instance.handle !in refusing)
      ensures Now() == if ok then old(Now()).WithInactive(instance) else old(Now())
      ensures emitted == old(emitted) + if ok then [Deactivated(instance.handle)] else []
    {
      if !instance.activated {
        return false;
      }
      var success := instance.handle !in refusing;
      instance.activated := !success;
      if !instance.activated {
        OnPluginDeactivated(instance.handle, instance);
      }
      return success;
    }

    /** The cached object of an inactive plugin if there is one, else a new one. */
    method ProvideObject(handle: PluginHandle) returns (instance: Plugin)
      requires handle in pluginsCache ==> pluginsCache[handle] in objects && pluginsCache[handle].handle == handle
      modifies this`objects
      ensures if handle in old(pluginsCache) then instance == old(pluginsCache)[handle] else fresh(instance)
      ensures fresh(objects - old(objects)) && instance.handle == handle && Now() == old(Now()).With(instance)
    {
      if handle in pluginsCache {
        return pluginsCache[handle];
      }
      instance := new Plugin(handle);
      objects := objects + {instance};
    }

    /** Activates an inactive plugin: the cached object again if there is one,
        else a new one. */
    method Activate(handle: PluginHandle, refusing: set<PluginHandle>) returns (instance: Plugin)
      requires Valid() && handle in index.Values && handle !in Active()
      modifies this`activatedPlugins, this`pluginsCache, this`emitted, this`objects, objects`activated
      ensures Valid() && fresh(objects - old(objects)) && old(Now()).Onwards(Now())
      ensures instance.handle == handle
      ensures if handle in old(pluginsCache) then instance == old(pluginsCache)[handle] else fresh(instance)
      ensures Now() == if handle in refusing then old(Now()).With(instance) else old(Now()).With(instance).WithActive(instance)
      ensures emitted == old(emitted) + if handle in refusing then [] else [Activated(handle)]
    {
      ghost var before := Now();
      instance := ProvideObject(handle);
      ActivatedRight(index, before, instance);
      var ok := ActivateObject(instance, refusing);
    }

    method Deactivate(handle: PluginHandle, refusing: set<PluginHandle>)
      requires Valid() && handle in Active()
      modifies this`activatedPlugins, this`pluginsCache, this`emitted, this`objects, objects`activated
      ensures Valid() && objects == old(objects) && old(Now()).Onwards(Now())
      ensures Now() == if handle in refusing then old(Now()) else old(Now()).WithInactive(old(activatedPlugins)[handle])
      ensures emitted == old(emitted) + if handle in refusing then [] else [Deactivated(handle)]
    {
      DeactivatedRight(index, Now(), handle);
      var ok := DeactivateObject(activatedPlugins[handle], refusing);
    }

    /** should_unload: an active plugin goes with `selected` if it is `selected` or
        needs it. */
    predicate ShouldUnload(selected: PluginHandle, plugin: PluginHandle)
      reads this, selected
    {
      plugin in activatedPlugins && (selected == plugin || plugin in selected.dependents)
    }

    /** should_load: an inactive plugin comes with `selected` if it is `selected` or is
        needed by it, and can be loaded. */
    predicate ShouldLoad(selected: PluginHandle, plugin: PluginHandle)
      reads this, selected, plugin
    {
      plugin !in activatedPlugins && (selected == plugin || plugin in selected.dependencies) && plugin.canLoad
    }

    /** The tables give the wanted plugins. */
    lemma WantedLoads(selected: PluginHandle, plugin: PluginHandle)
      requires Resolved() && selected in index.Values && plugin in available
      ensures plugin in index.Values
      ensures ShouldLoad(selected, plugin) <==> plugin in Wanted(index, selected) && plugin !in Active()
    {
      assert plugin in index.Values && Tables(index, selected) && Tables(index, plugin);
    }

    /** One turn of the loading loop. */
    method ConsiderLoading(selected: PluginHandle, plugin: PluginHandle, refusing: set<PluginHandle>, ghost goal: set<PluginHandle>)
      returns (ghost step: seq<Event>)
      requires Valid() && selected in index.Values && plugin in available
      requires goal == Wanted(index, selected) - refusing
      modifies this`activatedPlugins, this`pluginsCache, this`emitted, this`objects, objects`activated
      ensures Valid() && fresh(objects - old(objects)) && old(Now()).Onwards(Now())
      ensures step == Start(old(Active()), goal, plugin)
      ensures Active() == old(Active()) + if plugin in goal then {plugin} else {}
      ensures emitted == old(emitted) + step
    {
      WantedLoads(selected, plugin);
      step := Start(Active(), goal, plugin);
      if ShouldLoad(selected, plugin) {
        var instance := Activate(plugin, refusing);
      }
    }

    /** One turn of the loading loop, and what it has done so far. */
    method LoadTurn(selected: PluginHandle, l: nat, refusing: set<PluginHandle>, ghost goal: set<PluginHandle>,
                    ghost start: Registry, ghost prior: seq<Event>, ghost events: seq<Event>)
      returns (ghost more: seq<Event>)
      requires selected in index.Values && l < |available| && goal == Wanted(index, selected) - refusing
      requires events == Starts(available, l, start.active.Keys, goal)
      requires Reached(start, prior, events, start.active.Keys + Among(available[..l], goal))
      modifies this`activatedPlugins, this`pluginsCache, this`emitted, this`objects, objects`activated
      ensures fresh(objects - old(objects)) && more == Starts(available, l + 1, start.active.Keys, goal)
      ensures Reached(start, prior, more, start.active.Keys + Among(available[..l + 1], goal))
    {
      AmongStep(available, goal, l);
      ghost var now := Now();
      ghost var step := ConsiderLoading(selected, available[l], refusing, goal);
      OnwardsTransitive(start, now, Now());
      Associative(prior, events, step);
      more := events + step;
    }

    /** The loading branch of plugin_set_update. */
    method Load(selected: PluginHandle, refusing: set<PluginHandle>) returns (ghost events: seq<Event>)
      requires Valid() && selected in index.Values && selected !in Active()
      modifies this`activatedPlugins, this`pluginsCache, this`emitted, this`objects, objects`activated
      ensures Valid() && fresh(objects - old(objects)) && old(Now()).Onwards(Now())
      ensures events == Starts(available, |available|, old(Active()), Wanted(index, selected) - refusing)
      ensures emitted == old(emitted) + events
      ensures Active() == old(Active()) + (Wanted(index, selected) - refusing)
    {
      ghost var start, prior, goal := Now(), emitted, Wanted(index, selected) - refusing;
      AmongAll(available, goal);
      events := [];
      var l := 0;
      while l < |available|
        invariant 0 <= l <= |available| && fresh(objects - old(objects))
        invariant events == Starts(available, l, start.active.Keys, goal)
        invariant Reached(start, prior, events, start.active.Keys + Among(available[..l], goal))
      {
        events := LoadTurn(selected, l, refusing, goal, start, prior, events);
        l := l + 1;
      }
    }

    /** One turn of the unloading loop. */
    method ConsiderUnloading(selected: PluginHandle, plugin: PluginHandle, refusing: set<PluginHandle>, ghost goal: set<PluginHandle>)
      returns (ghost step: seq<Event>)
      requires Valid() && selected in index.Values && plugin in available
      requires goal == Unwanted(index, selected) - refusing
      modifies this`activatedPlugins, this`pluginsCache, this`emitted, this`objects, objects`activated
      ensures Valid() && objects == old(objects) && old(Now()).Onwards(Now())
      ensures step == Stop(old(Active()), goal, plugin)
      ensures Active() == old(Active()) - if plugin in goal then {plugin} else {}
      ensures emitted == old(emitted) + step
    {
      assert plugin in index.Values && Tables(index, selected);
      step := Stop(Active(), goal, plugin);
      if ShouldUnload(selected, plugin) {
        Deactivate(plugin, refusing);
      }
    }

    /** One turn of the unloading loop, and what it has done so far. */
    method UnloadTurn(selected: PluginHandle, l: nat, refusing: set<PluginHandle>, ghost goal: set<PluginHandle>,
                      ghost start: Registry, ghost prior: seq<Event>, ghost events: seq<Event>)
      returns (ghost more: seq<Event>)
      requires selected in index.Values && l < |available| && goal == Unwanted(index, selected) - refusing
      requires events == Stops(available, l + 1, start.active.Keys, goal)
      requires Reached(start, prior, events, start.active.Keys - Among(available[l + 1..], goal))
      modifies this`activatedPlugins, this`pluginsCache, this`emitted, this`objects, objects`activated
      ensures objects == old(objects) && more == Stops(available, l, start.active.Keys, goal)
      ensures Reached(start, prior, more, start.active.Keys - Among(available[l..], goal))
    {
      AmongFrom(available, goal, l);
      ghost var now := Now();
      ghost var step := ConsiderUnloading(selected, available[l], refusing, goal);
      OnwardsTransitive(start, now, Now());
      Associative(prior, events, step);
      more := events + step;
    }

    /** The unloading branch of plugin_set_update, which looks at the plugins from last to
        first. */
    method Unload(selected: PluginHandle, refusing: set<PluginHandle>) returns (ghost events: seq<Event>)
      requires Valid() && selected in index.Values && selected in Active()
      modifies this`activatedPlugins, this`pluginsCache, this`emitted, this`objects, objects`activated
      ensures Valid() && objects == old(objects) && old(Now()).Onwards(Now())
      ensures events == Stops(available, 0, old(Active()), Unwanted(index, selected) - refusing)
      ensures emitted == old(emitted) + events
      ensures Active() == old(Active()) - (Unwanted(index, selected) - refusing)
    {
      ghost var start, prior, goal := Now(), emitted, Unwanted(index, selected) - refusing;
      AmongAll(available, goal);
      events := [];
      var l := |available|;
      while l > 0
        invariant 0 <= l <= |available| && objects == old(objects)
        invariant events == Stops(available, l, start.active.Keys, goal)
        invariant Reached(start, prior, events, start.active.Keys - Among(available[l..], goal))
      {
        l := l - 1;
        events := UnloadTurn(selected, l, refusing, goal, start, prior, events);
      }
    }

    /** Brings `selected` in with all it needs, or takes it out with all that
        need it; nothing happens when it already is where it should be. */
    method PluginSetUpdate(selected: PluginHandle, load: bool, refusing: set<PluginHandle>) returns (ghost events: seq<Event>)
      requires Valid() && selected in index.Values
      modifies this`activatedPlugins, this`pluginsCache, this`emitted, this`objects, objects`activated
      ensures Valid() && fresh(objects - old(objects)) && old(Now()).Onwards(Now())
      ensures events == UpdateEvents(index, available, old(Active()), selected, load, refusing)
      ensures emitted == old(emitted) + events
      ensures Active() == SetUpdate(index, old(Active()), selected, load, refusing) == Replay(old(Active()), events)
      ensures AlwaysClosed(index, old(Active()), events) <==> old(Closed(index, Active())) && Closed(index, Active())
    {
      UpdateClosed(index, available, Active(), selected, load, refusing);
      if load == (selected in activatedPlugins) {
        events := [];
      } else if !load {
        events := Unload(selected, refusing);
      } else {
        events := Load(selected, refusing);
      }
    }

    /** anjuta_plugin_manager_get_plugin_by_handle */
    method GetPluginByHandle(handle: PluginHandle, refusing: set<PluginHandle>) returns (instance: Plugin?, ghost events: seq<Event>)
      requires Valid() && handle in index.Values
      modifies this`activatedPlugins, this`pluginsCache, this`emitted, this`objects, objects`activated
      ensures Valid() && fresh(objects - old(objects)) && old(Now()).Onwards(Now())
      ensures Active() == SetUpdate(index, old(Active()), handle, true, refusing)
      ensures events == UpdateEvents(index, available, old(Active()), handle, true, refusing) && emitted == old(emitted) + events
      ensures if handle in Active() then instance == activatedPlugins[handle] && instance.activated else instance == null
    {
      events := [];
      if handle !in activatedPlugins {
        events := PluginSetUpdate(handle, true, refusing);
      }
      instance := if handle in activatedPlugins then activatedPlugins[handle] else null;
    }

    /** anjuta_plugin_manager_unload_plugin_by_handle */
    method UnloadPluginByHandle(handle: PluginHandle, refusing: set<PluginHandle>) returns (gone: bool, ghost events: seq<Event>)
      requires Valid() && handle in index.Values
      modifies this`activatedPlugins, this`pluginsCache, this`emitted, this`objects, objects`activated
      ensures Valid() && fresh(objects - old(objects)) && old(Now()).Onwards(Now())
      ensures Active() == SetUpdate(index, old(Active()), handle, false, refusing)
      ensures events == UpdateEvents(index, available, old(Active()), handle, false, refusing) && emitted == old(emitted) + events
      ensures gone == (handle !in Active())
    {
      events := PluginSetUpdate(handle, false, refusing);
      gone := handle !in activatedPlugins;
    }

    /** The end of anjuta_plugin_manager_unload_all_plugins. */
    method DropTables()
      modifies this`activatedPlugins, this`pluginsCache
      ensures Now() == old(Now()).WithoutTables()
    {
      activatedPlugins := map[];
      var l := |available|;
      while l > 0
        invariant 0 <= l <= |available| && activatedPlugins == map[]
      {
        l := l - 1;
        pluginsCache := pluginsCache - {available[l]};
      }
      pluginsCache := map[];
    }

    /** One turn of the first loop of anjuta_plugin_manager_unload_all_plugins. */
    method ConsiderStopping(plugin: PluginHandle, refusing: set<PluginHandle>, ghost goal: set<PluginHandle>)
      returns (ghost step: seq<Event>)
      requires Valid() && plugin in index.Values && goal == index.Values - refusing
      modifies this`activatedPlugins, this`pluginsCache, this`emitted, this`objects, objects`activated
      ensures Valid() && objects == old(objects) && old(Now()).Onwards(Now())
      ensures step == Stop(old(Active()), goal, plugin)
      ensures Active() == old(Active()) - if plugin in goal then {plugin} else {}
      ensures emitted == old(emitted) + step
    {
      step := Stop(Active(), goal, plugin);
      if plugin in activatedPlugins {
        Deactivate(plugin, refusing);
      }
    }

    /** The same, and what the loop has done so far. */
    method StopTurn(l: nat, refusing: set<PluginHandle>, ghost goal: set<PluginHandle>,
                    ghost start: Registry, ghost prior: seq<Event>, ghost events: seq<Event>)
      returns (ghost more: seq<Event>)
      requires l < |available| && goal == index.Values - refusing
      requires events == Stops(available, l + 1, start.active.Keys, goal)
      requires Reached(start, prior, events, start.active.Keys - Among(available[l + 1..], goal))
      modifies this`activatedPlugins, this`pluginsCache, this`emitted, this`objects, objects`activated
      ensures objects == old(objects) && more == Stops(available, l, start.active.Keys, goal)
      ensures Reached(start, prior, more, start.active.Keys - Among(available[l..], goal))
    {
      AmongFrom(available, goal, l);
      ghost var now := Now();
      ghost var step := ConsiderStopping(available[l], refusing, goal);
      OnwardsTransitive(start, now, Now());
      Associative(prior, events, step);
      more := events + step;
    }

    /** The first loop of anjuta_plugin_manager_unload_all_plugins. */
    method DeactivateAll(refusing: set<PluginHandle>) returns (ghost events: seq<Event>)
      requires Valid()
      modifies this`activatedPlugins, this`pluginsCache, this`emitted, this`objects, objects`activated
      ensures Valid() && objects == old(objects) && old(Now()).Onwards(Now())
      ensures events == Stops(available, 0, old(Active()), index.Values - refusing) && emitted == old(emitted) + events
      ensures Active() == old(Active()) * refusing
    {
      ghost var start, prior, goal := Now(), emitted, index.Values - refusing;
      AmongAll(available, goal);
      assert start.active.Keys - goal == start.active.Keys * refusing;
      events := [];
      var l := |available|;
      while l > 0
        invariant 0 <= l <= |available| && objects == old(objects)
        invariant events == Stops(available, l, start.active.Keys, goal)
        invariant Reached(start, prior, events, start.active.Keys - Among(available[l..], goal))
      {
        l := l - 1;
        events := StopTurn(l, refusing, goal, start, prior, events);
      }
    }

    /** anjuta_plugin_manager_unload_all_plugins: every active plugin is asked to
        stop, dependents first, and then all objects are dropped.  One that refuses to
        stop is dropped all the same and stays activated. */
    method UnloadAllPlugins(refusing: set<PluginHandle>) returns (ghost events: seq<Event>)
      requires Valid()
      modifies this`activatedPlugins, this`pluginsCache, this`emitted, this`objects, objects`activated
      ensures Valid() && Active() == {} && pluginsCache == map[] && objects == old(objects)
      ensures events == Stops(available, 0, old(Active()), index.Values - refusing) && emitted == old(emitted) + events
      ensures Replay(old(Active()), events) == old(Active()) * refusing
      ensures AlwaysClosed(index, old(Active()), events) <==>
              Closed(index, old(Active())) && Closed(index, old(Active()) * refusing)
      ensures forall h | h in old(Active()) * refusing :: old(activatedPlugins)[h] in Now().live
      ensures forall o | o in old(objects) && old(Now()).Object(o.handle) != o :: o in old(Now()).live <==> o in Now().live
      ensures old(Now().FlagsRight()) ==> (Now().FlagsRight() <==> old(Active()) * refusing == {})
    {
      ghost var before := Now();
      events := DeactivateAll(refusing);
      DroppedRight(index, before, Now());
      DropTables();
      StopsAll(index, available, before.active.Keys, refusing);
    }

    /** A plugin that refuses to stop when all plugins are unloaded is still running when its
        handle is loaded again, with a second object. */
    method Restart(handle: PluginHandle) returns (first: Plugin, second: Plugin, ghost stops: seq<Event>, ghost starts: seq<Event>)
      requires Valid() && handle in Active() && !Blocked(index, handle)
      modifies this`activatedPlugins, this`pluginsCache, this`emitted, this`objects, objects`activated
      ensures first != second && first.handle == second.handle == handle && first.activated && second.activated
    {
      first := activatedPlugins[handle];
      stops := UnloadAllPlugins({handle});
      ghost var between := Now();
      var instance;
      instance, starts := GetPluginByHandle(handle, {});
      SecondObject(index, between, Now(), first);
      second := instance;
    }
  }
}

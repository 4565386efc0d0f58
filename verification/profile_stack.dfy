/** The profile stack of libanjuta/anjuta-profile-manager.c as a function of its
    state.  Loading a profile can push, pop, freeze or thaw in turn: while its
    plugins are activated, and again when "scoped" is emitted.  What the n-th load
    from now does is the n-th element of `reactions`, so that every finite pattern
    of nested calls is covered. */
module ProfileStack {
  import opened Options

  /** A profile object, known by its identity. */
  type Profile = nat

  datatype Call = Push(profile: Profile) | Pop(profile: Profile) | Freeze | Thaw

  /** The calls made inside one load, before and after it connects its handlers. */
  datatype Reaction = Reaction(activating: seq<Call>, scoped: seq<Call>)

  datatype State = State(
    profiles: seq<Profile>,            // loaded, the current one first
    queue: seq<Profile>,               // pending, the last pushed first
    freezeCount: nat,
    connections: map<Profile, nat>,    // live signal connections of loaded profiles
    unreadable: set<Profile>,          // their files cannot be read
    reactions: seq<Reaction>,
    log: seq<Call>)                    // the calls that took effect, in order

  /** The state of a new manager, when all profiles can be read and loads call nothing. */
  const EMPTY := State([], [], 0, map[], {}, [], [])

  /** How many times a profile is connected. */
  function Count(connections: map<Profile, nat>, p: Profile): nat {
    if p in connections then connections[p] else 0
  }

  function Connections(st: State, p: Profile): nat {
    Count(st.connections, p)
  }

  /** Queued and loaded profiles together. */
  function Stack(st: State): seq<Profile> {
    st.queue + st.profiles
  }

  function Applied(stack: seq<Profile>, c: Call): seq<Profile> {
    match c
    case Push(p) => [p] + stack
    case Pop(p) => if stack != [] && stack[0] == p then stack[1..] else stack
    case _ => stack
  }

  /** The stack of a sequence of calls on top of another. */
  function AppliedAll(stack: seq<Profile>, calls: seq<Call>): seq<Profile>
    decreases |calls|
  {
    if calls == [] then stack else AppliedAll(Applied(stack, calls[0]), calls[1..])
  }

  /** The stack that a sequence of calls describes: a pop removes its profile from the
      top and nothing else. */
  function StackOf(log: seq<Call>): seq<Profile>
    decreases |log|
  {
    if log == [] then [] else Applied(StackOf(log[..|log| - 1]), log[|log| - 1])
  }

  /** How many freezes of a sequence of calls wait for their thaw. */
  function FreezesOf(log: seq<Call>): nat
    decreases |log|
  {
    if log == [] then 0
    else
      var before := FreezesOf(log[..|log| - 1]);
      match log[|log| - 1]
      case Freeze => before + 1
      case Thaw => if before > 0 then before - 1 else 0
      case _ => before
  }

  /** The state is what its log says. */
  ghost predicate Recorded(st: State) {
    Stack(st) == StackOf(st.log) && st.freezeCount == FreezesOf(st.log)
  }

  lemma LogMore(log: seq<Call>, c: Call)
    ensures StackOf(log + [c]) == Applied(StackOf(log), c)
    ensures FreezesOf(log + [c]) == match c
                                    case Freeze => FreezesOf(log) + 1
                                    case Thaw => (if FreezesOf(log) > 0 then FreezesOf(log) - 1 else 0)
                                    case _ => FreezesOf(log)
  {
    assert (log + [c])[..|log + [c]| - 1] == log;
  }

  /** Nothing is pending unless the manager is frozen. */
  predicate Quiescent(st: State) {
    st.freezeCount == 0 ==> st.queue == []
  }

  /** The current profile is connected, if it could be read. */
  predicate HeadConnected(st: State) {
    st.profiles != [] ==> st.profiles[0] in st.unreadable || Connections(st, st.profiles[0]) > 0
  }

  /** The current profile is connected, or it is still the one it was and has lost
      no connection. */
  predicate HeadFollowed(before: State, after: State) {
    || HeadConnected(after)
    || (before.profiles != [] && before.profiles[0] == after.profiles[0] &&
        Connections(after, after.profiles[0]) >= Connections(before, after.profiles[0]))
  }

  /** What every operation keeps, whatever the loads inside it do. */
  ghost predicate Kept(before: State, after: State) {
    && |after.reactions| <= |before.reactions| && after.unreadable == before.unreadable
    && before.log <= after.log
    && (Recorded(before) ==> Recorded(after))
    && HeadFollowed(before, after)
    && (Quiescent(before) ==> Quiescent(after))
  }

  /** Nothing but loading: no call took effect. */
  predicate OnlyLoads(before: State, after: State) {
    after.log == before.log && Stack(after) == Stack(before) && after.freezeCount == before.freezeCount && after.reactions == []
  }

  function Unloaded(st: State, p: Profile): (r: State)
    ensures forall q :: Count(r.connections, q) == if q == p then 0 else Count(st.connections, q)
  {
    st.(connections := st.connections[p := 0])
  }

  function Connected(st: State, p: Profile): (r: State)
    ensures forall q :: Count(r.connections, q) == Count(st.connections, q) + if q == p then 1 else 0
  {
    st.(connections := st.connections[p := Connections(st, p) + 1])
  }

  function Logged(st: State, c: Call): State {
    st.(log := st.log + [c])
  }

  /** The state in which the calls of a load run. */
  function Reacting(st: State): State
    requires st.reactions != []
  {
    st.(reactions := st.reactions[1..])
  }

  /** anjuta_profile_load: the nested calls around the connection to the signals, or
      nothing at all if the profile cannot be read. */
  function LoadProfile(st: State, p: Profile): (r: State)
    ensures if p in st.unreadable then r == st else |r.reactions| < |st.reactions| || (st.reactions == [] && r == Connected(st, p))
    ensures st.reactions == [] ==> OnlyLoads(st, r)
    ensures r.unreadable == st.unreadable && st.log <= r.log
    ensures Recorded(st) ==> Recorded(r)
    ensures st.profiles != [] && st.profiles[0] == p ==> HeadConnected(r)
    ensures Quiescent(st) ==> Quiescent(r)
    ensures p !in st.unreadable && |st.reactions| == 1 ==>
              Stack(r) == AppliedAll(AppliedAll(Stack(st), st.reactions[0].activating), st.reactions[0].scoped)
    decreases |st.reactions|, 0, 0
  {
    if p in st.unreadable then st
    else if st.reactions == [] then Connected(st, p)
    else Perform(Connected(Perform(Reacting(st), st.reactions[0].activating), p), st.reactions[0].scoped)
  }

  /** One turn of the loop of anjuta_profile_manager_load_profiles, up to the load. */
  function Moved(st: State): (r: State)
    requires st.queue != []
    ensures Stack(r) == Stack(st) && r.queue == st.queue[..|st.queue| - 1] && r.profiles == [st.queue[|st.queue| - 1]] + st.profiles
    ensures r == st.(queue := r.queue, profiles := r.profiles, connections := r.connections)
  {
    var n := |st.queue| - 1;
    assert st.queue == st.queue[..n] + [st.queue[n]];
    var moved := st.(queue := st.queue[..n], profiles := [st.queue[n]] + st.profiles);
    if st.profiles == [] then moved else Unloaded(moved, st.profiles[0])
  }

  /** anjuta_profile_manager_load_profiles, from a state of its loop. */
  function LoadProfiles(st: State): (r: State)
    ensures Kept(st, r)
    ensures Quiescent(r)
    ensures st.reactions == [] ==> OnlyLoads(st, r)
    decreases |st.reactions|, 1, |st.queue|
  {
    if st.freezeCount == 0 && st.queue != [] then
      LoadProfiles(LoadProfile(Moved(st), st.queue[|st.queue| - 1]))
    else st
  }

  /** What anjuta_profile_manager_load_profiles returns, from a state of its loop: the
      verdict on the last profile that the loop loads.  So it is FALSE whenever nothing is
      loaded, which under a freeze is success; when all profiles can be read it is TRUE
      exactly when something is loaded, and without nested calls it tells whether the top
      of the queue can be read. */
  function Verdict(st: State, before: bool): (r: bool)
    ensures st.freezeCount > 0 || st.queue == [] ==> r == before
    ensures st.unreadable == {} && st.freezeCount == 0 && st.queue != [] ==> r
    ensures st.reactions == [] && st.freezeCount == 0 && st.queue != [] ==> r == (st.queue[0] !in st.unreadable)
    decreases |st.reactions|, |st.queue|
  {
    if st.freezeCount == 0 && st.queue != [] then
      var p := st.queue[|st.queue| - 1];
      Verdict(LoadProfile(Moved(st), p), p !in st.unreadable)
    else before
  }

  /** One turn of the loop leaves the rest of it to do. */
  lemma LoopTurn(st: State, before: bool)
    requires st.freezeCount == 0 && st.queue != []
    ensures var p := st.queue[|st.queue| - 1]; var next := LoadProfile(Moved(st), p);
            LoadProfiles(st) == LoadProfiles(next) && Verdict(st, before) == Verdict(next, p !in st.unreadable)
  {
  }

  function Queued(st: State, p: Profile): (r: State)
    ensures Stack(r) == [p] + Stack(st) && (Recorded(st) ==> Recorded(r))
  {
    LogMore(st.log, Push(p));
    assert ([p] + st.queue) + st.profiles == [p] + Stack(st);
    Logged(st.(queue := [p] + st.queue), Push(p))
  }

  /** A push puts its profile on top of the stack. */
  function PushProfile(st: State, p: Profile): (r: State)
    ensures Kept(st, r)
    ensures Quiescent(r)
    ensures st.log + [Push(p)] <= r.log
    ensures st.reactions == [] ==> Stack(r) == [p] + Stack(st) && r.freezeCount == st.freezeCount
    decreases |st.reactions|, 2, 0
  {
    LoadProfiles(Queued(st, p))
  }

  /** Without the current profile, which is unloaded. */
  function Popped(st: State): (r: State)
    requires st.queue == [] && st.profiles != []
    ensures Stack(r) == Stack(st)[1..] && (Recorded(st) ==> Recorded(r))
  {
    LogMore(st.log, Pop(st.profiles[0]));
    assert st.queue + st.profiles[1..] == Stack(st)[1..];
    Unloaded(Logged(st.(profiles := st.profiles[1..]), Pop(st.profiles[0])), st.profiles[0])
  }

  /** Without the pending profile on top. */
  function Unqueued(st: State): (r: State)
    requires st.queue != []
    ensures Stack(r) == Stack(st)[1..] && (Recorded(st) ==> Recorded(r))
  {
    LogMore(st.log, Pop(st.queue[0]));
    assert st.queue[1..] + st.profiles == Stack(st)[1..];
    Logged(st.(queue := st.queue[1..]), Pop(st.queue[0]))
  }

  /** A pop takes its profile from the top of the stack, and does nothing if the profile
      is not there. */
  function PopProfile(st: State, p: Profile): (r: State)
    ensures Kept(st, r)
    ensures if Stack(st) != [] && Stack(st)[0] == p then st.log + [Pop(p)] <= r.log else r == st
    ensures st.reactions == [] && Stack(st) != [] && Stack(st)[0] == p ==>
              Stack(r) == Stack(st)[1..] && r.freezeCount == st.freezeCount
    decreases |st.reactions|, 2, 0
  {
    if st.queue != [] then
      if st.queue[0] != p then st else Unqueued(st)
    else if st.profiles != [] then
      if st.profiles[0] != p then st
      else if |st.profiles| == 1 then Popped(st)
      else LoadProfile(Popped(st), st.profiles[1])
    else st
  }

  /** A freeze leaves everything but the count alone. */
  function FreezeManager(st: State): (r: State)
    ensures Kept(st, r)
    ensures r == st.(freezeCount := st.freezeCount + 1, log := st.log + [Freeze])
  {
    LogMore(st.log, Freeze);
    Logged(st.(freezeCount := st.freezeCount + 1), Freeze)
  }

  function Thawed(st: State): (r: State)
    ensures Recorded(st) ==> Recorded(r)
  {
    LogMore(st.log, Thaw);
    Logged(st.(freezeCount := if st.freezeCount > 0 then st.freezeCount - 1 else 0), Thaw)
  }

  /** A thaw leaves the stack alone and lowers the count. */
  function ThawManager(st: State): (r: State)
    ensures Kept(st, r)
    ensures Quiescent(r)
    ensures st.log + [Thaw] <= r.log
    ensures st.reactions == [] ==>
              Stack(r) == Stack(st) && r.freezeCount == if st.freezeCount > 0 then st.freezeCount - 1 else 0
    decreases |st.reactions|, 2, 0
  {
    LoadProfiles(Thawed(st))
  }

  /** Only a pop of something else than the top of the stack is refused. */
  predicate TakesEffect(st: State, c: Call) {
    c.Pop? ==> Stack(st) != [] && Stack(st)[0] == c.profile
  }

  function Step(st: State, c: Call): (r: State)
    ensures Kept(st, r)
    ensures if TakesEffect(st, c) then st.log + [c] <= r.log else r == st
    ensures st.reactions == [] ==> r.reactions == [] && Stack(r) == Applied(Stack(st), c)
    decreases |st.reactions|, 3, 0
  {
    match c
    case Push(p) => PushProfile(st, p)
    case Pop(p) => PopProfile(st, p)
    case Freeze => FreezeManager(st)
    case Thaw => ThawManager(st)
  }

  /** When loads do not nest, the stack is a function of the calls alone. */
  function Perform(st: State, calls: seq<Call>): (r: State)
    ensures Kept(st, r)
    ensures st.reactions == [] ==> Stack(r) == AppliedAll(Stack(st), calls)
    decreases |st.reactions|, 4, |calls|
  {
    if calls == [] then st else Perform(Step(st, calls[0]), calls[1..])
  }

  lemma {:induction false} PerformMore(st: State, calls: seq<Call>, c: Call)
    ensures Perform(st, calls + [c]) == Step(Perform(st, calls), c)
    decreases |calls|
  {
    if calls == [] {
      assert Perform(st, [] + [c]) == Perform(Step(st, c), ([c])[1..]);
    } else {
      assert (calls + [c])[1..] == calls[1..] + [c];
      PerformMore(Step(st, calls[0]), calls[1..], c);
    }
  }

  /** All the calls that some loads make, in order. */
  function CallsOf(reactions: seq<Reaction>): seq<Call> {
    if reactions == [] then [] else (reactions[0].activating + reactions[0].scoped) + CallsOf(reactions[1..])
  }

  function Times(calls: seq<Call>, c: Call): nat {
    multiset(calls)[c]
  }

  /** How often a call has taken effect or is still to be made inside a load. */
  function Due(st: State, c: Call): nat {
    Times(st.log, c) + Times(CallsOf(st.reactions), c)
  }

  /** The second list is left of the first one when some loads have happened. */
  predicate Left(before: seq<Reaction>, after: seq<Reaction>) {
    after == before || (before != [] && Left(before[1..], after))
  }

  lemma {:induction false} LeftTransitive(first: seq<Reaction>, second: seq<Reaction>, third: seq<Reaction>)
    requires Left(first, second) && Left(second, third)
    ensures Left(first, third)
  {
    if first != second {
      LeftTransitive(first[1..], second, third);
    }
  }

  /** Some loads have happened, and exactly the calls made in them and the given ones
      have taken effect, apart from pops that were refused. */
  ghost predicate Made(before: State, after: State, calls: seq<Call>, c: Call) {
    && Left(before.reactions, after.reactions)
    && Due(after, c) <= Due(before, c) + Times(calls, c)
    && (!c.Pop? ==> Due(after, c) == Due(before, c) + Times(calls, c))
  }

  lemma MadeTransitive(first: State, second: State, third: State, earlier: seq<Call>, later: seq<Call>, c: Call)
    requires Made(first, second, earlier, c) && Made(second, third, later, c)
    ensures Made(first, third, earlier + later, c)
  {
    LeftTransitive(first.reactions, second.reactions, third.reactions);
  }

  /** What is made by the first of some calls and by the others. */
  lemma MadeInTurn(before: State, next: State, after: State, calls: seq<Call>, c: Call)
    requires calls != [] && Made(before, next, [calls[0]], c) && Made(next, after, calls[1..], c)
    ensures Made(before, after, calls, c)
  {
    MadeTransitive(before, next, after, [calls[0]], calls[1..], c);
    assert [calls[0]] + calls[1..] == calls;
  }

  lemma MadeLogged(before: State, after: State, call: Call, c: Call)
    requires after.log == before.log + [call] && after.reactions == before.reactions
    ensures Made(before, after, [call], c)
  {
  }

  /** What is made after a call that is logged first. */
  lemma MadeAfter(before: State, logged: State, after: State, call: Call, c: Call)
    requires logged.log == before.log + [call] && logged.reactions == before.reactions
    requires Made(logged, after, [], c)
    ensures Made(before, after, [call], c)
  {
    MadeLogged(before, logged, call, c);
    MadeTransitive(before, logged, after, [call], [], c);
    assert [call] + [] == [call];
  }

  /** What is made by one load and those after it. */
  lemma MadeByLoads(before: State, moved: State, loaded: State, after: State, c: Call)
    requires moved.log == before.log && moved.reactions == before.reactions
    requires Made(moved, loaded, [], c) && Made(loaded, after, [], c)
    ensures Made(before, after, [], c)
  {
    MadeTransitive(moved, loaded, after, [], [], c);
    var none: seq<Call> := [];
    assert none + [] == none;
  }

  lemma DueReacting(st: State, c: Call)
    requires st.reactions != []
    ensures Due(st, c) == Due(Reacting(st), c) + Times(st.reactions[0].activating + st.reactions[0].scoped, c)
  {
  }

  /** What is made by a load itself. */
  lemma MadeInLoad(before: State, activated: State, connected: State, after: State, c: Call)
    requires before.reactions != [] && connected.log == activated.log && connected.reactions == activated.reactions
    requires Made(Reacting(before), activated, before.reactions[0].activating, c)
    requires Made(connected, after, before.reactions[0].scoped, c)
    ensures Made(before, after, [], c)
  {
    var (activating, scoped) := (before.reactions[0].activating, before.reactions[0].scoped);
    assert Made(activated, after, scoped, c);
    MadeTransitive(Reacting(before), activated, after, activating, scoped, c);
    DueReacting(before, c);
  }

  lemma {:induction false} LoadMakes(st: State, p: Profile, c: Call)
    ensures Made(st, LoadProfile(st, p), [], c)
    decreases |st.reactions|, 0, 0
  {
    if p !in st.unreadable && st.reactions != [] {
      var activated := Perform(Reacting(st), st.reactions[0].activating);
      var connected := Connected(activated, p);
      PerformMakes(Reacting(st), st.reactions[0].activating, c);
      PerformMakes(connected, st.reactions[0].scoped, c);
      MadeInLoad(st, activated, connected, Perform(connected, st.reactions[0].scoped), c);
    }
  }

  lemma {:induction false} LoopMakes(st: State, c: Call)
    ensures Made(st, LoadProfiles(st), [], c)
    decreases |st.reactions|, 1, |st.queue|
  {
    if st.freezeCount == 0 && st.queue != [] {
      var p := st.queue[|st.queue| - 1];
      var loaded := LoadProfile(Moved(st), p);
      LoadMakes(Moved(st), p, c);
      LoopMakes(loaded, c);
      MadeByLoads(st, Moved(st), loaded, LoadProfiles(loaded), c);
    }
  }

  lemma {:induction false} StepMakes(st: State, call: Call, c: Call)
    ensures Made(st, Step(st, call), [call], c)
    decreases |st.reactions|, 3, 0
  {
    match call {
      case Push(p) =>
        LoopMakes(Queued(st, p), c);
        MadeAfter(st, Queued(st, p), LoadProfiles(Queued(st, p)), call, c);
      case Pop(p) => PopMakes(st, p, c);
      case Freeze => MadeLogged(st, FreezeManager(st), call, c);
      case Thaw =>
        LoopMakes(Thawed(st), c);
        MadeAfter(st, Thawed(st), LoadProfiles(Thawed(st)), call, c);
    }
  }

  lemma {:induction false} PopMakes(st: State, p: Profile, c: Call)
    ensures Made(st, PopProfile(st, p), [Pop(p)], c)
    decreases |st.reactions|, 2, 0
  {
    if Stack(st) == [] || Stack(st)[0] != p {
    } else if st.queue != [] {
      MadeLogged(st, Unqueued(st), Pop(p), c);
    } else if |st.profiles| == 1 {
      MadeLogged(st, Popped(st), Pop(p), c);
    } else {
      LoadMakes(Popped(st), st.profiles[1], c);
      MadeAfter(st, Popped(st), LoadProfile(Popped(st), st.profiles[1]), Pop(p), c);
    }
  }

  lemma {:induction false} PerformMakes(st: State, calls: seq<Call>, c: Call)
    ensures Made(st, Perform(st, calls), calls, c)
    decreases |st.reactions|, 4, |calls|
  {
    if calls != [] {
      StepMakes(st, calls[0], c);
      PerformMakes(Step(st, calls[0]), calls[1..], c);
      MadeInTurn(st, Step(st, calls[0]), Perform(st, calls), calls, c);
    }
  }

  /** What the loads that have happened were to call, and what is left. */
  lemma {:induction false} LeftBehind(before: seq<Reaction>, after: seq<Reaction>)
    requires Left(before, after)
    ensures |after| <= |before| && before == before[..|before| - |after|] + after
  {
    if after != before {
      LeftBehind(before[1..], after);
      assert before == [before[0]] + before[1..];
    }
  }

  lemma {:induction false} CallsAppended(earlier: seq<Reaction>, later: seq<Reaction>, c: Call)
    ensures Times(CallsOf(earlier + later), c) == Times(CallsOf(earlier), c) + Times(CallsOf(later), c)
  {
    if earlier == [] {
      assert earlier + later == later;
    } else {
      assert (earlier + later)[1..] == earlier[1..] + later;
      CallsAppended(earlier[1..], later, c);
    }
  }

  /** Conservation of calls, however loads nest: when n loads that call something have
      happened, each push, freeze and thaw made from outside or in these loads has taken
      effect once, a pop at most once, and nothing else has. */
  lemma CallsMade(unreadable: set<Profile>, reactions: seq<Reaction>, calls: seq<Call>, c: Call)
    ensures var r := Perform(State([], [], 0, map[], unreadable, reactions, []), calls);
            |r.reactions| <= |reactions|
    ensures var r := Perform(State([], [], 0, map[], unreadable, reactions, []), calls);
            var happened := reactions[..|reactions| - |r.reactions|];
            var made := Times(calls, c) + Times(CallsOf(happened), c);
            reactions == happened + r.reactions && if c.Pop? then Times(r.log, c) <= made else Times(r.log, c) == made
  {
    var start := State([], [], 0, map[], unreadable, reactions, []);
    var left := Perform(start, calls).reactions;
    PerformMakes(start, calls, c);
    LeftBehind(reactions, left);
    CallsAppended(reactions[..|reactions| - |left|], left, c);
  }

  /** anjuta_profile_manager_get_current reads the top of the stack. */
  function Current(st: State): (r: Option<Profile>)
    ensures r == if Stack(st) == [] then None else Some(Stack(st)[0])
  {
    if st.queue != [] then Some(st.queue[0]) else if st.profiles != [] then Some(st.profiles[0]) else None
  }

  /** From an empty manager, whatever the calls and whatever the loads in them do: every
      call that is not refused is logged before what its loads do, and the log is never
      revised; the queue followed by the loaded profiles is the stack of the calls
      logged, the current profile is its top and, if it could be read, is connected;
      nothing is pending unless the manager is frozen. */
  lemma EveryRun(unreadable: set<Profile>, reactions: seq<Reaction>, calls: seq<Call>, k: nat)
    requires k < |calls|
    ensures var start := State([], [], 0, map[], unreadable, reactions, []);
            var st, r := Perform(start, calls[..k]), Perform(start, calls[..k + 1]);
            && (if TakesEffect(st, calls[k]) then st.log + [calls[k]] <= r.log else r == st)
            && Stack(r) == StackOf(r.log) && r.freezeCount == FreezesOf(r.log)
            && Current(r) == (if StackOf(r.log) == [] then None else Some(StackOf(r.log)[0]))
            && HeadConnected(r)
            && (r.freezeCount == 0 ==> r.queue == [])
  {
    var start := State([], [], 0, map[], unreadable, reactions, []);
    assert Recorded(start) && HeadConnected(start) && Quiescent(start);
    PerformMore(start, calls[..k], calls[k]);
    assert calls[..k + 1] == calls[..k] + [calls[k]];
  }

  /** The current profile, if it could be read, is connected once, and no other is. */
  ghost predicate OnlyHead(st: State) {
    forall p :: Count(st.connections, p) == if st.profiles != [] && p == st.profiles[0] && p !in st.unreadable then 1 else 0
  }

  ghost predicate NoneFollows(st: State) {
    forall p :: Count(st.connections, p) == 0
  }

  /** The call neither loads a profile nor removes a loaded one. */
  predicate LoadsNothing(st: State, c: Call) {
    match c
    case Push(_) => st.freezeCount > 0
    case Pop(p) => st.queue != [] || st.profiles == [] || st.profiles[0] != p
    case Freeze => true
    case Thaw => st.freezeCount > 1 || st.queue == []
  }

  predicate Quiet(st: State, calls: seq<Call>)
    decreases |calls|
  {
    calls != [] ==> LoadsNothing(st, calls[0]) && Quiet(Step(st, calls[0]), calls[1..])
  }

  /** The calls made while a profile is activated load nothing, and those made from
      "scoped" are calm. */
  predicate CalmLoad(st: State, p: Profile)
    decreases |st.reactions|, 0, 0
  {
    p in st.unreadable || st.reactions == [] ||
    (var calls := st.reactions[0].activating;
     Quiet(Reacting(st), calls) && Calm(Connected(Perform(Reacting(st), calls), p), st.reactions[0].scoped))
  }

  predicate CalmLoads(st: State)
    decreases |st.reactions|, 1, |st.queue|
  {
    st.freezeCount == 0 && st.queue != [] ==>
      var p := st.queue[|st.queue| - 1];
      CalmLoad(Moved(st), p) && CalmLoads(LoadProfile(Moved(st), p))
  }

  predicate CalmStep(st: State, c: Call)
    decreases |st.reactions|, 2, 0
  {
    match c
    case Push(p) => CalmLoads(Queued(st, p))
    case Pop(p) => st.queue == [] && |st.profiles| > 1 && st.profiles[0] == p ==> CalmLoad(Popped(st), st.profiles[1])
    case Freeze => true
    case Thaw => CalmLoads(Thawed(st))
  }

  /** Every load in a sequence of calls is calm, where it runs. */
  predicate Calm(st: State, calls: seq<Call>)
    decreases |st.reactions|, 3, |calls|
  {
    calls != [] ==> CalmStep(st, calls[0]) && Calm(Step(st, calls[0]), calls[1..])
  }

  lemma QuietStep(st: State, c: Call)
    requires LoadsNothing(st, c)
    ensures var r := Step(st, c);
            r.profiles == st.profiles && r.connections == st.connections && r.reactions == st.reactions
  {
    match c {
      case Push(p) => assert LoadProfiles(Queued(st, p)) == Queued(st, p);
      case Pop(p) =>
      case Freeze =>
      case Thaw => assert LoadProfiles(Thawed(st)) == Thawed(st);
    }
  }

  /** Calls that load nothing leave what is loaded and connected alone. */
  lemma {:induction false} QuietLeaves(st: State, calls: seq<Call>)
    requires Quiet(st, calls)
    ensures var r := Perform(st, calls);
            r.profiles == st.profiles && r.connections == st.connections && r.reactions == st.reactions
    decreases |calls|
  {
    if calls != [] {
      QuietStep(st, calls[0]);
      QuietLeaves(Step(st, calls[0]), calls[1..]);
    }
  }

  lemma {:induction false} LoadKeepsOnlyHead(st: State, p: Profile)
    requires NoneFollows(st) && st.profiles != [] && st.profiles[0] == p && CalmLoad(st, p)
    ensures OnlyHead(LoadProfile(st, p))
    decreases |st.reactions|, 0, 0
  {
    if p !in st.unreadable && st.reactions != [] {
      var activated := Perform(Reacting(st), st.reactions[0].activating);
      QuietLeaves(Reacting(st), st.reactions[0].activating);
      assert OnlyHead(Connected(activated, p));
      OnlyTheCurrentProfileFollows(Connected(activated, p), st.reactions[0].scoped);
    }
  }

  lemma {:induction false} LoadsKeepOnlyHead(st: State)
    requires OnlyHead(st) && CalmLoads(st)
    ensures OnlyHead(LoadProfiles(st))
    decreases |st.reactions|, 1, |st.queue|
  {
    if st.freezeCount == 0 && st.queue != [] {
      var p := st.queue[|st.queue| - 1];
      LoadKeepsOnlyHead(Moved(st), p);
      LoadsKeepOnlyHead(LoadProfile(Moved(st), p));
    }
  }

  lemma {:induction false} StepKeepsOnlyHead(st: State, c: Call)
    requires OnlyHead(st) && CalmStep(st, c)
    ensures OnlyHead(Step(st, c))
    decreases |st.reactions|, 2, 0
  {
    match c {
      case Push(p) => LoadsKeepOnlyHead(Queued(st, p));
      case Pop(p) =>
        if st.queue == [] && |st.profiles| > 1 && st.profiles[0] == p {
          LoadKeepsOnlyHead(Popped(st), st.profiles[1]);
        }
      case Freeze =>
      case Thaw => LoadsKeepOnlyHead(Thawed(st));
    }
  }

  /** As long as no profile is loaded or removed while another is being activated,
      exactly the current profile follows the plugin manager, once, whatever the calls
      and however the loads nest otherwise. */
  lemma {:induction false} OnlyTheCurrentProfileFollows(st: State, calls: seq<Call>)
    requires OnlyHead(st) && Calm(st, calls)
    ensures OnlyHead(Perform(st, calls))
    decreases |st.reactions|, 3, |calls|
  {
    if calls != [] {
      StepKeepsOnlyHead(st, calls[0]);
      OnlyTheCurrentProfileFollows(Step(st, calls[0]), calls[1..]);
    }
  }

  lemma {:induction false} PlainLoadsCalm(st: State)
    requires st.reactions == []
    ensures CalmLoads(st)
    decreases |st.queue|
  {
    if st.freezeCount == 0 && st.queue != [] {
      PlainLoadsCalm(LoadProfile(Moved(st), st.queue[|st.queue| - 1]));
    }
  }

  /** When loads call nothing, everything is calm. */
  lemma {:induction false} PlainCalm(st: State, calls: seq<Call>)
    requires st.reactions == []
    ensures Calm(st, calls)
    decreases |calls|
  {
    if calls != [] {
      match calls[0] {
        case Push(p) => PlainLoadsCalm(Queued(st, p));
        case Pop(p) =>
        case Freeze =>
        case Thaw => PlainLoadsCalm(Thawed(st));
      }
      PlainCalm(Step(st, calls[0]), calls[1..]);
    }
  }

  lemma LoadsConnect(st: State)
    requires st.freezeCount == 0 && st.queue != []
    ensures HeadConnected(LoadProfiles(st))
  {
    var loaded := LoadProfile(Moved(st), st.queue[|st.queue| - 1]);
    assert HeadConnected(loaded) && Kept(loaded, LoadProfiles(loaded));
  }

  /** A call that loads a profile or removes one leaves the current profile connected. */
  lemma LoadingConnects(st: State, c: Call)
    requires !LoadsNothing(st, c)
    ensures HeadConnected(Step(st, c))
  {
    match c {
      case Push(p) => LoadsConnect(Queued(st, p));
      case Pop(p) =>
      case Thaw => LoadsConnect(Thawed(st));
    }
  }

  lemma {:induction false} LoudConnects(st: State, calls: seq<Call>)
    requires !Quiet(st, calls)
    ensures HeadConnected(Perform(st, calls))
    decreases |calls|
  {
    if LoadsNothing(st, calls[0]) {
      LoudConnects(Step(st, calls[0]), calls[1..]);
    } else {
      LoadingConnects(st, calls[0]);
    }
  }

  /** A profile that is loaded or removed while another is being activated: the other one
      is not connected yet when it is unloaded, so it connects afterwards and stays
      connected.  After its activation exactly the current profile follows the plugin
      manager if and only if the calls made in it load nothing. */
  lemma NestedLoad(st: State, p: Profile)
    requires NoneFollows(st) && st.profiles != [] && st.profiles[0] == p && p !in st.unreadable
    requires st.reactions != []
    ensures var calls := st.reactions[0].activating;
            OnlyHead(Connected(Perform(Reacting(st), calls), p)) <==> Quiet(Reacting(st), calls)
  {
    var calls := st.reactions[0].activating;
    var activated := Perform(Reacting(st), calls);
    assert Connections(Connected(activated, p), p) == Connections(activated, p) + 1;
    if Quiet(Reacting(st), calls) {
      QuietLeaves(Reacting(st), calls);
    } else {
      LoudConnects(Reacting(st), calls);
    }
  }

  /** The state in which the next profile is loaded by a call, and that profile, when the
      call loads just one. */
  function Loading(st: State, c: Call): Option<(State, Profile)> {
    match c
    case Push(p) => if st.freezeCount == 0 && st.queue == [] then Some((Moved(Queued(st, p)), p)) else None
    case Pop(p) =>
      if st.queue == [] && |st.profiles| > 1 && st.profiles[0] == p then Some((Popped(st), st.profiles[1])) else None
    case Freeze => None
    case Thaw => if st.freezeCount <= 1 && |st.queue| == 1 then Some((Moved(Thawed(st)), st.queue[0])) else None
  }

  lemma LoadsOne(st: State)
    requires st.freezeCount == 0 && |st.queue| == 1
    ensures LoadProfiles(st) == LoadProfile(Moved(st), st.queue[0])
  {
    assert Quiescent(Moved(st));
    var loaded := LoadProfile(Moved(st), st.queue[0]);
    assert Quiescent(loaded);
  }

  lemma PerformOne(st: State, c: Call)
    ensures Perform(st, [c]) == Step(st, c)
  {
    assert Perform(st, [c]) == Perform(Step(st, c), []);
  }

  /** A profile that pushes another one while it is activated connects after it, and both
      end connected. */
  lemma BothFollow()
    ensures var st := PushProfile(State([], [], 0, map[], {}, [Reaction([Push(1)], [])], []), 0);
            st.profiles == [1, 0] && Connections(st, 0) == 1 && Connections(st, 1) == 1 && !OnlyHead(st)
  {
    var start := State([], [], 0, map[], {}, [Reaction([Push(1)], [])], []);
    var inner := Reacting(Moved(Queued(start, 0)));
    var one := Moved(Queued(inner, 1));
    assert one.profiles == [1, 0] && Connections(one, 0) == 0 && Connections(one, 1) == 0;
    PerformOne(inner, Push(1));
    LoadsOne(Queued(inner, 1));
    assert Step(inner, Push(1)) == Connected(one, 1);
    LoadsOne(Queued(start, 0));
    var both := Connected(Connected(one, 1), 0);
    assert Perform(both, []) == both;
  }

  /** For a push, a pop or a thaw that loads one profile, whatever its loads do: exactly
      the current profile follows the plugin manager afterwards if and only if the calls
      made during the activation load nothing. */
  lemma NestedLoads(st: State, c: Call)
    requires OnlyHead(st) && Loading(st, c).Some?
    requires var (loading, p) := Loading(st, c).value;
             p !in st.unreadable && st.reactions != [] && st.reactions[0].scoped == []
    ensures var (loading, p) := Loading(st, c).value;
            OnlyHead(Step(st, c)) <==> Quiet(Reacting(loading), st.reactions[0].activating)
  {
    var (loading, p) := Loading(st, c).value;
    assert NoneFollows(loading) && loading.reactions == st.reactions;
    NestedLoad(loading, p);
    var loaded := LoadProfile(loading, p);
    var connected := Connected(Perform(Reacting(loading), st.reactions[0].activating), p);
    assert loaded == Perform(connected, []) == connected;
    assert Step(st, c) == loaded by {
      match c {
        case Push(_) => LoadsOne(Queued(st, p));
        case Pop(_) =>
        case Thaw => LoadsOne(Thawed(st));
      }
    }
  }

  /** When an unfrozen manager has loaded what was pending, all that is on the stack is
      loaded; without nested calls it is what was pending, the oldest loaded first. */
  lemma {:induction false} LoadsAll(st: State)
    requires Recorded(st)
    ensures var r := LoadProfiles(st);
            && (r.freezeCount == 0 ==> r.queue == [] && r.profiles == StackOf(r.log))
            && (st.reactions == [] && st.freezeCount == 0 ==> r.profiles == st.queue + st.profiles)
  {
    var r := LoadProfiles(st);
    assert r.freezeCount == 0 ==> r.queue + r.profiles == r.profiles;
  }

  /** A push after a freeze waits and leaves what is loaded and connected alone, and no
      load happens; a thaw that is not the last one changes nothing but the count; after
      the last one nothing is pending, and without nested calls the profile is loaded. */
  lemma FreezeDefers(st: State, p: Profile)
    requires Recorded(st)
    ensures var waiting := PushProfile(FreezeManager(st), p); var thawed := ThawManager(waiting);
            && waiting.queue == [p] + st.queue && waiting.freezeCount == st.freezeCount + 1
            && waiting.profiles == st.profiles && waiting.connections == st.connections && waiting.reactions == st.reactions
            && (st.freezeCount > 0 ==> thawed == Logged(waiting.(freezeCount := st.freezeCount), Thaw))
            && (thawed.freezeCount == 0 ==> thawed.queue == [] && thawed.profiles == StackOf(thawed.log))
            && (st.freezeCount == 0 && st.reactions == [] ==> thawed.profiles == [p] + st.queue + st.profiles)
  {
    var waiting := PushProfile(FreezeManager(st), p);
    LoadsAll(Thawed(waiting));
  }
}

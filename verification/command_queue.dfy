/** The command queue, libanjuta/anjuta-command-queue.c.  Every start of a command
    connects the handler of the queue once more, and all connected handlers are called
    when the command finishes; so "one command at a time" is a law about commands that
    are pushed once, and for others depends on how many handlers are called. */
module CommandQueues {
  import opened Sequences

  datatype ExecuteMode = Automatic | Manual

  /** A command, with the number of times that the queue is connected to it. */
  class Command {
    const synchronous: bool  // finishes inside its start method
    var running: bool
    var handlers: nat

    constructor (synchronous: bool)
      ensures this.synchronous == synchronous && !running && handlers == 0
    {
      this.synchronous, running, handlers := synchronous, false, 0;
    }
  }

  datatype State = State(
    mode: ExecuteMode,
    queue: seq<Command>,
    busy: bool,
    handlers: map<Command, nat>,
    running: set<Command>,
    started: seq<Command>,    // the arguments of anjuta_command_start
    finished: seq<Command>,
    signals: nat)             // emissions of "finished"

  function Handlers(handlers: map<Command, nat>, c: Command): nat {
    if c in handlers then handlers[c] else 0
  }

  function Connected(handlers: map<Command, nat>, c: Command): map<Command, nat> {
    handlers[c := Handlers(handlers, c) + 1]
  }

  /** What was started, then what waits. */
  function InOrder(st: State): seq<Command> {
    st.started + st.queue
  }

  /** Does a command finish as soon as it is started?  A running one is not started again. */
  predicate AtOnce(c: Command, running: set<Command>) {
    c.synchronous && c !in running
  }

  /** A command is connected and handed to anjuta_command_start. */
  function Handed(st: State, c: Command): State {
    st.(handlers := Connected(st.handlers, c), started := st.started + [c])
  }

  function Ended(st: State, c: Command): State {
    st.(running := st.running - {c}, finished := st.finished + [c])
  }

  /** A handler finds nothing to start. */
  function Idle(st: State): State {
    st.(busy := false, signals := st.signals + if st.mode == Manual then 1 else 0)
  }

  /** An idle automatic queue holds nothing. */
  predicate Settled(st: State) {
    st.mode == Automatic && !st.busy ==> st.queue == []
  }

  /** Whatever a queue does, it starts the waiting commands in their order. */
  predicate Onwards(before: State, after: State) {
    && InOrder(after) == InOrder(before)
    && |after.queue| <= |before.queue|
    && after.mode == before.mode
    && (after.busy ==> before.busy)
    && (before.busy && !after.busy ==> after.queue == [])
    && (Settled(before) ==> Settled(after))
  }

  function Started(st: State, c: Command): (r: State)
    ensures Onwards(Handed(st, c), r)
    decreases |st.queue|, 2, 0
  {
    var handed := Handed(st, c);
    if AtOnce(c, st.running) then Finished(handed, c) else handed.(running := st.running + {c})
  }

  /** "command-finished" */
  function Finished(st: State, c: Command): (r: State)
    ensures Onwards(st, r)
    decreases |st.queue|, 1, 0
  {
    Handled(Ended(st, c), Handlers(st.handlers, c))
  }

  /** So many calls of on_command_finished. */
  function Handled(st: State, calls: nat): (r: State)
    ensures Onwards(st, r)
    decreases |st.queue|, 0, calls
  {
    if calls == 0 then st
    else if st.queue == [] then Handled(Idle(st), calls - 1)
    else
      assert (st.started + [st.queue[0]]) + st.queue[1..] == InOrder(st);
      Handled(Started(st.(queue := st.queue[1..]), st.queue[0]), calls - 1)
  }

  /** anjuta_command_queue_push: whatever is pushed, and however often, is started in the
      order of the pushes. */
  function Pushed(st: State, c: Command): (r: State)
    ensures Settled(st) ==> Settled(r) && InOrder(r) == InOrder(st) + [c]
    ensures st.mode == Manual || st.busy ==> r.queue == st.queue + [c] && r.running == st.running
  {
    assert st.started + (st.queue + [c]) == InOrder(st) + [c];
    assert st.queue == [] ==> (st.started + [c]) + st.queue == InOrder(st) + [c];
    if st.mode == Automatic && !st.busy then Started(st.(busy := true), c) else st.(queue := st.queue + [c])
  }

  /** anjuta_command_queue_start */
  function Run(st: State): (r: State)
    ensures InOrder(r) == InOrder(st) && (Settled(st) ==> Settled(r))
    ensures r == st <==> !(st.mode == Manual && !st.busy && st.queue != [])
  {
    if st.mode == Manual && !st.busy && st.queue != [] then
      assert (st.started + [st.queue[0]]) + st.queue[1..] == InOrder(st);
      Started(st.(queue := st.queue[1..], busy := true), st.queue[0])
    else st
  }

  /** The handlers can be called in several goes. */
  lemma {:induction false} HandledSum(st: State, a: nat, b: nat)
    ensures Handled(st, a + b) == Handled(Handled(st, a), b)
    decreases |st.queue|, a
  {
    if a > 0 {
      if st.queue == [] {
        HandledSum(Idle(st), a - 1, b);
      } else {
        HandledSum(Started(st.(queue := st.queue[1..]), st.queue[0]), a - 1, b);
      }
    }
  }

  /** The first waiting command has been taken: one that finishes at once leaves the
      calls of its own handlers to do. */
  function Next(st: State): (r: State)
    requires st.queue != []
    ensures r.queue == st.queue[1..] && r.started == st.started + [st.queue[0]]
  {
    var c := st.queue[0];
    var handed := Handed(st.(queue := st.queue[1..]), c);
    if AtOnce(c, st.running) then Ended(handed, c) else handed.(running := st.running + {c})
  }

  function Calls(st: State, calls: nat): nat
    requires st.queue != [] && calls > 0
  {
    if AtOnce(st.queue[0], st.running) then Handlers(st.handlers, st.queue[0]) + calls else calls - 1
  }

  /** How many waiting commands are started when so many handlers are called. */
  function Reach(st: State, calls: nat): (k: nat)
    ensures k <= |st.queue|
    ensures k >= if calls < |st.queue| then calls else |st.queue|
    decreases |st.queue|
  {
    if calls == 0 || st.queue == [] then 0 else 1 + Reach(Next(st), Calls(st, calls))
  }

  function Asynchronous(list: seq<Command>): set<Command> {
    set c | c in list && !c.synchronous
  }

  lemma HandledNext(st: State, calls: nat)
    requires calls > 0 && st.queue != []
    ensures Handled(st, calls) == Handled(Next(st), Calls(st, calls))
  {
    var c := st.queue[0];
    var handed := Handed(st.(queue := st.queue[1..]), c);
    if AtOnce(c, st.running) {
      HandledSum(Ended(handed, c), Handlers(handed.handlers, c), calls - 1);
      assert Started(st.(queue := st.queue[1..]), c) == Finished(handed, c);
    }
  }

  lemma HandledOne(st: State)
    ensures Handled(st, 1) == if st.queue == [] then Idle(st) else Started(st.(queue := st.queue[1..]), st.queue[0])
  {
    if st.queue != [] {
      var r := Started(st.(queue := st.queue[1..]), st.queue[0]);
      assert Handled(st, 1) == Handled(r, 0);
    } else {
      assert Handled(st, 1) == Handled(Idle(st), 0);
    }
  }

  /** A state in which some waiting commands more have been started. */
  predicate Reached(before: State, k: nat, after: State)
    requires k <= |before.queue|
  {
    && after.started == before.started + before.queue[..k]
    && after.queue == before.queue[k..]
    && after.running == before.running + Asynchronous(before.queue[..k])
  }

  lemma ReachedNext(st: State, k: nat, after: State)
    requires st.queue != [] && k < |st.queue| && Reached(Next(st), k, after)
    ensures Reached(st, k + 1, after)
  {
    var next := Next(st);
    assert st.queue[..k + 1] == [st.queue[0]] + next.queue[..k];
    Associative(st.started, [st.queue[0]], next.queue[..k]);
    assert next.running == st.running + Asynchronous([st.queue[0]]);
  }

  /** Exactly so many are started, and those that do not finish at once run together. */
  lemma {:induction false} HandledReach(st: State, calls: nat)
    ensures Reached(st, Reach(st, calls), Handled(st, calls))
    decreases |st.queue|, calls
  {
    if calls > 0 {
      if st.queue == [] {
        HandledReach(Idle(st), calls - 1);
      } else {
        HandledNext(st, calls);
        HandledReach(Next(st), Calls(st, calls));
        ReachedNext(st, Reach(Next(st), Calls(st, calls)), Handled(st, calls));
      }
    }
  }

  /** When the only running command finishes, at most one runs afterwards exactly when
      those started by its handlers that do not finish at once are the same. */
  lemma OneAtATime(st: State, c: Command)
    requires st.running == {c}
    ensures var started := st.queue[..Reach(Ended(st, c), Handlers(st.handlers, c))];
            && Finished(st, c).started == st.started + started
            && ((forall a, b | a in Finished(st, c).running && b in Finished(st, c).running :: a == b) <==>
                forall i, j | 0 <= i < j < |started| && !started[i].synchronous && !started[j].synchronous ::
                  started[i] == started[j])
  {
    HandledReach(Ended(st, c), Handlers(st.handlers, c));
    assert st.running - {c} == {};
    var started := st.queue[..Reach(Ended(st, c), Handlers(st.handlers, c))];
    assert Finished(st, c).running == Asynchronous(started);
    assert forall i | 0 <= i < |started| && !started[i].synchronous :: started[i] in Asynchronous(started);
  }

  /** A command pushed twice starts two others together when it finishes again. */
  lemma RepeatedCommand(c: Command, d: Command, e: Command)
    requires c != d && c != e && d != e && !c.synchronous && !d.synchronous && !e.synchronous
    ensures var empty := State(Automatic, [], false, map[], {}, [], [], 0);
            Finished(Finished(Pushed(Pushed(Pushed(Pushed(empty, c), c), d), e), c), c).running == {d, e}
  {
    var q := Pushed(Pushed(Pushed(Pushed(State(Automatic, [], false, map[], {}, [], [], 0), c), c), d), e);
    assert q.queue == [c, d, e] && Handlers(q.handlers, c) == 1 && q.running - {c} == {};
    var again := Started(Ended(q, c).(queue := [d, e]), c);
    assert Finished(q, c) == Handled(again, 0);
    assert again.running - {c} == {} && Handlers(again.handlers, c) == 2;
    HandledReach(Ended(again, c), 2);
    assert Asynchronous([d, e]) == {d, e};
  }

  /** How many commands at the head of a list finish as soon as they are started. */
  function Leading(list: seq<Command>): (k: nat)
    ensures k <= |list|
    ensures forall i | 0 <= i < k :: list[i].synchronous
    ensures k < |list| ==> !list[k].synchronous
  {
    if list != [] && list[0].synchronous then 1 + Leading(list[1..]) else 0
  }

  /** Commands that are pushed once: the started ones have one handler each, and at most
      one runs, the last. */
  ghost predicate Once(st: State) {
    && Distinct(InOrder(st))
    && (forall c | c in st.started :: Handlers(st.handlers, c) == 1)
    && (forall c | c in st.queue :: Handlers(st.handlers, c) == 0)
    && Settled(st)
    && if st.busy
       then exists c :: c in st.started && !c.synchronous && st.running == {c} && st.started == st.finished + [c]
       else st.running == {} && st.started == st.finished
  }

  /** A state after a list of commands could be started: it ran on to the first that does
      not finish at once. */
  ghost predicate RanOn(before: State, list: seq<Command>, after: State) {
    var k := Leading(list);
    && after.finished == before.finished + list[..k]
    && after.queue == (if k < |list| then list[k + 1..] else [])
    && after.running == (if k < |list| then {list[k]} else {})
    && (after.busy <==> k < |list|)
    && after.signals == before.signals + if k == |list| && before.mode == Manual then 1 else 0
  }

  lemma Apart(done: seq<Command>, c: Command, queue: seq<Command>)
    requires Distinct(done + [c] + queue)
    ensures c !in done && c !in queue
    ensures forall d | d in done :: d !in queue
  {
    var s := done + [c] + queue;
    assert s[|done|] == c;
    assert forall i | 0 <= i < |done| :: s[i] == done[i];
    assert forall i | 0 <= i < |queue| :: s[|done| + 1 + i] == queue[i];
  }

  lemma RanOnNext(st: State, c: Command, r: State)
    requires c.synchronous && RanOn(Ended(st, c), st.queue, r)
    ensures RanOn(st, [c] + st.queue, r)
  {
    var k := Leading(st.queue);
    assert ([c] + st.queue)[1..] == st.queue;
    assert ([c] + st.queue)[..k + 1] == [c] + st.queue[..k];
    Associative(st.finished, [c], st.queue[..k]);
  }

  /** The state in which a new command can be started. */
  ghost predicate Ready(st: State, c: Command) {
    && Distinct(st.started + [c] + st.queue)
    && st.busy && st.running == {} && st.started == st.finished
    && (forall d | d in st.started :: Handlers(st.handlers, d) == 1)
    && Handlers(st.handlers, c) == 0
    && (forall d | d in st.queue :: Handlers(st.handlers, d) == 0)
  }

  lemma ReadyNext(st: State, c: Command)
    requires Ready(st, c) && c.synchronous && st.queue != []
    ensures Ready(Ended(Handed(st, c), c).(queue := st.queue[1..]), st.queue[0])
  {
    Apart(st.started, c, st.queue);
    var next := Ended(Handed(st, c), c);
    assert st.started + [c] + st.queue == next.started + [st.queue[0]] + st.queue[1..];
    assert st.queue[0] in st.queue;
    forall d | d in st.queue
      ensures Handlers(next.handlers, d) == 0
    {
      assert d != c;
    }
    assert forall d | d in st.queue[1..] :: d in st.queue;
  }

  /** A command that finishes at once leaves the rest of the list to be started. */
  lemma StartedAtOnce(st: State, c: Command)
    requires Ready(st, c) && c.synchronous
    ensures var ended := Ended(Handed(st, c), c);
            && ended.running == {}
            && Started(st, c) ==
               if st.queue == [] then Idle(ended) else Started(ended.(queue := st.queue[1..]), st.queue[0])
  {
    var ended := Ended(Handed(st, c), c);
    HandledOne(ended);
    assert Started(st, c) == Handled(ended, 1);
  }

  lemma {:induction false} StartedOnce(st: State, c: Command)
    requires Ready(st, c)
    ensures Once(Started(st, c)) && RanOn(st, [c] + st.queue, Started(st, c))
    decreases |st.queue|
  {
    Apart(st.started, c, st.queue);
    var r := Started(st, c);
    if !c.synchronous {
      assert c in Handed(st, c).started;
      assert ([c] + st.queue)[1..] == st.queue;
    } else {
      StartedAtOnce(st, c);
      if st.queue == [] {
        assert RanOn(Ended(st, c), [], r);
      } else {
        ReadyNext(st, c);
        StartedOnce(Ended(Handed(st, c), c).(queue := st.queue[1..]), st.queue[0]);
        assert [st.queue[0]] + st.queue[1..] == st.queue;
        assert RanOn(Ended(st, c), st.queue, r);
      }
      RanOnNext(st, c, r);
    }
  }

  lemma PushedOnce(st: State, c: Command)
    requires Once(st) && c !in InOrder(st) && Handlers(st.handlers, c) == 0
    ensures Once(Pushed(st, c))
    ensures st.mode == Automatic && !st.busy ==> RanOn(st, [c], Pushed(st, c))
  {
    assert InOrder(Pushed(st, c)) == InOrder(st) + [c];
    if st.mode == Automatic && !st.busy {
      assert st.started + [c] + [] == InOrder(st) + [c] && [c] + [] == [c];
      StartedOnce(st.(busy := true), c);
    }
  }

  lemma RunOnce(st: State)
    requires Once(st)
    ensures Once(Run(st)) && (Run(st) != st ==> RanOn(st, st.queue, Run(st)))
  {
    if Run(st) != st {
      var c, t := st.queue[0], st.queue[1..];
      assert st.started + [c] + t == InOrder(st) && [c] + t == st.queue;
      StartedOnce(st.(queue := t, busy := true), c);
    }
  }

  /** When the running command finishes, the queue runs on to the next one that does not
      finish at once; "finished" is emitted once, and only when a manual queue drains. */
  lemma FinishedOnce(st: State, c: Command)
    requires Once(st) && c in st.running
    ensures Once(Finished(st, c)) && RanOn(Ended(st, c), st.queue, Finished(st, c))
  {
    var ended := Ended(st, c);
    assert ended.running == {} && ended.started == ended.finished && Handlers(st.handlers, c) == 1;
    HandledOne(ended);
    if st.queue != [] {
      var d, t := st.queue[0], st.queue[1..];
      assert st.started + [d] + t == InOrder(st) && [d] + t == st.queue;
      StartedOnce(ended.(queue := t), d);
    }
  }

  /** `commands` are the commands that a program has. */
  class CommandQueue {
    var queue: seq<Command>
    var busy: bool
    const mode: ExecuteMode
    var finishedSignals: nat
    ghost var started: seq<Command>
    ghost var finished: seq<Command>

    constructor (mode: ExecuteMode)
      ensures this.mode == mode && queue == [] && !busy && finishedSignals == 0 && started == finished == []
    {
      this.mode := mode;
      queue, busy, finishedSignals := [], false, 0;
      started, finished := [], [];
    }

    ghost function Now(commands: set<Command>): State
      reads this, commands
    {
      State(mode, queue, busy, map c | c in commands :: c.handlers, (set c | c in commands && c.running),
            started, finished, finishedSignals)
    }

    ghost predicate Within(commands: set<Command>)
      reads this
    {
      forall c | c in queue :: c in commands
    }

    /** The queue connects to a command and starts it. */
    method StartCommand(command: Command, ghost commands: set<Command>)
      requires Within(commands) && command in commands
      modifies this, commands
      ensures Within(commands) && Now(commands) == Started(old(Now(commands)), command)
      decreases |queue|, 2
    {
      ghost var before := Now(commands);
      command.handlers := command.handlers + 1;
      started := started + [command];
      assert Now(commands) == Handed(before, command);
      if !command.running {
        command.running := true;
        if command.synchronous {
          assert Ended(Now(commands), command) == Ended(Handed(before, command), command);
          CommandFinished(command, commands);
        }
      }
    }

    /** "command-finished": the command no longer runs, and every handler that was
        connected before is called. */
    method CommandFinished(command: Command, ghost commands: set<Command>)
      requires Within(commands) && command in commands
      modifies this, commands
      ensures Within(commands) && Now(commands) == Finished(old(Now(commands)), command)
      decreases |queue|, 1
    {
      ghost var before := Now(commands);
      command.running := false;
      finished := finished + [command];
      ghost var ended := Ended(before, command);
      assert Now(commands) == ended;
      var calls := command.handlers;
      for i := 0 to calls
        invariant Within(commands) && |queue| <= |before.queue|
        invariant Handled(Now(commands), calls - i) == Handled(ended, calls)
      {
        ghost var now := Now(commands);
        HandledSum(now, 1, calls - i - 1);
        assert Handled(Handled(now, 1), calls - i - 1) == Handled(ended, calls);
        OnCommandFinished(commands);
      }
    }

    /** on_command_finished */
    method OnCommandFinished(ghost commands: set<Command>)
      requires Within(commands)
      modifies this, commands
      ensures Within(commands) && Now(commands) == Handled(old(Now(commands)), 1)
      decreases |queue|, 0
    {
      ghost var before := Now(commands);
      HandledOne(before);
      if queue != [] {
        var next := queue[0];
        queue := queue[1..];
        assert Now(commands) == before.(queue := before.queue[1..]);
        StartCommand(next, commands);
      } else {
        busy := false;
        if mode == Manual {
          finishedSignals := finishedSignals + 1;
        }
        assert Now(commands) == Idle(before);
      }
    }

    /** anjuta_command_queue_push */
    method Push(command: Command, ghost commands: set<Command>)
      requires Within(commands) && command in commands
      modifies this, commands
      ensures Within(commands) && Now(commands) == Pushed(old(Now(commands)), command)
    {
      if mode == Automatic {
        if !busy {
          busy := true;
          assert Now(commands) == old(Now(commands)).(busy := true);
          StartCommand(command, commands);
        } else {
          queue := queue + [command];
        }
      } else {
        queue := queue + [command];
      }
    }

    /** anjuta_command_queue_start */
    method Start(ghost commands: set<Command>) returns (ret: bool)
      requires Within(commands)
      modifies this, commands
      ensures Within(commands) && Now(commands) == Run(old(Now(commands)))
      ensures ret <==> mode == Manual && !old(busy) && old(queue) != []
    {
      ret := false;
      if mode == Manual && !busy && queue != [] {
        var firstCommand := queue[0];
        queue := queue[1..];
        busy, ret := true, true;
        assert Now(commands) == old(Now(commands)).(queue := old(queue)[1..], busy := true);
        StartCommand(firstCommand, commands);
      }
    }
  }
}

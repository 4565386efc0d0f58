/** Loading a session, anjuta_shell_session_load in libanjuta/anjuta-shell.c.  The
    handlers of "load_session" may load another session, which aborts the one that
    is being loaded.  The n-th emission from now requests as many sessions as the n-th
    element of `reactions` says, so that every finite pattern of requests is covered. */
module SessionLoading {
  import opened Options
  import opened Sequences

  datatype Phase = Start | First | Normal | Last | End

  datatype Emission = Emission(phase: Phase, session: nat)

  /** How many of the phases between START and END. */
  type Passed = n: nat | n <= 3

  /** A session that was started, went through some of the phases, and was ended. */
  datatype Block = Block(session: nat, phases: Passed)

  const PHASES := [First, Normal, Last]

  function Opened(session: nat, phases: Passed): seq<Emission> {
    [Emission(Start, session)] + seq(phases, i requires 0 <= i < phases => Emission(PHASES[i], session))
  }

  /** The phases come in this order. */
  lemma OpenedInOrder(session: nat, phases: Passed)
    ensures Opened(session, phases) ==
            [Emission(Start, session), Emission(First, session), Emission(Normal, session), Emission(Last, session)][..phases + 1]
  {
  }

  function Emissions(blocks: seq<Block>): seq<Emission>
    decreases |blocks|
  {
    if blocks == [] then []
    else
      var n := |blocks| - 1;
      Emissions(blocks[..n]) + Opened(blocks[n].session, blocks[n].phases) + [Emission(End, blocks[n].session)]
  }

  lemma OpenedMore(before: seq<Emission>, session: nat, phases: nat)
    requires phases < 3
    ensures (before + Opened(session, phases)) + [Emission(PHASES[phases], session)] == before + Opened(session, phases + 1)
  {
    assert Opened(session, phases) + [Emission(PHASES[phases], session)] == Opened(session, phases + 1);
    Associative(before, Opened(session, phases), [Emission(PHASES[phases], session)]);
  }

  lemma EmissionsMore(blocks: seq<Block>, session: nat, phases: Passed, before: seq<Emission>)
    ensures (before + Emissions(blocks)) + Opened(session, phases) + [Emission(End, session)]
         == before + Emissions(blocks + [Block(session, phases)])
  {
    assert (blocks + [Block(session, phases)])[..|blocks|] == blocks;
  }

  /** Blocks of one session each, in the order of the requests, no session twice. */
  ghost predicate WellOrdered(blocks: seq<Block>, first: nat) {
    && (blocks != [] ==> blocks[0].session == first)
    && forall i, j :: 0 <= i < j < |blocks| ==> blocks[i].session < blocks[j].session
  }

  function Sessions(blocks: seq<Block>): set<nat>
    decreases |blocks|
  {
    if blocks == [] then {} else Sessions(blocks[..|blocks| - 1]) + {blocks[|blocks| - 1].session}
  }

  /** A session is started once and ended once if it has a block, and else neither. */
  ghost predicate Balanced(blocks: seq<Block>, session: nat)
  {
    var m := multiset(Emissions(blocks));
    m[Emission(Start, session)] == m[Emission(End, session)] == if session in Sessions(blocks) then 1 else 0
  }

  lemma EmissionsLast(blocks: seq<Block>, b: Block)
    ensures multiset(Emissions(blocks + [b]))
         == multiset(Emissions(blocks)) + multiset(Opened(b.session, b.phases) + [Emission(End, b.session)])
  {
    EmissionsMore(blocks, b.session, b.phases, []);
    assert [] + Emissions(blocks) == Emissions(blocks) && [] + Emissions(blocks + [b]) == Emissions(blocks + [b]);
    var block := Opened(b.session, b.phases) + [Emission(End, b.session)];
    assert Emissions(blocks) + Opened(b.session, b.phases) + [Emission(End, b.session)] == Emissions(blocks) + block;
  }

  lemma BlockCounts(session: nat, phases: Passed, other: nat)
    ensures var m := multiset(Opened(session, phases) + [Emission(End, session)]);
            m[Emission(Start, other)] == m[Emission(End, other)] == if other == session then 1 else 0
  {
    var rest := seq(phases, i requires 0 <= i < phases => Emission(PHASES[i], session));
    assert Emission(Start, other) !in multiset(rest) && Emission(End, other) !in multiset(rest) by {
      assert Emission(Start, other) !in rest && Emission(End, other) !in rest;
    }
    assert multiset(Opened(session, phases) + [Emission(End, session)])
        == multiset{Emission(Start, session)} + multiset(rest) + multiset{Emission(End, session)};
  }

  lemma BalancedMore(blocks: seq<Block>, b: Block, more: seq<Block>, session: nat)
    requires Balanced(blocks, session) && b.session !in Sessions(blocks) && more == blocks + [b]
    ensures Balanced(more, session)
  {
    EmissionsLast(blocks, b);
    BlockCounts(b.session, b.phases, session);
    assert more[..|blocks|] == blocks;
  }

  lemma NothingBalanced(session: nat)
    ensures Balanced([], session)
  {
  }

  lemma {:induction false} SessionsBelow(blocks: seq<Block>, bound: nat)
    requires forall i :: 0 <= i < |blocks| ==> blocks[i].session < bound
    ensures bound !in Sessions(blocks)
    decreases |blocks|
  {
    if blocks != [] { SessionsBelow(blocks[..|blocks| - 1], bound); }
  }

  /** In a well-ordered trace each session is started once and ended once, or neither. */
  lemma {:induction false} StartedAndEndedOnce(blocks: seq<Block>, first: nat, session: nat)
    requires WellOrdered(blocks, first)
    ensures Balanced(blocks, session)
    decreases |blocks|
  {
    if blocks == [] {
      NothingBalanced(session);
    } else {
      var n := |blocks| - 1;
      StartedAndEndedOnce(blocks[..n], first, session);
      SessionsBelow(blocks[..n], blocks[n].session);
      BalancedMore(blocks[..n], blocks[n], blocks, session);
    }
  }

  /** A session may come next. */
  ghost predicate Extends(blocks: seq<Block>, first: nat, session: nat) {
    && WellOrdered(blocks, first)
    && if blocks == [] then session == first else blocks[|blocks| - 1].session < session
  }

  /** A block more, for a session that may come next. */
  lemma BlockMore(blocks: seq<Block>, first: nat, session: nat, phases: Passed, before: seq<Emission>)
    requires Extends(blocks, first, session)
    ensures WellOrdered(blocks + [Block(session, phases)], first)
    ensures (before + Emissions(blocks)) + Opened(session, phases) + [Emission(End, session)]
         == before + Emissions(blocks + [Block(session, phases)])
  {
    EmissionsMore(blocks, session, phases, before);
  }

  /** The blocks of one outermost call: the last is for the session created last, and
      it went through all phases. */
  ghost predicate Complete(blocks: seq<Block>, first: nat, created: nat) {
    && WellOrdered(blocks, first)
    && blocks != [] && blocks[|blocks| - 1].phases == 3 && blocks[|blocks| - 1].session + 1 == created
  }

  /** How many sessions the handlers of the next emission request. */
  function Requests(reactions: seq<nat>): nat {
    if reactions == [] then 0 else reactions[0]
  }

  function Later(reactions: seq<nat>): seq<nat> {
    if reactions == [] then [] else reactions[1..]
  }

  /** What follows an emission when `latest` is the session that was requested last: a
      session that is not wanted any more ends at once, and the latest one is started
      after the end of another one. */
  function Next(e: Emission, latest: nat): Option<Emission> {
    match e.phase
    case End => if latest == e.session then None else Some(Emission(Start, latest))
    case _ =>
      if latest != e.session then Some(Emission(End, e.session))
      else Some(e.(phase := match e.phase case Start => First case First => Normal case Normal => Last case _ => End))
  }

  /** How many phases a session still has to go through. */
  function Ahead(phase: Phase): nat {
    match phase case Start => 4 case First => 3 case Normal => 2 case Last => 1 case End => 0
  }

  /** The emissions from `e` on, when so many sessions have been created before it. */
  function Run(e: Emission, created: nat, reactions: seq<nat>): (r: seq<Emission>)
    requires e.session < created
    ensures r != [] && r[0] == e
    decreases |reactions|, if e.session + 1 == created then 0 else 1, Ahead(e.phase)
  {
    var more := created + Requests(reactions);
    match Next(e, more - 1)
    case None => [e]
    case Some(next) => [e] + Run(next, more, Later(reactions))
  }

  lemma RunFirst(before: seq<Emission>, e: Emission, created: nat, reactions: seq<nat>)
    requires e.session < created
    ensures var more := created + Requests(reactions);
            before + Run(e, created, reactions) ==
            match Next(e, more - 1)
            case None => before + [e]
            case Some(next) => (before + [e]) + Run(next, more, Later(reactions))
  {
    var more := created + Requests(reactions);
    if Next(e, more - 1).Some? {
      Associative(before, [e], Run(Next(e, more - 1).value, more, Later(reactions)));
    }
  }

  /** How many sessions the handlers of the next n emissions request. */
  function RequestsIn(reactions: seq<nat>, n: nat): nat {
    if n == 0 || reactions == [] then 0 else reactions[0] + RequestsIn(reactions[1..], n - 1)
  }

  /** Every emission of a run follows from the one before and from the requests made so
      far, those of its own handlers included, and the run goes on as long as one follows. */
  lemma {:induction false} RunSteps(e: Emission, created: nat, reactions: seq<nat>, k: nat)
    requires e.session < created && k < |Run(e, created, reactions)|
    ensures var r := Run(e, created, reactions);
            Next(r[k], created + RequestsIn(reactions, k + 1) - 1) == if k + 1 < |r| then Some(r[k + 1]) else None
    decreases k
  {
    var more := created + Requests(reactions);
    if k > 0 {
      RunSteps(Next(e, more - 1).value, more, Later(reactions), k - 1);
    } else {
      assert reactions != [] ==> RequestsIn(reactions[1..], 0) == 0;
    }
  }

  class Shell {
    var loading: Option<nat>          // "__session_loading"
    var refs: seq<nat>                // reference counts of all sessions created so far
    var reactions: seq<nat>
    var trace: seq<Emission>
    ghost var leaked: set<nat>        // loaded sessions that nobody will release

    /** The owners of the sessions: the slot, the loop that holds one session, and
        the references that were lost.  The slot holds the latest session. */
    ghost predicate Counted(held: Option<nat>)
      reads this`loading, this`refs, this`leaked
    {
      && (loading.Some? ==> loading.value + 1 == |refs| && loading.value !in leaked)
      && (held.Some? ==> held.value < |refs|)
      && (forall id | id in leaked :: id < |refs|)
      && forall id :: 0 <= id < |refs| ==>
          refs[id] == (if id in leaked then 1 else 0) + (if loading == Some(id) then 1 else 0) + (if held == Some(id) then 1 else 0)
    }

    /** The trace so far, with the emissions from `e` on, makes a whole run. */
    ghost predicate Leads(e: Emission, run: seq<Emission>)
      requires e.session < |refs|
      reads this`refs, this`reactions, this`trace
    {
      run == trace + Run(e, |refs|, reactions)
    }

    constructor (reactions: seq<nat>)
      ensures loading == None && trace == [] && leaked == {} && this.reactions == reactions && Counted(None)
    {
      loading, refs, this.reactions, trace, leaked := None, [], reactions, [], {};
    }

    method Ref(session: nat)
      requires session < |refs| && refs[session] > 0
      modifies this`refs
      ensures refs == old(refs)[session := old(refs)[session] + 1]
    {
      refs := refs[session := refs[session] + 1];
    }

    /** Only a live session is released. */
    method Unref(session: nat)
      requires session < |refs| && refs[session] > 0
      modifies this`refs
      ensures refs == old(refs)[session := old(refs)[session] - 1]
    {
      refs := refs[session := refs[session] - 1];
    }

    /** Drops the reference of the loop. */
    method Release(session: nat)
      requires Counted(Some(session)) && session < |refs|
      modifies this`refs
      ensures Counted(None) && |refs| == |old(refs)|
    {
      Unref(session);
    }

    /** Emits "load_session" for a live session, which is still alive afterwards. */
    method Emit(phase: Phase, session: nat, ghost run: seq<Emission>)
      requires Counted(Some(session)) && loading.Some? && session < |refs|
      requires Leads(Emission(phase, session), run)
      modifies this`loading, this`refs, this`reactions, this`trace
      ensures Counted(Some(session)) && loading.Some? && session < |refs| && refs[session] > 0
      ensures trace == old(trace) + [Emission(phase, session)]
      ensures |refs| == |old(refs)| + Requests(old(reactions)) && reactions == Later(old(reactions))
      ensures match Next(Emission(phase, session), |refs| - 1)
              case None => trace == run
              case Some(next) => next.session < |refs| && Leads(next, run)
      ensures if loading == old(loading) then |refs| == |old(refs)|
              else |refs| > |old(refs)| && |reactions| < |old(reactions)|
      ensures |reactions| <= |old(reactions)|
      decreases 1, 0
    {
      RunFirst(trace, Emission(phase, session), |refs|, reactions);
      trace := trace + [Emission(phase, session)];
      if reactions == [] {
        return;
      }
      var requests := reactions[0];
      reactions := reactions[1..];
      var i := 0;
      while i < requests
        invariant 0 <= i <= requests
        invariant Counted(Some(session)) && loading.Some? && session < |refs|
        invariant trace == old(trace) + [Emission(phase, session)] && reactions == old(reactions)[1..]
        invariant |refs| == |old(refs)| + i && (i > 0 ==> loading != old(loading))
      {
        ghost var blocks := SessionLoad(Some(session));
        i := i + 1;
      }
    }

    /** Emits one phase and tells what is in the slot then. */
    method EmitPhase(phase: Phase, ghost next: Phase, session: nat, ghost run: seq<Emission>) returns (child: Option<nat>)
      requires Counted(Some(session)) && loading == Some(session) && Leads(Emission(phase, session), run)
      requires phase != End && Next(Emission(phase, session), session) == Some(Emission(next, session))
      modifies this`loading, this`refs, this`reactions, this`trace
      ensures Counted(Some(session)) && loading == child && child.Some? && session < |refs|
      ensures trace == old(trace) + [Emission(phase, session)] && |reactions| <= |old(reactions)|
      ensures if child == Some(session) then |refs| == |old(refs)| && Leads(Emission(next, session), run)
              else |refs| > |old(refs)| && child.value > session && |reactions| < |old(reactions)| && Leads(Emission(End, session), run)
      decreases 1, 1
    {
      Emit(phase, session, run);
      child := loading;
    }

    /** Emits the phases from START on, until another session has been requested. */
    method EmitPhases(session: nat, ghost run: seq<Emission>) returns (child: Option<nat>, ghost phases: Passed)
      requires Counted(Some(session)) && loading == Some(session) && Leads(Emission(Start, session), run)
      modifies this`loading, this`refs, this`reactions, this`trace
      ensures Counted(Some(session)) && loading == child && child.Some? && session < |refs|
      ensures Leads(Emission(End, session), run)
      ensures trace == old(trace) + Opened(session, phases)
      ensures |refs| >= |old(refs)| && |reactions| <= |old(reactions)|
      ensures if child == Some(session) then phases == 3 && |refs| == |old(refs)|
              else child.value > session && |reactions| < |old(reactions)|
      decreases 1, 2
    {
      phases := 0;
      child := EmitPhase(Start, First, session, run);
      assert Opened(session, 0) == [Emission(Start, session)];
      if child != Some(session) { return; }
      child := EmitPhase(First, Normal, session, run);
      OpenedMore(old(trace), session, phases);
      phases := 1;
      if child != Some(session) { return; }
      child := EmitPhase(Normal, Last, session, run);
      OpenedMore(old(trace), session, phases);
      phases := 2;
      if child != Some(session) { return; }
      child := EmitPhase(Last, End, session, run);
      OpenedMore(old(trace), session, phases);
      phases := 3;
    }

    /** Emits END for a session and drops the reference of the loop. */
    method EndSession(session: nat, ghost phases: Passed, ghost blocks: seq<Block>, ghost first: nat, ghost before: seq<Emission>,
                      ghost run: seq<Emission>)
      returns (child: nat, ghost more: seq<Block>)
      requires Counted(Some(session)) && loading.Some? && session < |refs|
      requires Extends(blocks, first, session) && Leads(Emission(End, session), run)
      requires trace == (before + Emissions(blocks)) + Opened(session, phases)
      modifies this`loading, this`refs, this`reactions, this`trace
      ensures Counted(None) && loading == Some(child)
      ensures if child == session then trace == run else Leads(Emission(Start, child), run)
      ensures more == blocks + [Block(session, phases)] && WellOrdered(more, first)
      ensures trace == before + Emissions(more)
      ensures |reactions| <= |old(reactions)|
      ensures if loading == old(loading) then |refs| == |old(refs)|
              else |refs| > |old(refs)| && |reactions| < |old(reactions)|
      decreases 1, 1
    {
      BlockMore(blocks, first, session, phases, before);
      more := blocks + [Block(session, phases)];
      Emit(End, session, run);
      child := loading.value;
      Release(session);
    }

    /** The top of the loop: `current` is about to be started or, if there is a
        `child`, has been interrupted after some phases. */
    ghost predicate AtTop(current: nat, child: Option<nat>, phases: Passed, blocks: seq<Block>, first: nat, before: seq<Emission>,
                          run: seq<Emission>)
      reads this`loading, this`refs, this`leaked, this`trace, this`reactions
    {
      && Extends(blocks, first, current)
      && match child
         case None =>
           && Counted(None) && loading == Some(current) && trace == before + Emissions(blocks)
           && Leads(Emission(Start, current), run)
         case Some(_) =>
           && Counted(Some(current)) && loading.Some? && loading.value > current
           && trace == (before + Emissions(blocks)) + Opened(current, phases)
           && Leads(Emission(End, current), run)
    }

    /** Starts `current` and goes through its phases, and ends it if it was not
        interrupted. */
    method LoadOne(current: nat, ghost blocks: seq<Block>, ghost first: nat, ghost before: seq<Emission>, ghost run: seq<Emission>)
      returns (next: nat, child: Option<nat>, ghost phases: Passed, ghost more: seq<Block>, done: bool)
      requires AtTop(current, None, 0, blocks, first, before, run)
      modifies this`loading, this`refs, this`reactions, this`trace
      ensures done ==> Counted(None) && loading == Some(next) && Complete(more, first, |refs|)
      ensures done ==> trace == before + Emissions(more) == run
      ensures !done ==> AtTop(next, child, phases, more, first, before, run) && |reactions| < |old(reactions)|
      decreases 1, 3
    {
      Ref(current);
      next, more, done := current, blocks, false;
      child, phases := EmitPhases(current, run);
      if child != Some(current) { return; }
      next, more := EndSession(current, phases, blocks, first, before, run);
      done := next == current;
      child := None;
    }

    /** One turn of the loop: ends what was interrupted, if anything was, and starts the
        session that was requested last. */
    method LoadTurn(session: nat, interrupted: Option<nat>, ghost passed: Passed, ghost blocks: seq<Block>,
                    ghost first: nat, ghost before: seq<Emission>, ghost run: seq<Emission>)
      returns (next: nat, child: Option<nat>, ghost phases: Passed, ghost more: seq<Block>, done: bool)
      requires AtTop(session, interrupted, passed, blocks, first, before, run)
      modifies this`loading, this`refs, this`reactions, this`trace
      ensures done ==> Counted(None) && loading == Some(next) && Complete(more, first, |refs|)
      ensures done ==> trace == before + Emissions(more) == run
      ensures !done ==> AtTop(next, child, phases, more, first, before, run) && |reactions| < |old(reactions)|
      decreases 1, 4
    {
      next, more := session, blocks;
      if interrupted.Some? {
        next, more := EndSession(session, passed, blocks, first, before, run);
      }
      next, child, phases, more, done := LoadOne(next, more, first, before, run);
    }

    /** The slot is cleared without releasing what it holds. */
    method ClearSlot(session: nat)
      requires Counted(None) && loading == Some(session)
      modifies this`loading, this`leaked
      ensures Counted(None) && loading == None && leaked == old(leaked) + {|refs| - 1}
    {
      leaked := leaked + {session};
      loading := None;
    }

    /** The loop of the outermost call. */
    method LoadRequested(session: nat) returns (ghost blocks: seq<Block>)
      requires Counted(None) && loading == Some(session)
      modifies this
      ensures Counted(None) && loading == None && leaked == old(leaked) + {|refs| - 1}
      ensures Complete(blocks, session, |refs|) && trace == old(trace) + Emissions(blocks)
      ensures trace == old(trace + Run(Emission(Start, session), |refs|, reactions))
      decreases 1, 5
    {
      ghost var before := trace;
      ghost var run := trace + Run(Emission(Start, session), |refs|, reactions);
      blocks := [];
      var current: nat := session;
      var child: Option<nat> := None;
      ghost var phases: Passed := 0;
      var done := false;
      while !done
        invariant leaked == old(leaked)
        invariant !done ==> AtTop(current, child, phases, blocks, session, before, run)
        invariant done ==>
                    && Counted(None) && loading == Some(current)
                    && Complete(blocks, session, |refs|) && trace == before + Emissions(blocks) == run
        decreases !done, |reactions|
      {
        current, child, phases, blocks, done := LoadTurn(current, child, phases, blocks, session, before, run);
      }
      ClearSlot(current);
    }

    /** anjuta_shell_session_load.  A call made while another is under way replaces the
        session to load and leaves the rest to that call. */
    method SessionLoad(ghost held: Option<nat>) returns (ghost blocks: seq<Block>)
      requires Counted(held) && (loading.None? ==> held == None)
      modifies this`loading, this`refs
      modifies if loading.None? then {this} else {}
      ensures Counted(held)
      ensures old(loading).Some? ==>
                && loading.Some? && |refs| == |old(refs)| + 1
                && trace == old(trace) && reactions == old(reactions) && leaked == old(leaked)
      ensures old(loading).None? ==>
                && loading == None && Complete(blocks, |old(refs)|, |refs|)
                && trace == old(trace) + Emissions(blocks)
                && trace == old(trace) + Run(Emission(Start, |old(refs)|), |old(refs)| + 1, old(reactions))
                && leaked == old(leaked) + {|refs| - 1}
      decreases if loading.None? then 2 else 0, 0
    {
      blocks := [];
      var session: nat := |refs|;
      refs := refs + [1];
      var child := loading;
      loading := Some(session);
      if child.Some? {
        Unref(child.value);
        return;
      }
      blocks := LoadRequested(session);
    }
  }
}

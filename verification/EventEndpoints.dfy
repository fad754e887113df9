/** The two ends of the event protocol as the objects they are: each method takes the step that EventProtocol gives
  it. */
module EventEndpoints {
  import opened Wrappers
  import opened EventProtocol

  class Partition {
    // event_item pointers, by id
    var events: map<nat, Item>
    var pluginOwned: bool
    var pluginEventId: nat
    var pluginSync: Sync
    var eventsActive: bool
    var pauses: int
    // what zmq_dsend has put on the way to the frontend
    var sent: seq<Msg>

    ghost function State(): Vmi
      reads this
    {
      Vmi(events, if pluginOwned then Some((pluginEventId, pluginSync)) else None, eventsActive, pauses)
    }

    constructor ()
      ensures State() == INITIAL.vmi && sent == []
    {
      events, pluginOwned, pluginEventId, pluginSync := map[], false, 0, Async;
      eventsActive, pauses, sent := false, 0, [];
    }

    method AddEvent(item: Item) returns (id: nat)
      modifies `events
      ensures id == FreeId(old(events)) && events == old(events)[id := item]
    {
      id := 0;
      while id in events
        invariant events == old(events) && forall j | 0 <= j < id :: j in events
        invariant FreeFrom(events, id) == FreeId(events)
        decreases |events| - id
      {
        TakenIds(events, id + 1);
        id := id + 1;
      }
      events := events[id := item];
    }

    method ProcessEventRegister(sync: Sync, trapOk: bool) returns (id: Option<nat>)
      modifies this
      ensures (State(), id) == Register(old(State()), sync, trapOk) && sent == old(sent)
    {
      if |events| >= MAX_EVENTS { return None; }
      FreeIdIsLeast(events);
      ghost var before := events;
      var slot := AddEvent(Trap(sync));
      pauses := pauses + 1;
      if trapOk {
        id := Some(slot);
      } else {
        events := events - {slot};
        id := None;
        assert events == before;
      }
      pauses := pauses - 1;
    }

    method ProcessEventClear(id: nat) returns (ok: bool)
      modifies this
      ensures (State(), ok) == Clear(old(State()), id) && sent == old(sent)
    {
      pauses := pauses + 1;
      ok := id in events;
      if ok { events := events - {id}; }
      pauses := pauses - 1;
    }

    method ProcessStartSyscall(sync: Sync) returns (id: Option<nat>)
      modifies this
      ensures (State(), id) == StartPlugin(old(State()), sync) && sent == old(sent)
    {
      if pluginOwned { return None; }
      pluginEventId := AddEvent(Syscalls(sync));
      pauses := pauses + 1;
      pluginSync, pluginOwned := sync, true;
      pauses := pauses - 1;
      id := Some(pluginEventId);
    }

    /** The source asserts that the plugin's event is present; erasing an absent key would change nothing. */
    method ProcessStopSyscall() returns (ok: bool)
      modifies this
      ensures (State(), ok) == StopPlugin(old(State())) && sent == old(sent)
    {
      ok := pluginOwned;
      if !pluginOwned { return; }
      pauses := pauses + 1;
      events := events - {pluginEventId};
      pluginOwned := false;
      pauses := pauses - 1;
    }

    method TrapCallback(id: nat)
      requires id in events && events[id].Trap?
      modifies this
      ensures var (v, ms) := Trapped(old(State()), id); State() == v && sent == old(sent) + ms
    {
      if !eventsActive { return; }
      var paused := events[id].sync.Sync?;
      if paused { pauses := pauses + 1; }
      sent := sent + [Msg(id, paused)];
    }

    method SyscallCallback()
      requires pluginOwned
      modifies this
      ensures var (v, ms) := SyscallTrapped(old(State())); State() == v && sent == old(sent) + ms
    {
      var paused := pluginSync.Sync?;
      if paused { pauses := pauses + 1; }
      sent := sent + [Msg(pluginEventId, paused)];
    }
  }

  predicate CanPerform(w: World, acts: seq<Action>)
    decreases |acts|
  {
    acts == [] || (Enabled(w, acts[0]) && CanPerform(Next(w, acts[0]), acts[1..]))
  }

  /** A stretch of a run. */
  function Perform(w: World, acts: seq<Action>): World
    requires CanPerform(w, acts)
    decreases |acts|
  {
    if acts == [] then w else Perform(Next(w, acts[0]), acts[1..])
  }

  lemma {:induction false} PerformAppend(w: World, acts: seq<Action>, a: Action)
    requires CanPerform(w, acts) && Enabled(Perform(w, acts), a)
    ensures CanPerform(w, acts + [a]) && Perform(w, acts + [a]) == Next(Perform(w, acts), a)
    decreases |acts|
  {
    if acts == [] {
      assert [a][1..] == [];
    } else {
      PerformAppend(Next(w, acts[0]), acts[1..], a);
      assert (acts + [a])[1..] == acts[1..] + [a];
    }
  }

  lemma {:induction false} PerformOn(w: World, a: seq<Action>, b: seq<Action>)
    requires CanPerform(w, a) && CanPerform(Perform(w, a), b)
    ensures CanPerform(w, a + b) && Perform(w, a + b) == Perform(Perform(w, a), b)
    decreases |a|
  {
    if a == [] {
      assert a + b == b;
    } else {
      PerformOn(Next(w, a[0]), a[1..], b);
      assert (a + b)[1..] == a[1..] + b;
    }
  }

  /** A world that some run leads to. */
  ghost predicate Reachable(w: World) { exists ws, acts :: IsRun(ws, acts) && ws[|acts|] == w }

  lemma {:induction false} StartIsReachable()
    ensures Reachable(INITIAL)
  {
    assert IsRun([INITIAL], []);
  }

  lemma {:induction false} ReachableNext(w: World, a: Action)
    requires Reachable(w) && Enabled(w, a)
    ensures Reachable(Next(w, a))
  {
    var ws, acts :| IsRun(ws, acts) && ws[|acts|] == w;
    hide Next, Enabled;
    var ws', acts' := ws + [Next(w, a)], acts + [a];
    forall i | 0 <= i < |acts'|
      ensures StepOf(ws', acts', i)
    {
      if i < |acts| { assert StepOf(ws, acts, i); }
    }
    assert IsRun(ws', acts') && ws'[|acts'|] == Next(w, a);
  }

  lemma {:induction false} StretchIsReachable(w: World, acts: seq<Action>)
    requires Reachable(w) && CanPerform(w, acts)
    ensures Reachable(Perform(w, acts))
    decreases |acts|
  {
    hide Next, Enabled, Reachable;
    if acts != [] {
      ReachableNext(w, acts[0]);
      StretchIsReachable(Next(w, acts[0]), acts[1..]);
    }
  }

  /** So what holds over runs holds of the objects. */
  lemma {:induction false} ReachableIsBalanced(w: World)
    requires Reachable(w)
    ensures PausesBalance(w) && CleanupIsHeld(w)
  {
    hide StepOf, PausesBalance, CleanupIsHeld;
    var ws, acts :| IsRun(ws, acts) && ws[|acts|] == w;
    PausesAreConserved(ws, acts, |acts|);
    CleanupNeverFails(ws, acts, |acts|);
  }

  lemma {:induction false} StretchKeepsLaws(w: World, acts: seq<Action>)
    requires CanPerform(w, acts)
    ensures Reachable(w) ==>
              var w' := Perform(w, acts); Reachable(w') && PausesBalance(w') && CleanupIsHeld(w')
  {
    hide Reachable, PausesBalance, CleanupIsHeld, Next;
    if Reachable(w) {
      StretchIsReachable(w, acts);
      ReachableIsBalanced(Perform(w, acts));
    }
  }

  /** What the calls of a callback leave alone: where the loop is, but for the growth of timerlist; and the keys. */
  predicate Follows(w: World, w': World) {
    && (!w.phase.Timers? ==> w'.phase == w.phase)
    && (w.phase.Timers? ==>
          && w'.phase.Timers? && w'.phase.cleanup == w.phase.cleanup && w'.phase.timerCleanup == w.phase.timerCleanup
          && (w.phase.grown ==> w'.phase.grown)
          && (!w'.phase.grown ==> w'.timers.Keys == w.timers.Keys && w'.nextTid == w.nextTid)
          && (w'.phase.grown && !w.phase.grown ==> |w'.timers| > |w.timers|))
    && |w.timers| <= |w'.timers|
    && InactiveTimers(w.timers) <= InactiveTimers(w'.timers)
    && StillRunning(w.timers, w'.timers)
    && w.eventlist.Keys <= w'.eventlist.Keys
    && (Numbered(w) ==> Numbered(w'))
  }

  /** Timers only ever stop. */
  predicate StillRunning(timers: map<nat, Timer>, timers': map<nat, Timer>) {
    && timers.Keys <= timers'.Keys
    && forall tid | tid in timers && timers'[tid].status == ACTIVE :: timers'[tid] == timers[tid]
  }

  /** Timers have the numbers given out. */
  predicate Numbered(w: World) { forall tid | tid in w.timers :: tid < w.nextTid }

  lemma {:induction false} CallFollows(w: World, api: Api)
    requires Numbered(w)
    ensures Follows(w, Call(w, api))
  {
    hide Call, Follows, Numbered;
    match api
    case TimerRegister(backend) => TimerFollows(w, backend);
    case EventClear(id) => ClearFollows(w, id);
    case _ => OthersFollow(w, api);
  }

  lemma {:induction false} TimerFollows(w: World, backend: bool)
    requires Numbered(w)
    ensures Follows(w, Call(w, TimerRegister(backend)))
  {
    assert w.nextTid !in w.timers;
  }

  lemma {:induction false} ClearFollows(w: World, id: nat)
    requires Numbered(w)
    ensures Follows(w, Call(w, Api.EventClear(id)))
  {
    hide Clear;
    assert Call(w, Api.EventClear(id)).timers.Keys == w.timers.Keys;
  }

  /** The other calls leave the timers and the loop alone, and only add to the event list. */
  lemma {:induction false} OthersFollow(w: World, api: Api)
    requires Numbered(w) && !api.TimerRegister? && !api.EventClear?
    ensures Follows(w, Call(w, api))
  {
    hide Register, StartPlugin, StopPlugin, Follows;
    var w' := Call(w, api);
    assert w'.timers == w.timers && w'.nextTid == w.nextTid && w'.phase == w.phase;
    SamePlaceFollows(w, w');
  }

  lemma {:induction false} SamePlaceFollows(w: World, w': World)
    requires w'.timers == w.timers && w'.nextTid == w.nextTid && w'.phase == w.phase
    requires w.eventlist.Keys <= w'.eventlist.Keys
    ensures Follows(w, w')
  {}

  lemma {:induction false} FollowsRuns(w: World, w': World)
    requires Follows(w, w') && AppRuns(w.phase)
    ensures AppRuns(w'.phase) && (Numbered(w) ==> Numbered(w'))
  {}

  lemma {:induction false} SelfFollows(w: World)
    ensures Follows(w, w) && CanPerform(w, []) && Perform(w, []) == w
  {}

  lemma {:induction false} SameTimers(w: World, w': World)
    requires Follows(w, w') && w.phase.Timers? && !w'.phase.grown
    ensures w'.phase.Timers? && w'.phase.timerCleanup == w.phase.timerCleanup
    ensures w'.timers.Keys == w.timers.Keys && |w'.timers| == |w.timers| && w'.nextTid == w.nextTid
    ensures StillRunning(w.timers, w'.timers) && InactiveTimers(w.timers) <= InactiveTimers(w'.timers)
  {
    assert |w.timers.Keys| == |w.timers| && |w'.timers.Keys| == |w'.timers|;
  }

  /** A stretch of the timers' part of a tick. */
  ghost predicate Underway(was: World, acts: seq<Action>, w: World) {
    && CanPerform(was, acts) && Perform(was, acts) == w
    && was.phase.Timers? && Follows(was, w) && !w.phase.grown && Numbered(w)
  }

  lemma {:induction false} UnderwayStarts(was: World)
    requires was.phase.Timers? && !was.phase.grown && Numbered(was)
    ensures Underway(was, [], was)
  {}

  lemma {:induction false} UnderwayMeans(was: World, acts: seq<Action>, w: World)
    requires Underway(was, acts, w)
    ensures CanPerform(was, acts) && Perform(was, acts) == w
    ensures w.phase.Timers? && !w.phase.grown && Numbered(w) && w.phase.timerCleanup == was.phase.timerCleanup
    ensures w.timers.Keys == was.timers.Keys && |w.timers| == |was.timers| && w.nextTid == was.nextTid
    ensures StillRunning(was.timers, w.timers)
  {
    SameTimers(was, w);
  }

  lemma {:induction false} UnderwayGoesOn(was: World, acts: seq<Action>, mid: World, more: seq<Action>, w: World)
    requires Underway(was, acts, mid) && CanPerform(mid, more) && w == Perform(mid, more)
    ensures CanPerform(was, acts + more) && Perform(was, acts + more) == w
    ensures Follows(mid, w) && !w.phase.grown && Numbered(w) ==> Underway(was, acts + more, w)
  {
    PerformOn(was, acts, more);
    if Follows(mid, w) { FollowsOn(was, mid, w); }
  }

  lemma {:induction false} FollowsOn(w: World, w': World, w'': World)
    requires Follows(w, w') && Follows(w', w'')
    ensures Follows(w, w'')
  {}

  function Calls(script: seq<Api>): seq<Action> {
    seq(|script|, i requires 0 <= i < |script| => AppCall(script[i]))
  }

  lemma {:induction false} NoCalls(w: World, script: seq<Api>)
    ensures CanPerform(w, Calls(script)[..0]) && Perform(w, Calls(script)[..0]) == w
  {}

  lemma {:induction false} PerformNextCall(w: World, script: seq<Api>, i: nat)
    requires i < |script| && CanPerform(w, Calls(script)[..i]) && AppRuns(Perform(w, Calls(script)[..i]).phase)
    ensures CanPerform(w, Calls(script)[..i + 1])
    ensures Perform(w, Calls(script)[..i + 1]) == Call(Perform(w, Calls(script)[..i]), script[i])
  {
    PerformAppend(w, Calls(script)[..i], AppCall(script[i]));
    assert Calls(script)[..i + 1] == Calls(script)[..i] + [AppCall(script[i])];
  }

  /** A callback, as the calls that it makes before it returns or raises. */
  datatype Callback = Callback(script: seq<Api>, raises: bool)

  /** What becomes of the first message in flight. */
  function Handles(known: bool, callback: Callback): seq<Action> {
    [Receive] + (if known then Calls(callback.script) else [])
    + [if known && callback.raises then CallbackRaises else CallbackReturns]
  }

  function Begins(known: bool, event: Option<Callback>): seq<Action> {
    if event.Some? then Handles(known, event.value) else [Proceed]
  }

  lemma {:induction false} HandlesInParts(w: World, known: bool, callback: Callback)
    requires Enabled(w, Receive)
    requires var w1, calls := Next(w, Receive), if known then Calls(callback.script) else [];
             CanPerform(w1, calls) && Perform(w1, calls).phase.Handling? && Perform(w1, calls).phase.known == known
    ensures CanPerform(w, Handles(known, callback))
    ensures var calls := if known then Calls(callback.script) else [];
            Perform(w, Handles(known, callback))
            == Next(Perform(Next(w, Receive), calls),
                    if known && callback.raises then CallbackRaises else CallbackReturns)
  {
    var calls := if known then Calls(callback.script) else [];
    var end := if known && callback.raises then CallbackRaises else CallbackReturns;
    PerformAppend(Next(w, Receive), calls, end);
    assert Handles(known, callback)[1..] == calls + [end];
  }

  function MessageCalls(messages: seq<Callback>): seq<Action> {
    if messages == [] then []
    else MessageCalls(messages[..|messages| - 1]) + Calls(messages[|messages| - 1].script)
  }

  lemma {:induction false} OneStep(w: World, a: Action)
    requires Enabled(w, a)
    ensures CanPerform(w, [a]) && Perform(w, [a]) == Next(w, a)
  {
    assert [a][1..] == [];
  }

  lemma {:induction false} DeleteKeepsNumbers(w: World, ids: set<nat>)
    requires Numbered(w) && Enabled(w, Delete(ids))
    ensures Numbered(Next(w, Delete(ids)))
  {}

  ghost predicate Distinct(ids: seq<nat>) { forall i, j | 0 <= i < j < |ids| :: ids[i] != ids[j] }

  function Elements(ids: seq<nat>): set<nat> { set id | id in ids }

  lemma {:induction false} DropLast(ids: seq<nat>)
    requires Distinct(ids) && |ids| > 0
    ensures var last := |ids| - 1;
            Distinct(ids[..last]) && Elements(ids[..last]) == Elements(ids) - {ids[last]} && ids[last] in Elements(ids)
  {
    assert ids == ids[..|ids| - 1] + [ids[|ids| - 1]];
  }

  /** Timers that were running and are due. */
  ghost predicate IsDue(ran: seq<nat>, due: map<nat, Callback>, timers: map<nat, Timer>) {
    forall tid | tid in ran :: tid in due && tid in timers && timers[tid] == Timer(false, ACTIVE)
  }

  /** The timers below tk have been visited: the inactive ones collected, at least those that were up for cleanup, and
    the due ones run that had not been cleared. */
  ghost predicate Visited(tids: seq<nat>, ran: seq<nat>, due: map<nat, Callback>, first: map<nat, Timer>,
                          timers: map<nat, Timer>, cleanup: set<nat>, tk: nat)
  {
    && Distinct(tids) && (forall tid | tid in tids :: tid < tk && tid in timers && timers[tid].status == INACTIVE)
    && cleanup <= InactiveTimers(timers) && (forall tid | tid in cleanup && tid < tk :: tid in tids)
    && Distinct(ran) && IsDue(ran, due, first) && (forall tid | tid in ran :: tid < tk)
    && (forall tid | tid in due && tid in timers && timers[tid] == Timer(false, ACTIVE) && tid < tk :: tid in ran)
  }

  lemma {:induction false} VisitedMeans(tids: seq<nat>, ran: seq<nat>, due: map<nat, Callback>, first: map<nat, Timer>,
                                        timers: map<nat, Timer>, cleanup: set<nat>, tk: nat)
    requires Visited(tids, ran, due, first, timers, cleanup, tk)
    ensures Distinct(ran) && IsDue(ran, due, first)
  {}

  lemma {:induction false} NothingVisited(due: map<nat, Callback>, timers: map<nat, Timer>, cleanup: set<nat>)
    requires cleanup <= InactiveTimers(timers)
    ensures Visited([], [], due, timers, timers, cleanup, 0) && IsDue([], due, timers) && Distinct([])
  {}

  lemma {:induction false} VisitCollects(tids: seq<nat>, ran: seq<nat>, due: map<nat, Callback>, first: map<nat, Timer>,
                                         timers: map<nat, Timer>, cleanup: set<nat>, tk: nat)
    requires Visited(tids, ran, due, first, timers, cleanup, tk) && tk in timers && timers[tk].status == INACTIVE
    ensures Visited(tids + [tk], ran, due, first, timers, cleanup, tk + 1)
  {}

  lemma {:induction false} VisitSkips(tids: seq<nat>, ran: seq<nat>, due: map<nat, Callback>, first: map<nat, Timer>,
                                      timers: map<nat, Timer>, cleanup: set<nat>, tk: nat)
    requires Visited(tids, ran, due, first, timers, cleanup, tk)
    requires tk in timers ==> timers[tk].status == ACTIVE && (tk !in due || timers[tk].backend)
    ensures Visited(tids, ran, due, first, timers, cleanup, tk + 1)
  {}

  lemma {:induction false} VisitRuns(tids: seq<nat>, ran: seq<nat>, due: map<nat, Callback>, first: map<nat, Timer>,
                                     timers: map<nat, Timer>, cleanup: set<nat>, tk: nat)
    requires Visited(tids, ran, due, first, timers, cleanup, tk) && StillRunning(first, timers)
    requires tk in timers && timers[tk] == Timer(false, ACTIVE) && tk in due && first.Keys == timers.Keys
    ensures Distinct(ran + [tk]) && IsDue(ran + [tk], due, first)
    ensures Visited(tids, ran + [tk], due, first, timers, cleanup, tk + 1)
  {
    assert forall i | 0 <= i < |ran| :: ran[i] in ran;
  }

  lemma {:induction false} VisitStays(tids: seq<nat>, ran: seq<nat>, due: map<nat, Callback>, first: map<nat, Timer>,
                                      timers: map<nat, Timer>, timers': map<nat, Timer>, cleanup: set<nat>, tk: nat)
    requires Visited(tids, ran, due, first, timers, cleanup, tk) && StillRunning(timers, timers')
    requires InactiveTimers(timers) <= InactiveTimers(timers') && timers'.Keys == timers.Keys
    ensures Visited(tids, ran, due, first, timers', cleanup, tk)
  {
    assert forall tid | tid in tids :: tid in InactiveTimers(timers);
  }

  lemma {:induction false} AllVisited(tids: seq<nat>, ran: seq<nat>, due: map<nat, Callback>, first: map<nat, Timer>,
                                      w: World, last: nat)
    requires w.phase.Timers? && Visited(tids, ran, due, first, w.timers, w.phase.timerCleanup, last)
    requires Numbered(w) && last == w.nextTid
    ensures Distinct(tids) && Enabled(w, Delete(Elements(tids)))
    ensures Distinct(ran) && IsDue(ran, due, first)
    ensures forall tid | Runs(tid, due, w.timers) :: tid in ran
  {}

  /** The calls of their callbacks. */
  ghost function AllCalls(due: map<nat, Callback>, ran: seq<nat>): seq<Action> {
    if ran == [] then []
    else
      var last := |ran| - 1;
      AllCalls(due, ran[..last]) + if ran[last] in due then Calls(due[ran[last]].script) else []
  }

  /** A timer that gets its callback is due and has not been cleared. */
  predicate Runs(tid: nat, due: map<nat, Callback>, timers: map<nat, Timer>) {
    tid in due && tid in timers && timers[tid] == Timer(false, ACTIVE)
  }

  /** So is each timer in `ran` when its turn comes, that is after the calls of the callbacks before it. */
  ghost predicate InTurn(was: World, due: map<nat, Callback>, ran: seq<nat>) {
    forall j | 0 <= j < |ran| :: HadTurn(was, due, ran, j)
  }

  ghost predicate HadTurn(was: World, due: map<nat, Callback>, ran: seq<nat>, j: nat)
    requires j < |ran|
  {
    var before := AllCalls(due, ran[..j]);
    CanPerform(was, before) && Runs(ran[j], due, Perform(was, before).timers)
  }

  /** None of their callbacks raises. */
  ghost predicate Calm(due: map<nat, Callback>, ran: seq<nat>) {
    forall tid | tid in ran && tid in due :: !due[tid].raises
  }

  /** The exception: the last callback raised, or the dictionary has grown by then. */
  ghost predicate EndsBadly(due: map<nat, Callback>, ran: seq<nat>, size: nat, timers: map<nat, Timer>) {
    && ran != [] && ran[|ran| - 1] in due && Calm(due, ran[..|ran| - 1])
    && (due[ran[|ran| - 1]].raises || |timers| > size)
  }

  lemma {:induction false} NoTurns(was: World, due: map<nat, Callback>)
    ensures InTurn(was, due, []) && Calm(due, [])
  {}

  lemma {:induction false} TurnsGoOn(was: World, due: map<nat, Callback>, ran: seq<nat>, tid: nat, w: World)
    requires InTurn(was, due, ran) && Calm(due, ran) && Runs(tid, due, w.timers)
    requires CanPerform(was, AllCalls(due, ran)) && Perform(was, AllCalls(due, ran)) == w
    ensures InTurn(was, due, ran + [tid]) && tid in due
    ensures !due[tid].raises ==> Calm(due, ran + [tid])
  {
    hide AllCalls, CanPerform, Perform;
    assert (ran + [tid])[..|ran|] == ran;
    forall j | 0 <= j < |ran| + 1
      ensures HadTurn(was, due, ran + [tid], j)
    {
      if j < |ran| {
        assert HadTurn(was, due, ran, j) && (ran + [tid])[..j] == ran[..j];
      }
    }
  }

  lemma {:induction false} TurnsEnd(due: map<nat, Callback>, ran: seq<nat>, tid: nat, size: nat,
                                    timers: map<nat, Timer>)
    requires Calm(due, ran) && tid in due && (due[tid].raises || |timers| > size)
    ensures EndsBadly(due, ran + [tid], size, timers)
  {
    assert (ran + [tid])[..|ran|] == ran;
  }

  lemma {:induction false} LastOfBoth(a: seq<Action>, b: seq<Action>)
    requires |b| > 0
    ensures (a + b)[..|a + b| - 1] == a + b[..|b| - 1]
  {}

  lemma {:induction false} NoTimers(due: map<nat, Callback>)
    ensures AllCalls(due, []) == []
  {}

  lemma {:induction false} AllCallsNext(due: map<nat, Callback>, ran: seq<nat>, tid: nat)
    requires tid in due
    ensures AllCalls(due, ran + [tid]) == AllCalls(due, ran) + Calls(due[tid].script)
  {
    assert (ran + [tid])[..|ran|] == ran;
  }

  class Frontend {
    const vmi: Partition
    var eventlist: map<nat, Status>
    var timerlist: map<nat, Timer>
    var nextTid: nat
    // the one buffer for messages in both directions, as far as an EVENT is concerned
    var vmsg: Option<Msg>
    ghost var phase: Phase
    ghost var ownPauses: nat
    ghost var ownResumes: nat

    ghost function State(): World
      reads this, vmi
    {
      World(vmi.State(), vmi.sent, eventlist, timerlist, nextTid, vmsg, phase, ownPauses, ownResumes)
    }

    constructor (partition: Partition)
      requires partition.State() == INITIAL.vmi && partition.sent == []
      ensures vmi == partition && State() == INITIAL && Numbered(State()) && Reachable(State())
    {
      vmi := partition;
      eventlist, timerlist, nextTid, vmsg := map[], map[], 0, None;
      phase, ownPauses, ownResumes := Starting, 0, 0;
      new;
      StartIsReachable();
    }

    /** None where the source raises an exception. */
    method EventRegister(sync: Sync, trapOk: bool) returns (eid: Option<nat>)
      modifies this, vmi
      ensures State() == Call(old(State()), Api.EventRegister(sync, trapOk))
      ensures eid == Register(old(vmi.State()), sync, trapOk).1
    {
      vmsg := None;
      eid := vmi.ProcessEventRegister(sync, trapOk);
      if eid.Some? { eventlist := eventlist[eid.value := ACTIVE]; }
    }

    method RegisterTimer(backend: bool) returns (tid: nat)
      modifies this
      ensures State() == Call(old(State()), TimerRegister(backend)) && tid == old(nextTid)
    {
      tid := nextTid;
      nextTid := nextTid + 1;
      timerlist := timerlist[tid := Timer(backend, ACTIVE)];
      if phase.Timers? { phase := phase.(grown := true); }
    }

    method EventClear(eid: nat) returns (ok: bool)
      modifies this, vmi
      ensures State() == Call(old(State()), Api.EventClear(eid))
      ensures ok <==> if eid in old(eventlist) then eid in old(vmi.events)
                      else eid in old(timerlist) && !old(timerlist)[eid].backend
    {
      if eid !in eventlist {
        if eid !in timerlist || timerlist[eid].backend { return false; }
        timerlist := timerlist[eid := timerlist[eid].(status := INACTIVE)];
        return true;
      }
      vmsg := None;
      ok := vmi.ProcessEventClear(eid);
      if ok { eventlist := eventlist[eid := INACTIVE]; }
    }

    method StartSyscall(sync: Sync) returns (eid: Option<nat>)
      modifies this, vmi
      ensures State() == Call(old(State()), Api.StartSyscall(sync))
      ensures eid == StartPlugin(old(vmi.State()), sync).1
    {
      vmsg := None;
      eid := vmi.ProcessStartSyscall(sync);
      if eid.Some? { eventlist := eventlist[eid.value := ACTIVE]; }
    }

    method StopSyscall(eid: nat) returns (ok: bool)
      modifies this, vmi
      ensures State() == Call(old(State()), Api.StopSyscall(eid))
      ensures ok <==> eid in old(eventlist) && old(vmi.pluginOwned)
    {
      if eid !in eventlist { return false; }
      vmsg := None;
      ok := vmi.ProcessStopSyscall();
      if ok { eventlist := eventlist[eid := INACTIVE]; }
    }

    method ResumeVm()
      modifies this, vmi
      ensures State() == old(State()).(vmi := old(State()).vmi.(pauses := old(vmi.pauses) - 1), vmsg := None)
    {
      vmsg := None;
      vmi.pauses := vmi.pauses - 1;
    }

    method Do(api: Api)
      modifies this, vmi
      ensures State() == Call(old(State()), api)
    {
      match api
      case EventRegister(sync, trapOk) => var _ := EventRegister(sync, trapOk);
      case TimerRegister(backend) => var _ := RegisterTimer(backend);
      case EventClear(id) => var _ := EventClear(id);
      case StartSyscall(sync) => var _ := StartSyscall(sync);
      case StopSyscall(id) => var _ := StopSyscall(id);
      case EventsStart => vmsg, vmi.eventsActive := None, true;
      case EventsStop => vmsg, vmi.eventsActive := None, false;
      case PauseVm =>
        vmsg, vmi.pauses := None, vmi.pauses + 1;
        ownPauses := ownPauses + 1;
      case ResumeVm =>
        ResumeVm();
        ownResumes := ownResumes + 1;
    }

    /** A callback of the app, as the calls that it makes. */
    method RunCallback(script: seq<Api>)
      requires AppRuns(phase) && Numbered(State())
      modifies this, vmi
      ensures CanPerform(old(State()), Calls(script)) && State() == Perform(old(State()), Calls(script))
      ensures Follows(old(State()), State()) && Numbered(State())
    {
      ghost var was := State();
      SelfFollows(was);
      hide Call, Numbered, Perform, CanPerform, Follows;
      assert CanPerform(was, Calls(script)[..0]) && Perform(was, Calls(script)[..0]) == was by { NoCalls(was, script); }
      for i := 0 to |script|
        invariant Follows(was, State()) && Numbered(State())
        invariant CanPerform(was, Calls(script)[..i]) && Perform(was, Calls(script)[..i]) == State()
      {
        ghost var mid := State();
        CallFollows(mid, script[i]);
        FollowsRuns(was, mid);
        FollowsOn(was, mid, Call(mid, script[i]));
        PerformNextCall(was, script, i);
        Do(script[i]);
      }
      assert Calls(script)[..|script|] == Calls(script);
    }

    /** Receiving an event.  The id and guest_paused are read before a callback overwrites the buffer. */
    method ReceiveEvent() returns (eid: nat, guestPaused: bool)
      requires phase.Polling? && vmi.sent != []
      modifies this, vmi
      ensures State() == Next(old(State()), Receive)
      ensures eid == old(vmi.sent[0]).id && phase == Handling(guestPaused, eid in old(eventlist))
    {
      vmsg := Some(vmi.sent[0]);
      vmi.sent := vmi.sent[1..];
      guestPaused := vmsg.value.paused;
      eid := vmsg.value.id;
      phase := Handling(guestPaused, eid in eventlist);
    }

    /** The `finally` of the event branch. */
    method FinishEvent(guestPaused: bool, raised: bool)
      requires phase.Handling? && phase.guestPaused == guestPaused && (raised ==> phase.known)
      modifies this, vmi
      ensures State() == Next(old(State()), if raised then CallbackRaises else CallbackReturns)
      ensures phase == (if raised then Gone else Polled) && timerlist == old(timerlist) && nextTid == old(nextTid)
    {
      if guestPaused { ResumeVm(); }
      phase := if raised then Gone else Polled;
    }

    /** The event branch of loop(), for a callback that makes its calls and then returns, or raises. */
    method HandleEvent(callback: Callback) returns (known: bool)
      requires phase.Polling? && vmi.sent != [] && Numbered(State())
      modifies this, vmi
      ensures known <==> old(vmi.sent[0]).id in old(eventlist)
      ensures CanPerform(old(State()), Handles(known, callback))
      ensures State() == Perform(old(State()), Handles(known, callback))
      ensures Numbered(State()) && phase == if known && callback.raises then Gone else Polled
    {
      ghost var was := State();
      var eid, guestPaused := ReceiveEvent();
      known := eid in eventlist;
      hide Next;
      if known { RunCallback(callback.script); }
      HandlesInParts(was, known, callback);
      hide Perform, CanPerform, Calls, Handles;
      FinishEvent(guestPaused, known && callback.raises);
    }

    /** The iteration over eventlist, in some order. */
    method CollectCleanup() returns (eids: seq<nat>)
      requires phase.Polled?
      modifies `phase
      ensures State() == Next(old(State()), Collect)
      ensures Distinct(eids) && Elements(eids) == phase.cleanup
    {
      eids := [];
      var left := eventlist.Keys;
      while left != {}
        invariant left <= eventlist.Keys && phase == old(phase)
        invariant Distinct(eids)
        invariant forall id :: id in eids <==> id in eventlist.Keys - left && eventlist[id] != ACTIVE
        decreases |left|
      {
        var ek :| ek in left;
        left := left - {ek};
        if eventlist[ek] != ACTIVE { eids := eids + [ek]; }
      }
      phase := Timers(Inactive(eventlist), InactiveTimers(timerlist), false);
      assert Elements(eids) == Inactive(eventlist);
    }

    /** Deleting what was collected: never a missing key, whatever the timers have done in between. */
    method DeleteCollected(collected: seq<nat>, collectedTimers: seq<nat>)
      requires phase.Timers? && !phase.grown && CleanupIsHeld(State())
      requires Distinct(collected) && Elements(collected) == phase.cleanup
      requires Distinct(collectedTimers) && Enabled(State(), Delete(Elements(collectedTimers)))
      modifies `eventlist, `timerlist, `phase
      ensures State() == Next(old(State()), Delete(Elements(collectedTimers)))
    {
      var eids, tids := collected, collectedTimers;
      while |eids| > 0
        invariant Distinct(eids) && Elements(eids) <= Elements(collected)
        invariant phase == old(phase) && timerlist == old(timerlist)
        invariant eventlist == old(eventlist) - (Elements(collected) - Elements(eids))
      {
        var last := |eids| - 1;
        DropLast(eids);
        assert eids[last] in eventlist;
        eventlist := eventlist - {eids[last]};
        eids := eids[..last];
      }
      while |tids| > 0
        invariant Distinct(tids) && Elements(tids) <= Elements(collectedTimers)
        invariant phase == old(phase) && eventlist == old(eventlist) - Elements(collected)
        invariant timerlist == old(timerlist) - (Elements(collectedTimers) - Elements(tids))
      {
        var last := |tids| - 1;
        DropLast(tids);
        assert tids[last] in timerlist;
        timerlist := timerlist - {tids[last]};
        tids := tids[..last];
      }
      phase := Polling;
    }

    /** One timer, if it is due: its callback, and then the dictionary's complaint if it has grown.  `size` is the
      size that the iteration started with. */
    method RunTimer(callback: Callback, size: nat) returns (alive: bool, ghost acts: seq<Action>)
      requires phase.Timers? && !phase.grown && Numbered(State()) && size == |timerlist|
      requires phase.timerCleanup <= InactiveTimers(timerlist)
      modifies this, vmi
      ensures CanPerform(old(State()), acts) && State() == Perform(old(State()), acts)
      ensures if alive then Follows(old(State()), State()) && !phase.grown else phase == Gone
      ensures alive ==> !callback.raises && acts == Calls(callback.script)
      ensures !alive ==> |acts| > 0 && acts[..|acts| - 1] == Calls(callback.script)
      ensures !alive ==> callback.raises || |timerlist| > size
      ensures Numbered(State())
    {
      ghost var was := State();
      acts := Calls(callback.script);
      RunCallback(callback.script);
      hide Perform, CanPerform, Calls, InactiveTimers;
      if callback.raises {
        alive := Stop(was, acts, CallbackRaises);
        acts := acts + [CallbackRaises];
      } else if |timerlist| != size {
        alive := Stop(was, acts, Delete(InactiveTimers(timerlist)));
        acts := acts + [Delete(InactiveTimers(timerlist))];
      } else {
        alive := true;
      }
    }

    /** An exception leaves the loop. */
    method Stop(ghost was: World, ghost acts: seq<Action>, ghost end: Action) returns (alive: bool)
      requires CanPerform(was, acts) && Perform(was, acts) == State() && Enabled(State(), end)
      requires Next(State(), end) == State().(phase := Gone)
      modifies `phase
      ensures !alive && phase == Gone && State() == old(State()).(phase := Gone)
      ensures CanPerform(was, acts + [end]) && Perform(was, acts + [end]) == State()
    {
      PerformAppend(was, acts, end);
      hide Perform, CanPerform, Next, Enabled;
      phase := Gone;
      alive := false;
    }

    /** One entry of timerlist: collect it if it is inactive, run it if it is due. */
    method VisitTimer(tk: nat, due: map<nat, Callback>, size: nat, tids: seq<nat>, ran: seq<nat>,
                      ghost first: map<nat, Timer>)
      returns (tids': seq<nat>, ran': seq<nat>, alive: bool, ghost acts: seq<Action>)
      requires phase.Timers? && !phase.grown && Numbered(State()) && size == |timerlist|
      requires Visited(tids, ran, due, first, timerlist, phase.timerCleanup, tk)
      requires StillRunning(first, timerlist) && first.Keys == timerlist.Keys
      modifies this, vmi
      ensures CanPerform(old(State()), acts) && State() == Perform(old(State()), acts)
      ensures Numbered(State()) && if alive then Follows(old(State()), State()) && !phase.grown else phase == Gone
      ensures alive ==> Visited(tids', ran', due, first, timerlist, old(phase.timerCleanup), tk + 1)
      ensures Distinct(ran') && IsDue(ran', due, first)
      ensures ran' == ran || (ran' == ran + [tk] && Runs(tk, due, old(timerlist)))
      ensures alive && ran' != ran ==> !due[tk].raises
      ensures !alive ==> ran' != ran && (due[tk].raises || |timerlist| > size)
      ensures alive ==> AllCalls(due, ran') == AllCalls(due, ran) + acts
      ensures !alive ==> |acts| > 0 && AllCalls(due, ran') == AllCalls(due, ran) + acts[..|acts| - 1]
    {
      hide Next, Call, Perform, CanPerform, Calls, Visited, Distinct, IsDue, AllCalls, Numbered, Follows;
      ghost var was, cleanup := State(), phase.timerCleanup;
      tids', ran', alive, acts := tids, ran, true, [];
      SelfFollows(was);
      VisitedMeans(tids, ran, due, first, timerlist, cleanup, tk);
      if tk in timerlist && tk in due && timerlist[tk] == Timer(false, ACTIVE) {
        VisitRuns(tids, ran, due, first, timerlist, cleanup, tk);
        AllCallsNext(due, ran, tk);
        ran' := ran + [tk];
        alive, acts := RunTimer(due[tk], size);
        if alive {
          SameTimers(was, State());
          VisitStays(tids, ran', due, first, was.timers, timerlist, cleanup, tk + 1);
        }
      } else if tk in timerlist && timerlist[tk].status != ACTIVE {
        VisitCollects(tids, ran, due, first, timerlist, cleanup, tk);
        tids' := tids + [tk];
      } else {
        VisitSkips(tids, ran, due, first, timerlist, cleanup, tk);
      }
    }

    /** The iteration over timerlist, in the order of the ids. */
    method VisitTimers(due: map<nat, Callback>)
      returns (tids: seq<nat>, ran: seq<nat>, alive: bool, ghost acts: seq<Action>)
      requires phase.Timers? && !phase.grown && Numbered(State()) && phase.timerCleanup <= InactiveTimers(timerlist)
      modifies this, vmi
      ensures CanPerform(old(State()), acts) && State() == Perform(old(State()), acts) && Numbered(State())
      ensures if alive then Underway(old(State()), acts, State()) else phase == Gone
      ensures alive ==> Visited(tids, ran, due, old(timerlist), timerlist, old(phase.timerCleanup), old(nextTid))
      ensures IsDue(ran, due, old(timerlist)) && Distinct(ran)
      ensures alive ==> acts == AllCalls(due, ran)
      ensures !alive ==> |acts| > 0 && acts[..|acts| - 1] == AllCalls(due, ran)
      ensures InTurn(old(State()), due, ran)
      ensures if alive then Calm(due, ran) else EndsBadly(due, ran, |old(timerlist)|, timerlist)
    {
      hide Perform, CanPerform, Visited, InactiveTimers, Distinct, IsDue, Numbered, AllCalls, Follows, StillRunning,
           Underway, Next, Enabled, InTurn, Calm, Runs, EndsBadly;
      ghost var was, cleanup := State(), phase.timerCleanup;
      tids, ran, alive, acts := [], [], true, [];
      var size, last := |timerlist|, nextTid;
      NothingVisited(due, was.timers, cleanup);
      UnderwayStarts(was);
      NoTimers(due);
      NoTurns(was, due);
      for tk := 0 to last
        invariant Underway(was, acts, State())
        invariant Visited(tids, ran, due, was.timers, timerlist, cleanup, tk)
        invariant IsDue(ran, due, was.timers) && Distinct(ran) && acts == AllCalls(due, ran)
        invariant InTurn(was, due, ran) && Calm(due, ran)
      {
        ghost var mid, more, before := State(), [], ran;
        UnderwayMeans(was, acts, mid);
        tids, ran, alive, more := VisitTimer(tk, due, size, tids, ran, was.timers);
        UnderwayGoesOn(was, acts, mid, more, State());
        if ran != before { TurnsGoOn(was, due, before, tk, mid); }
        if !alive {
          TurnsEnd(due, before, tk, size, timerlist);
          LastOfBoth(acts, more);
          acts := acts + more;
          return;
        }
        acts := acts + more;
      }
      UnderwayMeans(was, acts, State());
    }

    /** `due` are the timers whose time has come.  Those in `ran` get their callbacks: all that are due and have not
      been cleared when their turn comes, up to the first that raises or makes the dictionary grow.  Those in `tids` are
      up for deletion. */
    method RunTimers(due: map<nat, Callback>)
      returns (tids: seq<nat>, ran: seq<nat>, alive: bool, ghost acts: seq<Action>)
      requires phase.Timers? && !phase.grown && Numbered(State()) && phase.timerCleanup <= InactiveTimers(timerlist)
      modifies this, vmi
      ensures CanPerform(old(State()), acts) && State() == Perform(old(State()), acts)
      ensures if alive then Follows(old(State()), State()) && !phase.grown else phase == Gone
      ensures alive ==> Distinct(tids) && Enabled(State(), Delete(Elements(tids)))
      ensures IsDue(ran, due, old(timerlist)) && Distinct(ran)
      ensures alive ==> acts == AllCalls(due, ran)
      ensures !alive ==> |acts| > 0 && acts[..|acts| - 1] == AllCalls(due, ran)
      ensures InTurn(old(State()), due, ran)
      ensures if alive then Calm(due, ran) else EndsBadly(due, ran, |old(timerlist)|, timerlist)
      ensures alive ==> forall tid | Runs(tid, due, timerlist) :: tid in ran
      ensures Numbered(State())
    {
      ghost var was, last := State(), nextTid;
      tids, ran, alive, acts := VisitTimers(due);
      if alive {
        hide Perform, CanPerform, Visited, InactiveTimers, Distinct, IsDue, Numbered, AllCalls, StillRunning, Enabled;
        UnderwayMeans(was, acts, State());
        AllVisited(tids, ran, due, was.timers, State(), last);
      }
    }

    /** The callbacks for backend messages. */
    method RunMessages(messages: seq<Callback>) returns (alive: bool, ghost acts: seq<Action>)
      requires phase.Polled? && Numbered(State())
      modifies this, vmi
      ensures CanPerform(old(State()), acts) && State() == Perform(old(State()), acts)
      ensures Numbered(State()) && phase == if alive then Polled else Gone
      ensures alive ==> acts == MessageCalls(messages)
    {
      ghost var was := State();
      alive, acts := true, [];
      assert Perform(was, []) == was;
      hide Perform, CanPerform, Calls, Numbered;
      for i := 0 to |messages|
        invariant phase.Polled? && Numbered(State())
        invariant CanPerform(was, acts) && Perform(was, acts) == State()
        invariant acts == MessageCalls(messages[..i])
      {
        assert messages[..i + 1][..i] == messages[..i];
        RunCallback(messages[i].script);
        PerformOn(was, acts, Calls(messages[i].script));
        acts := acts + Calls(messages[i].script);
        if messages[i].raises {
          alive := Stop(was, acts, CallbackRaises);
          acts := acts + [CallbackRaises];
          return;
        }
      }
      assert messages[..|messages|] == messages;
    }

    /** The end of a tick: what is collected, the timers, and the deletions. */
    method EndTick(due: map<nat, Callback>) returns (ran: seq<nat>, alive: bool, ghost acts: seq<Action>)
      requires phase.Polled? && Numbered(State())
      modifies this, vmi
      ensures CanPerform(old(State()), acts) && State() == Perform(old(State()), acts)
      ensures Numbered(State()) && phase == if alive then Polling else Gone
      ensures alive ==> |acts| >= 2 && acts[|acts| - 1].Delete? && acts[..|acts| - 1] == [Collect] + AllCalls(due, ran)
    {
      ghost var was := State();
      var eids := CollectCleanup();
      assert CanPerform(was, [Collect]) && Perform(was, [Collect]) == State() by { OneStep(was, Collect); }
      hide Perform, CanPerform, AllCalls, Next;
      ghost var collected, more := State(), [];
      var tids;
      tids, ran, alive, more := RunTimers(due);
      PerformOn(was, [Collect], more);
      acts := [Collect] + more;
      if !alive { return; }
      PerformAppend(was, acts, Delete(Elements(tids)));
      acts := acts + [Delete(Elements(tids))];
      ghost var before := State();
      DeleteCollected(eids, tids);
      DeleteKeepsNumbers(before, Elements(tids));
    }

    /** The event branch, or its absence. */
    method BeginTick(event: Option<Callback>) returns (known: bool, alive: bool)
      requires phase.Polling? && Numbered(State()) && (event.Some? ==> vmi.sent != [])
      modifies this, vmi
      ensures CanPerform(old(State()), Begins(known, event)) && State() == Perform(old(State()), Begins(known, event))
      ensures Numbered(State()) && phase == if alive then Polled else Gone
    {
      ghost var was := State();
      if event.Some? {
        hide Perform, CanPerform, Handles;
        known := HandleEvent(event.value);
        alive := !(known && event.value.raises);
      } else {
        known, alive := false, true;
        phase := Polled;
        OneStep(was, Proceed);
      }
    }

    /** One turn of loop().  `event` is the callback for the event taken up, if the poll found one, `messages` those for
      backend messages, `due` the timers whose time has come.  Whatever they do, the objects take a stretch of a run, so
      that what holds over runs holds of them. */
    method Tick(event: Option<Callback>, messages: seq<Callback>, due: map<nat, Callback>)
      returns (known: bool, alive: bool, ghost acts: seq<Action>, ghost end: seq<Action>)
      requires phase.Polling? && Numbered(State()) && (event.Some? ==> vmi.sent != [])
      modifies this, vmi
      ensures CanPerform(old(State()), acts) && State() == Perform(old(State()), acts)
      ensures Numbered(State()) && phase == if alive then Polling else Gone
      ensures alive ==> acts == Begins(known, event) + MessageCalls(messages) + end
      ensures alive ==> |end| >= 2 && end[0] == Collect && end[|end| - 1].Delete?
      ensures old(Reachable(State())) ==> Reachable(State()) && PausesBalance(State()) && CleanupIsHeld(State())
    {
      hide Perform, CanPerform, Begins, Reachable, Numbered, MessageCalls, PausesBalance, CleanupIsHeld, Next, Enabled;
      ghost var was, more := State(), [];
      end := [];
      known, alive := BeginTick(event);
      acts := Begins(known, event);
      if alive {
        alive, more := RunMessages(messages);
        PerformOn(was, acts, more);
        acts := acts + more;
      }
      if alive {
        var _, lives, more := EndTick(due);
        PerformOn(was, acts, more);
        alive, end, acts := lives, more, acts + more;
      }
      StretchKeepsLaws(was, acts);
    }
  }
}

/** Events between the VMI partition and the frontend, as steps over both states and the messages in flight.

  A call that the app makes is one step: the frontend blocks on the reply.  Traps fire at any time in between. */
module EventProtocol {
  import opened Wrappers

  // ---------- the VMI partition ----------

  datatype Sync = Sync | Async

  /** An event_item: of a trap, or of the syscall plugin, which has no trap of its own. */
  datatype Item = Trap(sync: Sync) | Syscalls(sync: Sync)

  /** Registered events by id.  While the syscall plugin is owned, `plugin` is its event id and its sync state.
    `pauses` counts drakvuf_pause minus drakvuf_resume. */
  datatype Vmi = Vmi(events: map<nat, Item>, plugin: Option<(nat, Sync)>, active: bool, pauses: int)

  const MAX_EVENTS := 200

  lemma {:induction false} IdsBelow(n: nat) returns (ids: set<nat>)
    ensures forall i: nat :: i in ids <==> i < n
    ensures |ids| == n
  {
    if n == 0 {
      ids := {};
    } else {
      ids := IdsBelow(n - 1);
      ids := ids + {n - 1};
    }
  }

  /** Pigeonhole: if the first i ids are taken, there are at least i events. */
  lemma {:induction false} TakenIds(events: map<nat, Item>, i: nat)
    requires forall j | 0 <= j < i :: j in events
    ensures i <= |events|
  {
    var ids := IdsBelow(i);
    SubsetIsSmaller(ids, events.Keys);
  }

  /** add_event's search, from i on. */
  function FreeFrom(events: map<nat, Item>, i: nat): (id: nat)
    requires forall j | 0 <= j < i :: j in events
    ensures id !in events && forall j | 0 <= j < id :: j in events
    decreases |events| - i
  {
    TakenIds(events, i);
    if i in events then
      TakenIds(events, i + 1);
      FreeFrom(events, i + 1)
    else i
  }

  /** The id that add_event gives out. */
  function FreeId(events: map<nat, Item>): nat { FreeFrom(events, 0) }

  /** It is the least free one, and no larger than the number of events. */
  lemma {:induction false} FreeIdIsLeast(events: map<nat, Item>)
    ensures FreeId(events) !in events && FreeId(events) <= |events|
    ensures forall id: nat | id !in events :: FreeId(events) <= id
  {
    TakenIds(events, FreeId(events));
  }

  // ---------- the frontend ----------

  datatype Status = ACTIVE | INACTIVE

  /** An EVENT message. */
  datatype Msg = Msg(id: nat, paused: bool)

  /** An entry of timerlist: a timer, or the backend callback. */
  datatype Timer = Timer(backend: bool, status: Status)

  /** Where the frontend is: in the app's constructor; at the poll; in the callback of an event, with the local
    guest_paused, and whether the event was known; past that; among the timers, with the ids collected for cleanup, and
    whether timerlist has grown under the iteration; or gone with an exception. */
  datatype Phase =
    | Starting
    | Polling
    | Handling(guestPaused: bool, known: bool)
    | Polled
    | Timers(cleanup: set<nat>, timerCleanup: set<nat>, grown: bool)
    | Gone

  datatype World = World(
    vmi: Vmi,
    inbox: seq<Msg>,
    eventlist: map<nat, Status>,
    timers: map<nat, Timer>,
    nextTid: nat,
    vmsg: Option<Msg>,
    phase: Phase,
    ownPauses: nat,
    ownResumes: nat)

  const INITIAL := World(Vmi(map[], None, false, 0), [], map[], map[], 0, None, Starting, 0, 0)

  /** What an app's callback can do.  `trapOk`: whether DRAKVUF accepts the trap. */
  datatype Api =
    | EventRegister(sync: Sync, trapOk: bool)
    | TimerRegister(backend: bool)
    | EventClear(id: nat)
    | StartSyscall(sync: Sync)
    | StopSyscall(id: nat)
    | EventsStart
    | EventsStop
    | PauseVm
    | ResumeVm

  // ---------- the handlers ----------

  /** process_event_register: the new state and, if it succeeds, the id. */
  function Register(v: Vmi, sync: Sync, trapOk: bool): (Vmi, Option<nat>) {
    if |v.events| >= MAX_EVENTS || !trapOk then (v, None)
    else
      var id := FreeId(v.events);
      (v.(events := v.events[id := Trap(sync)]), Some(id))
  }

  /** process_event_clear */
  function Clear(v: Vmi, id: nat): (Vmi, bool) {
    if id in v.events then (v.(events := v.events - {id}), true) else (v, false)
  }

  /** process_start_syscall: it takes an id whatever the number of events. */
  function StartPlugin(v: Vmi, sync: Sync): (Vmi, Option<nat>) {
    if v.plugin.Some? then (v, None)
    else
      var id := FreeId(v.events);
      (v.(events := v.events[id := Syscalls(sync)], plugin := Some((id, sync))), Some(id))
  }

  /** process_stop_syscall */
  function StopPlugin(v: Vmi): (Vmi, bool) {
    if v.plugin.None? then (v, false) else (v.(events := v.events - {v.plugin.value.0}, plugin := None), true)
  }

  /** What a callback does once it runs: pause for a synchronous event, and send. */
  function Sent(v: Vmi, id: nat, sync: Sync): (Vmi, seq<Msg>) {
    (v.(pauses := v.pauses + if sync.Sync? then 1 else 0), [Msg(id, sync.Sync?)])
  }

  /** The callback of a trap; events_stop masks it. */
  function Trapped(v: Vmi, id: nat): (Vmi, seq<Msg>) {
    if v.active && id in v.events && v.events[id].Trap? then Sent(v, id, v.events[id].sync) else (v, [])
  }

  /** The callback of the syscall plugin, which events_stop does not mask. */
  function SyscallTrapped(v: Vmi): (Vmi, seq<Msg>) {
    if v.plugin.Some? then Sent(v, v.plugin.value.0, v.plugin.value.1) else (v, [])
  }

  function Fire(w: World, fired: (Vmi, seq<Msg>)): World { w.(vmi := fired.0, inbox := w.inbox + fired.1) }

  // ---------- the frontend's calls ----------

  /** One API call; each overwrites the shared vmsg.  A call that raises changes no list. */
  function Call(w0: World, api: Api): World {
    var w := w0.(vmsg := None);
    match api
    case EventRegister(sync, trapOk) =>
      var (v, id) := Register(w.vmi, sync, trapOk);
      if id.None? then w.(vmi := v) else w.(vmi := v, eventlist := w.eventlist[id.value := ACTIVE])
    case TimerRegister(backend) =>
      w0.(timers := w.timers[w.nextTid := Timer(backend, ACTIVE)], nextTid := w.nextTid + 1,
          phase := if w.phase.Timers? then w.phase.(grown := true) else w.phase)
    case EventClear(id) =>
      if id in w.eventlist then
        var (v, ok) := Clear(w.vmi, id);
        if ok then w.(vmi := v, eventlist := w.eventlist[id := INACTIVE]) else w
      else if id in w.timers && !w.timers[id].backend then w0.(timers := w.timers[id := Timer(false, INACTIVE)])
      else w0
    case StartSyscall(sync) =>
      var (v, id) := StartPlugin(w.vmi, sync);
      if id.None? then w else w.(vmi := v, eventlist := w.eventlist[id.value := ACTIVE])
    case StopSyscall(id) =>
      if id !in w.eventlist then w0
      else
        var (v, ok) := StopPlugin(w.vmi);
        if ok then w.(vmi := v, eventlist := w.eventlist[id := INACTIVE]) else w
    case EventsStart => w.(vmi := w.vmi.(active := true))
    case EventsStop => w.(vmi := w.vmi.(active := false))
    case PauseVm => w.(vmi := w.vmi.(pauses := w.vmi.pauses + 1), ownPauses := w.ownPauses + 1)
    case ResumeVm => w.(vmi := w.vmi.(pauses := w.vmi.pauses - 1), ownResumes := w.ownResumes + 1)
  }

  /** The `finally` of the event branch: resume if the local guest_paused says so. */
  function Resume(w: World, guestPaused: bool): World {
    if guestPaused then w.(vmi := w.vmi.(pauses := w.vmi.pauses - 1), vmsg := None) else w
  }

  function Inactive(eventlist: map<nat, Status>): set<nat> { set id | id in eventlist && eventlist[id] == INACTIVE }

  function InactiveTimers(timers: map<nat, Timer>): set<nat> { set id | id in timers && timers[id].status == INACTIVE }

  // ---------- steps ----------

  datatype Action =
    | FireEvent(id: nat)
    | FireSyscallEvent
    | Proceed
    | Receive
    | AppCall(api: Api)
    | CallbackReturns
    | CallbackRaises
    | Collect
    | Delete(timerIds: set<nat>)

  /** The app's code runs in its constructor and in callbacks: of a known event, of a backend message, of a timer. */
  predicate AppRuns(p: Phase) {
    p.Starting? || (p.Handling? && p.known) || p.Polled? || p.Timers?
  }

  predicate Enabled(w: World, a: Action) {
    match a
    case FireEvent(_) => true
    case FireSyscallEvent => true
    case Proceed => w.phase.Starting? || w.phase.Polling?
    case Receive => w.phase.Polling? && w.inbox != []
    case AppCall(_) => AppRuns(w.phase)
    case CallbackReturns => w.phase.Handling?
    case CallbackRaises => AppRuns(w.phase)
    case Collect => w.phase.Polled?
    // timers are collected while callbacks run: at least those that were inactive before, at most those that now are
    case Delete(ids) => w.phase.Timers? && w.phase.timerCleanup <= ids <= InactiveTimers(w.timers)
  }

  function Next(w: World, a: Action): World
    requires Enabled(w, a)
  {
    match a
    case FireEvent(id) => Fire(w, Trapped(w.vmi, id))
    case FireSyscallEvent => Fire(w, SyscallTrapped(w.vmi))
    case Proceed => w.(phase := if w.phase.Starting? then Polling else Polled)
    case Receive =>
      var m := w.inbox[0];
      w.(inbox := w.inbox[1..], vmsg := Some(m), phase := Handling(m.paused, m.id in w.eventlist))
    case AppCall(api) => Call(w, api)
    case CallbackReturns => Resume(w, w.phase.guestPaused).(phase := Polled)
    case CallbackRaises => (if w.phase.Handling? then Resume(w, w.phase.guestPaused) else w).(phase := Gone)
    case Collect => w.(phase := Timers(Inactive(w.eventlist), InactiveTimers(w.timers), false))
    case Delete(ids) =>
      // a dictionary that grew during its iteration raises RuntimeError
      if w.phase.grown then w.(phase := Gone)
      else w.(eventlist := w.eventlist - w.phase.cleanup, timers := w.timers - ids, phase := Polling)
  }

  ghost predicate StepOf(ws: seq<World>, acts: seq<Action>, i: nat)
    requires |ws| == |acts| + 1 && i < |acts|
  {
    Enabled(ws[i], acts[i]) && ws[i + 1] == Next(ws[i], acts[i])
  }

  /** The states of a run: ws[i + 1] is ws[i] after acts[i]. */
  ghost predicate IsRun(ws: seq<World>, acts: seq<Action>) {
    |ws| == |acts| + 1 && ws[0] == INITIAL && forall i | 0 <= i < |acts| :: StepOf(ws, acts, i)
  }

  // ---------- pause conservation ----------

  function PausedIn(inbox: seq<Msg>): nat {
    if inbox == [] then 0 else (if inbox[0].paused then 1 else 0) + PausedIn(inbox[1..])
  }

  lemma {:induction false} PausedInAppend(inbox: seq<Msg>, m: Msg)
    ensures PausedIn(inbox + [m]) == PausedIn(inbox) + if m.paused then 1 else 0
  {
    if inbox != [] {
      PausedInAppend(inbox[1..], m);
      assert (inbox + [m])[1..] == inbox[1..] + [m];
    } else {
      assert (inbox + [m])[1..] == [];
    }
  }

  /** Pauses outstanding: those of synchronous events in flight or being handled, and the app's own. */
  ghost predicate PausesBalance(w: World) {
    w.vmi.pauses == PausedIn(w.inbox) + (if w.phase.Handling? && w.phase.guestPaused then 1 else 0)
                    + w.ownPauses - w.ownResumes
  }

  lemma {:induction false} CallKeepsBalance(w: World, api: Api)
    requires PausesBalance(w)
    ensures PausesBalance(Call(w, api))
  {}

  lemma {:induction false} StepKeepsBalance(w: World, a: Action)
    requires Enabled(w, a) && PausesBalance(w)
    ensures PausesBalance(Next(w, a))
  {
    assert w.inbox + [] == w.inbox;
    if a.AppCall? { CallKeepsBalance(w, a.api); return; }
    if a.FireEvent? && a.id in w.vmi.events {
      PausedInAppend(w.inbox, Msg(a.id, w.vmi.events[a.id].sync.Sync?));
    } else if a.FireSyscallEvent? && w.vmi.plugin.Some? {
      PausedInAppend(w.inbox, Msg(w.vmi.plugin.value.0, w.vmi.plugin.value.1.Sync?));
    }
  }

  /** Pause conservation, over every interleaving. */
  lemma {:induction false} PausesAreConserved(ws: seq<World>, acts: seq<Action>, i: nat)
    requires IsRun(ws, acts) && i < |ws|
    ensures PausesBalance(ws[i])
    decreases i
  {
    if i > 0 {
      PausesAreConserved(ws, acts, i - 1);
      assert StepOf(ws, acts, i - 1);
      StepKeepsBalance(ws[i - 1], acts[i - 1]);
    }
  }

  /** So once no event is in flight or being handled, and the app has resumed as often as it paused, the guest runs:
    each synchronous event was resumed exactly once, known or not, returning or raising. */
  lemma {:induction false} GuestRunsWhenAllIsHandled(ws: seq<World>, acts: seq<Action>, i: nat)
    requires IsRun(ws, acts) && i < |ws|
    requires ws[i].inbox == [] && !ws[i].phase.Handling? && ws[i].ownPauses == ws[i].ownResumes
    ensures ws[i].vmi.pauses == 0
  {
    PausesAreConserved(ws, acts, i);
  }

  // ---------- capacity ----------

  /** The cap binds registrations; the syscall event comes on top. */
  ghost predicate WithinCapacity(v: Vmi) {
    && (v.plugin.Some? ==> v.plugin.value.0 in v.events)
    && |v.events| <= MAX_EVENTS + (if v.plugin.Some? then 1 else 0)
    && forall id | id in v.events :: id <= MAX_EVENTS
  }

  /** How an app uses the two calls about the syscall event: stop_syscall gets the id that start_syscall returned, and
    event_clear never does. */
  predicate Proper(w: World, a: Action) {
    a.AppCall? ==>
      match a.api
      case EventClear(id) => w.vmi.plugin.Some? ==> id != w.vmi.plugin.value.0
      case StopSyscall(id) => w.vmi.plugin.Some? ==> id == w.vmi.plugin.value.0
      case _ => true
  }

  ghost predicate ProperRun(ws: seq<World>, acts: seq<Action>) {
    IsRun(ws, acts) && forall i | 0 <= i < |acts| :: Proper(ws[i], acts[i])
  }

  lemma {:induction false} AddKeepsSize(events: map<nat, Item>, item: Item)
    ensures var id := FreeId(events);
            |events[id := item]| == |events| + 1 && id <= |events|
  {
    FreeIdIsLeast(events);
    assert events[FreeId(events) := item].Keys == events.Keys + {FreeId(events)};
  }

  lemma {:induction false} RemoveKeepsSize(events: map<nat, Item>, id: nat)
    requires id in events
    ensures |events - {id}| == |events| - 1
  {
    assert (events - {id}).Keys == events.Keys - {id};
  }

  lemma {:induction false} AddingKeepsCapacity(v: Vmi, sync: Sync, trapOk: bool)
    requires WithinCapacity(v)
    ensures WithinCapacity(Register(v, sync, trapOk).0) && WithinCapacity(StartPlugin(v, sync).0)
  {
    AddKeepsSize(v.events, Trap(sync));
    AddKeepsSize(v.events, Syscalls(sync));
  }

  lemma {:induction false} RemovingKeepsCapacity(v: Vmi, id: nat)
    requires WithinCapacity(v)
    ensures (v.plugin.Some? ==> id != v.plugin.value.0) ==> WithinCapacity(Clear(v, id).0)
    ensures WithinCapacity(StopPlugin(v).0)
  {
    if id in v.events { RemoveKeepsSize(v.events, id); }
    if v.plugin.Some? { RemoveKeepsSize(v.events, v.plugin.value.0); }
  }

  lemma {:induction false} CallKeepsCapacity(w: World, api: Api)
    requires WithinCapacity(w.vmi) && Proper(w, AppCall(api))
    ensures WithinCapacity(Call(w, api).vmi)
  {
    match api
    case EventRegister(sync, trapOk) => AddingKeepsCapacity(w.vmi, sync, trapOk);
    case StartSyscall(sync) => AddingKeepsCapacity(w.vmi, sync, true);
    case EventClear(id) => RemovingKeepsCapacity(w.vmi, id);
    case StopSyscall(id) => RemovingKeepsCapacity(w.vmi, id);
    case _ =>
  }

  /** In every reachable state there are at most 201 events, and no id is above 200. */
  lemma {:induction false} CapacityIsKept(ws: seq<World>, acts: seq<Action>, i: nat)
    requires ProperRun(ws, acts) && i < |ws|
    ensures WithinCapacity(ws[i].vmi)
    decreases i
  {
    if i > 0 {
      CapacityIsKept(ws, acts, i - 1);
      assert StepOf(ws, acts, i - 1);
      assert Proper(ws[i - 1], acts[i - 1]);
      if acts[i - 1].AppCall? { CallKeepsCapacity(ws[i - 1], acts[i - 1].api); }
    }
  }

  // ---------- agreement of the registries ----------

  ghost predicate ActiveIn(w: World, id: nat) { id in w.eventlist && w.eventlist[id] == ACTIVE }

  /** Every event that the frontend holds active is registered. */
  ghost predicate ActiveIsRegistered(w: World) { forall id :: ActiveIn(w, id) ==> id in w.vmi.events }

  /** And conversely. */
  ghost predicate RegisteredIsActive(w: World) { forall id | id in w.vmi.events :: ActiveIn(w, id) }

  lemma {:induction false} StepKeepsActiveRegistered(w: World, a: Action)
    requires Enabled(w, a) && Proper(w, a) && ActiveIsRegistered(w)
    ensures ActiveIsRegistered(Next(w, a))
  {}

  lemma {:induction false} ActiveEventsAreRegistered(ws: seq<World>, acts: seq<Action>, i: nat)
    requires ProperRun(ws, acts) && i < |ws|
    ensures ActiveIsRegistered(ws[i])
    decreases i
  {
    if i > 0 {
      ActiveEventsAreRegistered(ws, acts, i - 1);
      assert StepOf(ws, acts, i - 1);
      assert Proper(ws[i - 1], acts[i - 1]);
      StepKeepsActiveRegistered(ws[i - 1], acts[i - 1]);
    }
  }

  /** No id that was collected for cleanup is in use again. */
  ghost predicate NoneReused(w: World) {
    w.phase.Timers? ==> forall id | id in w.phase.cleanup :: !ActiveIn(w, id)
  }

  /** The cleanup is where the converse can be lost, and exactly when a collected id has been given out again since. */
  lemma {:induction false} CleanupKeepsAgreementIff(w: World, ids: set<nat>)
    requires Enabled(w, Delete(ids)) && !w.phase.grown && ActiveIsRegistered(w) && RegisteredIsActive(w)
    ensures RegisteredIsActive(Next(w, Delete(ids))) <==> NoneReused(w)
  {}

  lemma {:induction false} StepKeepsRegisteredActive(w: World, a: Action)
    requires Enabled(w, a) && Proper(w, a) && RegisteredIsActive(w) && !a.Delete?
    ensures RegisteredIsActive(Next(w, a))
  {}

  /** A cleanup that takes place. */
  predicate Cleans(w: World, a: Action) { a.Delete? && w.phase.Timers? && !w.phase.grown }

  lemma {:induction false} AgreementFromCleanups(ws: seq<World>, acts: seq<Action>, i: nat)
    requires ProperRun(ws, acts) && i < |ws|
    requires forall k | 0 <= k < |acts| && Cleans(ws[k], acts[k]) :: NoneReused(ws[k])
    ensures RegisteredIsActive(ws[i])
    decreases i
  {
    if i > 0 {
      AgreementFromCleanups(ws, acts, i - 1);
      ActiveEventsAreRegistered(ws, acts, i - 1);
      assert StepOf(ws, acts, i - 1);
      assert Proper(ws[i - 1], acts[i - 1]);
      if Cleans(ws[i - 1], acts[i - 1]) {
        CleanupKeepsAgreementIff(ws[i - 1], acts[i - 1].timerIds);
      } else if !acts[i - 1].Delete? {
        StepKeepsRegisteredActive(ws[i - 1], acts[i - 1]);
      }
    }
  }

  /** Frontend and VMI partition agree throughout a run if and only if no cleanup meets an id in use again. */
  lemma {:induction false} RegistriesAgreeIffNoneReused(ws: seq<World>, acts: seq<Action>)
    requires ProperRun(ws, acts)
    ensures (forall i | 0 <= i < |ws| :: RegisteredIsActive(ws[i]))
            <==> forall k | 0 <= k < |acts| && Cleans(ws[k], acts[k]) :: NoneReused(ws[k])
  {
    if forall i | 0 <= i < |ws| :: RegisteredIsActive(ws[i]) {
      forall k | 0 <= k < |acts| && Cleans(ws[k], acts[k]) ensures NoneReused(ws[k]) {
        ActiveEventsAreRegistered(ws, acts, k);
        assert StepOf(ws, acts, k);
        assert RegisteredIsActive(ws[k]) && RegisteredIsActive(ws[k + 1]);
        CleanupKeepsAgreementIff(ws[k], acts[k].timerIds);
      }
    }
    if forall k | 0 <= k < |acts| && Cleans(ws[k], acts[k]) :: NoneReused(ws[k]) {
      forall i | 0 <= i < |ws| ensures RegisteredIsActive(ws[i]) { AgreementFromCleanups(ws, acts, i); }
    }
  }

  /** A timer's callback registers an event with the VMI partition. */
  predicate RegistersInTimer(w: World, a: Action) {
    w.phase.Timers? && a.AppCall? && (a.api.EventRegister? || a.api.StartSyscall?)
  }

  lemma {:induction false} StepKeepsNoneReused(w: World, a: Action)
    requires Enabled(w, a) && !RegistersInTimer(w, a) && NoneReused(w)
    ensures NoneReused(Next(w, a))
  {}

  lemma {:induction false} NoneReusedThroughout(ws: seq<World>, acts: seq<Action>, i: nat)
    requires IsRun(ws, acts) && i < |ws|
    requires forall k | 0 <= k < |acts| :: !RegistersInTimer(ws[k], acts[k])
    ensures NoneReused(ws[i])
    decreases i
  {
    if i > 0 {
      NoneReusedThroughout(ws, acts, i - 1);
      assert StepOf(ws, acts, i - 1);
      assert !RegistersInTimer(ws[i - 1], acts[i - 1]);
      StepKeepsNoneReused(ws[i - 1], acts[i - 1]);
    }
  }

  /** Where no timer callback registers an event, the active events of the frontend are the registered ones, always. */
  lemma {:induction false} RegistriesAgree(ws: seq<World>, acts: seq<Action>, i: nat)
    requires ProperRun(ws, acts) && i < |ws|
    requires forall k | 0 <= k < |acts| :: !RegistersInTimer(ws[k], acts[k])
    ensures forall id :: ActiveIn(ws[i], id) <==> id in ws[i].vmi.events
  {
    forall k | 0 <= k < |ws| ensures NoneReused(ws[k]) { NoneReusedThroughout(ws, acts, k); }
    RegistriesAgreeIffNoneReused(ws, acts);
    ActiveEventsAreRegistered(ws, acts, i);
    assert RegisteredIsActive(ws[i]);
  }

  /** One proper step from a world to another. */
  ghost predicate Leads(w: World, a: Action, w': World) { Enabled(w, a) && Proper(w, a) && w' == Next(w, a) }

  lemma {:induction false} RunExtended(ws: seq<World>, acts: seq<Action>, a: Action, w: World)
    returns (ws': seq<World>, acts': seq<Action>)
    requires ProperRun(ws, acts) && Leads(ws[|acts|], a, w)
    ensures ws' == ws + [w] && acts' == acts + [a] && ProperRun(ws', acts')
  {
    ws', acts' := ws + [w], acts + [a];
    forall i | 0 <= i < |acts'|
      ensures StepOf(ws', acts', i) && Proper(ws'[i], acts'[i])
    {
      if i < |acts| { assert StepOf(ws, acts, i) && Proper(ws[i], acts[i]); }
    }
  }

  /** With the event 0 registered and active, or cleared. */
  function Holding(sync: Sync, active: bool, phase: Phase): World {
    INITIAL.(vmi := Vmi(map[0 := Trap(sync)], None, active, 0), eventlist := map[0 := ACTIVE], phase := phase)
  }

  function Cleared(phase: Phase): World {
    INITIAL.(vmi := Vmi(map[], None, true, 0), eventlist := map[0 := INACTIVE], phase := phase)
  }

  const COLLECTED := Timers({0}, {}, false)

  lemma {:induction false} AppStarts(sync: Sync)
    ensures Leads(INITIAL, AppCall(EventRegister(sync, true)), Holding(sync, false, Starting))
    ensures Leads(Holding(sync, false, Starting), AppCall(EventsStart), Holding(sync, true, Starting))
  {
    FreeIdIsLeast(map[]);
  }

  lemma {:induction false} AppPolls(sync: Sync)
    ensures Leads(Holding(sync, true, Starting), Proceed, Holding(sync, true, Polling))
    ensures Leads(Holding(sync, true, Polling), Proceed, Holding(sync, true, Polled))
  {}

  lemma {:induction false} AppClears(sync: Sync)
    ensures Leads(Holding(sync, true, Polled), AppCall(EventClear(0)), Cleared(Polled))
    ensures Leads(Cleared(Polled), Collect, Cleared(COLLECTED))
  {
    assert map[0 := Trap(sync)] - {0} == map[];
    assert Inactive(Cleared(Polled).eventlist) == {0};
    assert InactiveTimers(map[]) == {};
  }

  lemma {:induction false} TimerRegisters(sync: Sync)
    ensures Leads(Cleared(COLLECTED), AppCall(EventRegister(sync, true)), Holding(sync, true, COLLECTED))
    ensures Leads(Holding(sync, true, COLLECTED), Delete({}), Holding(sync, true, Polling).(eventlist := map[]))
  {
    FreeIdIsLeast(map[]);
    assert map[0 := ACTIVE] - {0} == map[];
  }

  /** It does happen otherwise: an event is cleared, its id collected, and given to an event that a timer registers; the
    cleanup then forgets an event that is registered and fires. */
  lemma {:induction false} TimerRegistrationCanBeLost(sync: Sync) returns (ws: seq<World>, acts: seq<Action>)
    ensures ProperRun(ws, acts)
    ensures var w := ws[|acts|]; 0 !in w.eventlist && Trapped(w.vmi, 0).1 == [Msg(0, sync.Sync?)]
  {
    hide Leads, Enabled, Next, Proper;
    ws, acts := [INITIAL], [];
    AppStarts(sync);
    ws, acts := RunExtended(ws, acts, AppCall(EventRegister(sync, true)), Holding(sync, false, Starting));
    ws, acts := RunExtended(ws, acts, AppCall(EventsStart), Holding(sync, true, Starting));
    AppPolls(sync);
    ws, acts := RunExtended(ws, acts, Proceed, Holding(sync, true, Polling));
    ws, acts := RunExtended(ws, acts, Proceed, Holding(sync, true, Polled));
    AppClears(sync);
    ws, acts := RunExtended(ws, acts, AppCall(EventClear(0)), Cleared(Polled));
    ws, acts := RunExtended(ws, acts, Collect, Cleared(COLLECTED));
    TimerRegisters(sync);
    ws, acts := RunExtended(ws, acts, AppCall(EventRegister(sync, true)), Holding(sync, true, COLLECTED));
    ws, acts := RunExtended(ws, acts, Delete({}), Holding(sync, true, Polling).(eventlist := map[]));
  }

  /** Ids up for deletion are held, so that deleting them raises no KeyError. */
  ghost predicate CleanupIsHeld(w: World) { w.phase.Timers? ==> w.phase.cleanup <= w.eventlist.Keys }

  lemma {:induction false} CleanupNeverFails(ws: seq<World>, acts: seq<Action>, i: nat)
    requires IsRun(ws, acts) && i < |ws|
    ensures CleanupIsHeld(ws[i])
    decreases i
  {
    if i > 0 {
      CleanupNeverFails(ws, acts, i - 1);
      assert StepOf(ws, acts, i - 1);
    }
  }
}

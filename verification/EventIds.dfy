/** What numbers mean to a frontend: timers and events number their ids independently, and event_clear looks among the
  events first. */
module EventIds {
  import opened EventProtocol

  // ---------- timers and events under one number ----------

  /** The app clears a timer that is running. */
  predicate ClearsTimer(w: World, a: Action) {
    && Enabled(w, a) && a.AppCall? && a.api.EventClear?
    && a.api.id in w.timers && w.timers[a.api.id] == Timer(false, ACTIVE)
  }

  predicate IsCleared(w: World, tid: nat) { tid in w.timers && w.timers[tid].status == INACTIVE }

  lemma {:induction false} TimerIsClearedIffNoSuchEvent(w: World, a: Action)
    requires ClearsTimer(w, a)
    ensures IsCleared(Next(w, a), a.api.id) <==> a.api.id !in w.eventlist
  {}

  /** If step k clears a timer, the timer is cleared. */
  ghost predicate ClearWorks(ws: seq<World>, acts: seq<Action>, k: nat)
    requires |ws| == |acts| + 1 && k < |acts|
  {
    ClearsTimer(ws[k], acts[k]) ==> IsCleared(ws[k + 1], acts[k].api.id)
  }

  /** If step k clears a timer, the frontend holds no event under its number. */
  ghost predicate NoClash(ws: seq<World>, acts: seq<Action>, k: nat)
    requires |ws| == |acts| + 1 && k < |acts|
  {
    ClearsTimer(ws[k], acts[k]) ==> acts[k].api.id !in ws[k].eventlist
  }

  lemma {:induction false} ClearWorksIffNoClash(ws: seq<World>, acts: seq<Action>, k: nat)
    requires IsRun(ws, acts) && k < |acts|
    ensures ClearWorks(ws, acts, k) <==> NoClash(ws, acts, k)
  {
    assert StepOf(ws, acts, k);
    if ClearsTimer(ws[k], acts[k]) { TimerIsClearedIffNoSuchEvent(ws[k], acts[k]); }
  }

  /** Over every run: clearing a timer always clears it if and only if the frontend never holds an event of that number
    then. */
  lemma {:induction false} TimersAreClearedIffNoClash(ws: seq<World>, acts: seq<Action>)
    requires IsRun(ws, acts)
    ensures (forall k | 0 <= k < |acts| :: ClearWorks(ws, acts, k))
            <==> forall k | 0 <= k < |acts| :: NoClash(ws, acts, k)
  {
    forall k | 0 <= k < |acts|
      ensures ClearWorks(ws, acts, k) <==> NoClash(ws, acts, k)
    {
      ClearWorksIffNoClash(ws, acts, k);
    }
  }

  /** Something is cleared or stopped. */
  predicate Clears(a: Action) { a.AppCall? && (a.api.EventClear? || a.api.StopSyscall?) }

  /** Events have the numbers below their count, timers those below theirs. */
  ghost predicate Dense(w: World) {
    && (forall id: nat :: id in w.vmi.events <==> id < |w.vmi.events|)
    && (forall id: nat :: ActiveIn(w, id) <==> id in w.vmi.events)
    && (forall id :: id in w.eventlist ==> ActiveIn(w, id))
    && (forall id: nat :: id in w.timers <==> id < w.nextTid)
    && (forall id | id in w.timers :: w.timers[id].status == ACTIVE)
    && (w.phase.Timers? ==> w.phase.cleanup == {} && w.phase.timerCleanup == {})
  }

  lemma {:induction false} AddKeepsDense(w: World, item: Item)
    requires Dense(w)
    ensures var id := FreeId(w.vmi.events);
            id == |w.vmi.events| && |w.vmi.events[id := item]| == |w.vmi.events| + 1
  {
    FreeIdIsLeast(w.vmi.events);
    AddKeepsSize(w.vmi.events, item);
  }

  lemma {:induction false} RegisterKeepsDense(w: World, sync: Sync, trapOk: bool)
    requires Dense(w)
    ensures Dense(Call(w, EventRegister(sync, trapOk)))
  {
    AddKeepsDense(w, Trap(sync));
  }

  lemma {:induction false} StartKeepsDense(w: World, sync: Sync)
    requires Dense(w)
    ensures Dense(Call(w, StartSyscall(sync)))
  {
    AddKeepsDense(w, Syscalls(sync));
  }

  lemma {:induction false} CallKeepsDense(w: World, api: Api)
    requires Dense(w) && !Clears(AppCall(api))
    ensures Dense(Call(w, api))
  {
    match api
    case EventRegister(sync, trapOk) => RegisterKeepsDense(w, sync, trapOk);
    case StartSyscall(sync) => StartKeepsDense(w, sync);
    case TimerRegister(_) =>
    case _ => hide Dense; SameNumbers(w, Call(w, api));
  }

  lemma {:induction false} CollectKeepsDense(w: World)
    requires Enabled(w, Collect) && Dense(w)
    ensures Dense(Next(w, Collect))
  {
    assert Inactive(w.eventlist) == {} && InactiveTimers(w.timers) == {};
  }

  lemma {:induction false} DeleteKeepsDense(w: World, ids: set<nat>)
    requires Enabled(w, Delete(ids)) && Dense(w)
    ensures Dense(Next(w, Delete(ids)))
  {
    assert InactiveTimers(w.timers) == {};
    assert w.eventlist - {} == w.eventlist && w.timers - {} == w.timers;
  }

  lemma {:induction false} StepKeepsDense(w: World, a: Action)
    requires Enabled(w, a) && Dense(w) && !Clears(a)
    ensures Dense(Next(w, a))
  {
    match a
    case AppCall(api) =>
      hide Call, Dense;
      CallKeepsDense(w, api);
    case Collect => hide Next, Dense; CollectKeepsDense(w);
    case Delete(ids) => hide Next, Dense; DeleteKeepsDense(w, ids);
    case _ => OtherStepsKeepDense(w, a);
  }

  /** Nothing else touches what is numbered. */
  lemma {:induction false} OtherStepsKeepDense(w: World, a: Action)
    requires Enabled(w, a) && Dense(w) && !a.AppCall? && !a.Collect? && !a.Delete?
    ensures Dense(Next(w, a))
  {
    hide Dense;
    var w' := Next(w, a);
    assert w'.vmi.events == w.vmi.events && w'.eventlist == w.eventlist;
    assert w'.timers == w.timers && w'.nextTid == w.nextTid && (w'.phase.Timers? ==> w'.phase == w.phase);
    SameNumbers(w, w');
  }

  lemma {:induction false} SameNumbers(w: World, w': World)
    requires Dense(w) && w'.vmi.events == w.vmi.events && w'.eventlist == w.eventlist
    requires w'.timers == w.timers && w'.nextTid == w.nextTid && (w'.phase.Timers? ==> w'.phase == w.phase)
    ensures Dense(w')
  {
    assert forall id :: ActiveIn(w', id) <==> ActiveIn(w, id);
  }

  lemma {:induction false} NumbersAreDense(ws: seq<World>, acts: seq<Action>, i: nat)
    requires IsRun(ws, acts) && i < |ws| && forall k | 0 <= k < i :: !Clears(acts[k])
    ensures Dense(ws[i])
    decreases i
  {
    hide Next, Enabled;
    if i > 0 {
      NumbersAreDense(ws, acts, i - 1);
      assert StepOf(ws, acts, i - 1);
      StepKeepsDense(ws[i - 1], acts[i - 1]);
    }
  }

  /** So the first thing an app clears, if it is a timer, is cleared if and only if at least as many timers were
    registered before it as there are events. */
  lemma {:induction false} FirstClearIsRightIff(ws: seq<World>, acts: seq<Action>, i: nat)
    requires IsRun(ws, acts) && i < |acts| && (forall k | 0 <= k < i :: !Clears(acts[k])) && ClearsTimer(ws[i], acts[i])
    ensures IsCleared(ws[i + 1], acts[i].api.id) <==> acts[i].api.id >= |ws[i].vmi.events|
  {
    NumbersAreDense(ws, acts, i);
    assert StepOf(ws, acts, i);
    var id := acts[i].api.id;
    assert ActiveIn(ws[i], id) <==> id in ws[i].vmi.events;
    TimerIsClearedIffNoSuchEvent(ws[i], acts[i]);
  }

  function WithTimer(w: World): World { w.(timers := map[0 := Timer(false, ACTIVE)], nextTid := 1) }

  lemma {:induction false} TimerJoins(sync: Sync)
    ensures var w := Holding(sync, false, Starting);
            && Leads(w, AppCall(TimerRegister(false)), WithTimer(w))
            && ClearsTimer(WithTimer(w), AppCall(EventClear(0)))
            && Leads(WithTimer(w), AppCall(EventClear(0)),
                     WithTimer(w).(vmi := w.vmi.(events := map[]), eventlist := map[0 := INACTIVE]))
  {
    assert map[0 := Trap(sync)] - {0} == map[];
  }

  /** It does happen, in three calls: an app registers an event and a timer, and clears the timer. */
  lemma {:induction false} ClearedTimerRunsOn(sync: Sync) returns (ws: seq<World>, acts: seq<Action>)
    ensures ProperRun(ws, acts) && |acts| == 3
    ensures ClearsTimer(ws[2], acts[2]) && acts[2].api.id == 0 && !IsCleared(ws[3], 0)
    ensures 0 in ws[2].vmi.events && ws[3].vmi.events == map[]
  {
    var w := Holding(sync, false, Starting);
    AppStarts(sync);
    TimerJoins(sync);
    hide Enabled, Next, Proper;
    ws, acts := [INITIAL], [];
    assert ProperRun(ws, acts);
    ws, acts := RunExtended(ws, acts, AppCall(EventRegister(sync, true)), w);
    ws, acts := RunExtended(ws, acts, AppCall(TimerRegister(false)), WithTimer(w));
    ws, acts := RunExtended(ws, acts, AppCall(EventClear(0)),
                            WithTimer(w).(vmi := w.vmi.(events := map[]), eventlist := map[0 := INACTIVE]));
  }
}

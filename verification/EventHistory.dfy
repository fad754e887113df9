/** What the steps of a run do, told from the run alone: which registration an event belongs to, what it sends and
  whether it pauses, which calls succeed, and what has been masked, cleared and paused by then. */
module EventHistory {
  import opened Wrappers
  import opened EventProtocol

  lemma {:induction false} StepIs(ws: seq<World>, acts: seq<Action>, k: nat)
    requires IsRun(ws, acts) && k < |acts|
    ensures Enabled(ws[k], acts[k]) && ws[k + 1] == Next(ws[k], acts[k])
  {
    hide Enabled, Next;
    assert StepOf(ws, acts, k);
  }

  /** Only calls touch what is registered. */
  lemma {:induction false} OthersLeaveRegistry(w: World, a: Action)
    requires Enabled(w, a) && !a.AppCall?
    ensures var v, v' := w.vmi, Next(w, a).vmi; v'.events == v.events && v'.plugin == v.plugin && v'.active == v.active
  {}

  // ---------- registrations ----------

  /** The smallest number that no event has. */
  ghost predicate IsLeastFree(events: map<nat, Item>, id: nat) {
    id !in events && forall j | 0 <= j < id :: j in events
  }

  /** w' is w with one event more, under the smallest free id and active on both sides; the shared buffer is
    overwritten. */
  ghost predicate Adds(w: World, w': World, id: nat, item: Item, plugin: Option<(nat, Sync)>) {
    && IsLeastFree(w.vmi.events, id)
    && w' == w.(vmi := w.vmi.(events := w.vmi.events[id := item], plugin := plugin),
                eventlist := w.eventlist[id := ACTIVE], vmsg := None)
  }

  /** event_register succeeds if and only if fewer than 200 events are held and DRAKVUF takes the trap; start_syscall
    if and only if the plugin is not owned, whatever the number of events.  A call that fails leaves all events alone.
    */
  lemma {:induction false} RegistrationIff(ws: seq<World>, acts: seq<Action>, k: nat) returns (id: nat)
    requires IsRun(ws, acts) && k < |acts| && acts[k].AppCall?
    requires acts[k].api.EventRegister? || acts[k].api.StartSyscall?
    ensures var (w, w', api) := (ws[k], ws[k + 1], acts[k].api);
            var ok := if api.EventRegister? then |w.vmi.events| < 200 && api.trapOk else w.vmi.plugin.None?;
            var item := if api.EventRegister? then Trap(api.sync) else Syscalls(api.sync);
            if ok then Adds(w, w', id, item, if api.EventRegister? then w.vmi.plugin else Some((id, api.sync)))
            else w' == w.(vmsg := None)
  {
    StepIs(ws, acts, k);
    id := FreeId(ws[k].vmi.events);
    FreeIdIsLeast(ws[k].vmi.events);
    hide FreeFrom;
  }

  // ---------- events that fire ----------

  /** Step j gave out the id, and it has been held since. */
  ghost predicate GivenSince(ws: seq<World>, acts: seq<Action>, j: nat, id: nat, k: nat)
    requires |ws| == |acts| + 1 && k <= |acts|
  {
    && j < k && acts[j].AppCall? && id !in ws[j].vmi.events
    && forall i | j < i <= k :: id in ws[i].vmi.events
  }

  /** An item is what the call that gave out its id asked for, and does not change. */
  ghost predicate AskedFor(api: Api, item: Item) {
    || (api.EventRegister? && item == Trap(api.sync))
    || (api.StartSyscall? && item == Syscalls(api.sync))
  }

  lemma {:induction false} EventNext(w: World, a: Action, id: nat)
    requires Enabled(w, a) && id in Next(w, a).vmi.events
    ensures id in w.vmi.events ==> Next(w, a).vmi.events[id] == w.vmi.events[id]
    ensures id !in w.vmi.events ==> a.AppCall? && AskedFor(a.api, Next(w, a).vmi.events[id])
  {
    hide FreeId;
    if a.AppCall? { EventAfterCall(w, a.api, id); } else { hide Next; OthersLeaveRegistry(w, a); }
  }

  lemma {:induction false} EventAfterCall(w: World, api: Api, id: nat)
    requires id in Call(w, api).vmi.events
    ensures id in w.vmi.events ==> Call(w, api).vmi.events[id] == w.vmi.events[id]
    ensures id !in w.vmi.events ==> AskedFor(api, Call(w, api).vmi.events[id])
  {
    FreeIdIsLeast(w.vmi.events);
    hide FreeId;
  }

  lemma {:induction false} EventOrigin(ws: seq<World>, acts: seq<Action>, k: nat, id: nat) returns (j: nat)
    requires IsRun(ws, acts) && k <= |acts| && id in ws[k].vmi.events
    ensures GivenSince(ws, acts, j, id, k) && AskedFor(acts[j].api, ws[k].vmi.events[id])
    decreases k
  {
    hide Enabled, Next, AskedFor;
    StepIs(ws, acts, k - 1);
    EventNext(ws[k - 1], acts[k - 1], id);
    if id in ws[k - 1].vmi.events { j := EventOrigin(ws, acts, k - 1, id); } else { j := k - 1; }
  }

  /** The last events_start or events_stop before step k, if any, was a start. */
  ghost predicate Started(acts: seq<Action>, k: nat)
    requires k <= |acts|
  {
    exists s | 0 <= s < k :: acts[s] == AppCall(EventsStart) && forall t | s < t < k :: acts[t] != AppCall(EventsStop)
  }

  lemma {:induction false} ActiveNext(w: World, a: Action)
    requires Enabled(w, a)
    ensures Next(w, a).vmi.active == (a == AppCall(EventsStart) || (w.vmi.active && a != AppCall(EventsStop)))
  {
    hide FreeId;
    if a.AppCall? { ActiveAfterCall(w, a.api); } else { hide Next; OthersLeaveRegistry(w, a); }
  }

  lemma {:induction false} ActiveAfterCall(w: World, api: Api)
    ensures Call(w, api).vmi.active == (api == EventsStart || (w.vmi.active && api != EventsStop))
  {
    hide FreeId;
  }

  lemma {:induction false} ActiveIffStarted(ws: seq<World>, acts: seq<Action>, k: nat)
    requires IsRun(ws, acts) && k <= |acts|
    ensures ws[k].vmi.active <==> Started(acts, k)
    decreases k
  {
    hide Enabled, Next;
    if k > 0 {
      ActiveIffStarted(ws, acts, k - 1);
      StepIs(ws, acts, k - 1);
      ActiveNext(ws[k - 1], acts[k - 1]);
      if acts[k - 1] == AppCall(EventsStart) { assert Started(acts, k); }
    }
  }

  /** w' is w with one message sent, and one pause more if the event is synchronous. */
  ghost predicate Sends(w: World, w': World, id: nat, sync: Sync) {
    w' == w.(inbox := w.inbox + [Msg(id, sync == Sync)],
             vmi := w.vmi.(pauses := w.vmi.pauses + if sync == Sync then 1 else 0))
  }

  /** A trap that fires under an id sends one message, and pauses the guest if and only if the registration that gave
    out the id asked for that, provided the events have been started and not been stopped since.  Nothing else
    happens: no message under an id that is not held, of the syscall plugin's, or while events are stopped. */
  lemma {:induction false} TrapFires(ws: seq<World>, acts: seq<Action>, k: nat) returns (j: nat)
    requires IsRun(ws, acts) && k < |acts| && acts[k].FireEvent?
    ensures acts[k].id !in ws[k].vmi.events ==> ws[k + 1] == ws[k]
    ensures acts[k].id in ws[k].vmi.events ==>
              && GivenSince(ws, acts, j, acts[k].id, k) && (acts[j].api.EventRegister? || acts[j].api.StartSyscall?)
              && if acts[j].api.EventRegister? && Started(acts, k)
                 then Sends(ws[k], ws[k + 1], acts[k].id, acts[j].api.sync)
                 else ws[k + 1] == ws[k]
  {
    StepIs(ws, acts, k);
    ActiveIffStarted(ws, acts, k);
    hide IsRun, Started, GivenSince;
    assert ws[k].inbox + [] == ws[k].inbox;
    if acts[k].id in ws[k].vmi.events { j := EventOrigin(ws, acts, k, acts[k].id); } else { j := 0; }
  }

  /** Step j started the syscall plugin, and it has been owned since under the id given out then. */
  ghost predicate OwnedSince(ws: seq<World>, acts: seq<Action>, j: nat, id: nat, k: nat)
    requires |ws| == |acts| + 1 && k <= |acts|
  {
    && j < k && acts[j].AppCall? && acts[j].api.StartSyscall?
    && ws[j].vmi.plugin.None? && IsLeastFree(ws[j].vmi.events, id)
    && forall i | j < i <= k :: ws[i].vmi.plugin == Some((id, acts[j].api.sync))
  }

  lemma {:induction false} PluginNext(w: World, a: Action)
    requires Enabled(w, a) && Next(w, a).vmi.plugin.Some?
    ensures w.vmi.plugin.Some? ==> Next(w, a).vmi.plugin == w.vmi.plugin
    ensures w.vmi.plugin.None? ==>
              && a.AppCall? && a.api.StartSyscall? && Next(w, a).vmi.plugin.value.1 == a.api.sync
              && IsLeastFree(w.vmi.events, Next(w, a).vmi.plugin.value.0)
  {
    hide FreeId;
    if a.AppCall? { PluginAfterCall(w, a.api); } else { hide Next; OthersLeaveRegistry(w, a); }
  }

  lemma {:induction false} PluginAfterCall(w: World, api: Api)
    requires Call(w, api).vmi.plugin.Some?
    ensures w.vmi.plugin.Some? ==> Call(w, api).vmi.plugin == w.vmi.plugin
    ensures w.vmi.plugin.None? ==>
              && api.StartSyscall? && Call(w, api).vmi.plugin.value.1 == api.sync
              && IsLeastFree(w.vmi.events, Call(w, api).vmi.plugin.value.0)
  {
    FreeIdIsLeast(w.vmi.events);
    hide FreeId;
  }

  lemma {:induction false} PluginOrigin(ws: seq<World>, acts: seq<Action>, k: nat) returns (j: nat)
    requires IsRun(ws, acts) && k <= |acts| && ws[k].vmi.plugin.Some?
    ensures OwnedSince(ws, acts, j, ws[k].vmi.plugin.value.0, k)
    decreases k
  {
    hide Enabled, Next, IsLeastFree;
    StepIs(ws, acts, k - 1);
    PluginNext(ws[k - 1], acts[k - 1]);
    if ws[k - 1].vmi.plugin.Some? { j := PluginOrigin(ws, acts, k - 1); } else { j := k - 1; }
  }

  /** A traced syscall sends one message under the plugin's id, and pauses the guest if and only if the start_syscall
    that gave out the id asked for that, whether events are stopped or not. */
  lemma {:induction false} SyscallFires(ws: seq<World>, acts: seq<Action>, k: nat) returns (j: nat)
    requires IsRun(ws, acts) && k < |acts| && acts[k].FireSyscallEvent?
    ensures ws[k].vmi.plugin.None? ==> ws[k + 1] == ws[k]
    ensures ws[k].vmi.plugin.Some? ==>
              var id := ws[k].vmi.plugin.value.0;
              OwnedSince(ws, acts, j, id, k) && Sends(ws[k], ws[k + 1], id, acts[j].api.sync)
  {
    StepIs(ws, acts, k);
    hide IsRun;
    assert ws[k].inbox + [] == ws[k].inbox;
    if ws[k].vmi.plugin.Some? { j := PluginOrigin(ws, acts, k); } else { j := 0; }
  }

  // ---------- pauses, counted ----------

  /** How often the app has made a call in the first k steps. */
  function TimesCalled(acts: seq<Action>, k: nat, api: Api): nat
    requires k <= |acts|
  {
    if k == 0 then 0 else TimesCalled(acts, k - 1, api) + if acts[k - 1] == AppCall(api) then 1 else 0
  }

  lemma {:induction false} OwnNext(w: World, a: Action)
    requires Enabled(w, a)
    ensures Next(w, a).ownPauses == w.ownPauses + if a == AppCall(PauseVm) then 1 else 0
    ensures Next(w, a).ownResumes == w.ownResumes + if a == AppCall(ResumeVm) then 1 else 0
  {}

  lemma {:induction false} OwnPausesAreCalls(ws: seq<World>, acts: seq<Action>, k: nat)
    requires IsRun(ws, acts) && k <= |acts|
    ensures ws[k].ownPauses == TimesCalled(acts, k, PauseVm) && ws[k].ownResumes == TimesCalled(acts, k, ResumeVm)
    decreases k
  {
    hide Enabled, Next;
    if k > 0 {
      OwnPausesAreCalls(ws, acts, k - 1);
      StepIs(ws, acts, k - 1);
      OwnNext(ws[k - 1], acts[k - 1]);
    }
  }

  /** So the pause count of the guest is known from the run: the app's own calls, and the synchronous messages sent
    and not yet done with. */
  lemma {:induction false} PausesAreCounted(ws: seq<World>, acts: seq<Action>, k: nat)
    requires IsRun(ws, acts) && k <= |acts|
    ensures ws[k].vmi.pauses
         == TimesCalled(acts, k, PauseVm) - TimesCalled(acts, k, ResumeVm)
            + PausedIn(ws[k].inbox) + if ws[k].phase.Handling? && ws[k].phase.guestPaused then 1 else 0
  {
    hide StepOf, TimesCalled, PausedIn;
    OwnPausesAreCalls(ws, acts, k);
    PausesAreConserved(ws, acts, k);
  }

  // ---------- timers ----------

  ghost predicate IsRunning(w: World, tid: nat, backend: bool) {
    tid in w.timers && w.timers[tid] == Timer(backend, ACTIVE)
  }

  /** Step i clears the timer of this number: there is no event under the number. */
  ghost predicate ClearReaches(w: World, a: Action, tid: nat) { a == AppCall(EventClear(tid)) && tid !in w.eventlist }

  /** Timer tid is running, or it will never run again. */
  ghost predicate TimerIs(w: World, tid: nat, backend: bool, running: bool) {
    && tid < w.nextTid
    && if running then IsRunning(w, tid, backend)
       else !backend && (tid in w.timers ==> w.timers[tid] == Timer(false, INACTIVE))
  }

  lemma {:induction false} TimerAfterCall(w: World, api: Api, tid: nat, backend: bool, running: bool)
    requires TimerIs(w, tid, backend, running)
    ensures TimerIs(Call(w, api), tid, backend,
                    running && (backend || !(api == EventClear(tid) && tid !in w.eventlist)))
  {
    hide FreeId;
  }

  lemma {:induction false} TimerNext(w: World, a: Action, tid: nat, backend: bool, running: bool)
    requires Enabled(w, a) && TimerIs(w, tid, backend, running)
    ensures TimerIs(Next(w, a), tid, backend, running && (backend || !ClearReaches(w, a, tid)))
  {
    if a.AppCall? {
      hide Call;
      TimerAfterCall(w, a.api, tid, backend, running);
    }
  }

  /** A timer that step j registers has the next number, and runs until an event_clear of its number that meets no
    event of that number; the backend callback runs for ever. */
  lemma {:induction false} TimerRunsIff(ws: seq<World>, acts: seq<Action>, j: nat, k: nat)
    requires IsRun(ws, acts) && j < k <= |acts| && acts[j].AppCall? && acts[j].api.TimerRegister?
    ensures var tid, backend := ws[j].nextTid, acts[j].api.backend;
            var running := backend || forall i | j < i < k :: !ClearReaches(ws[i], acts[i], tid);
            TimerIs(ws[k], tid, backend, running) && (running <==> IsRunning(ws[k], tid, backend))
    decreases k
  {
    hide Enabled, Next;
    var tid, backend := ws[j].nextTid, acts[j].api.backend;
    if k == j + 1 {
      TimerRegistered(ws, acts, j);
    } else {
      TimerRunsIff(ws, acts, j, k - 1);
      StepIs(ws, acts, k - 1);
      var before := backend || forall i | j < i < k - 1 :: !ClearReaches(ws[i], acts[i], tid);
      TimerNext(ws[k - 1], acts[k - 1], tid, backend, before);
    }
  }

  lemma {:induction false} TimerRegistered(ws: seq<World>, acts: seq<Action>, j: nat)
    requires IsRun(ws, acts) && j < |acts| && acts[j].AppCall? && acts[j].api.TimerRegister?
    ensures TimerIs(ws[j + 1], ws[j].nextTid, acts[j].api.backend, true)
    ensures ws[j + 1].nextTid == ws[j].nextTid + 1
  {
    StepIs(ws, acts, j);
  }

  // ---------- the end of a tick ----------

  /** Step j collected, and no step since has collected or deleted. */
  ghost predicate CollectedAt(acts: seq<Action>, j: nat, k: nat)
    requires k <= |acts|
  {
    j < k && acts[j] == Collect && forall i | j < i < k :: !acts[i].Collect? && !acts[i].Delete?
  }

  ghost predicate GrownSince(acts: seq<Action>, j: nat, k: nat)
    requires k <= |acts|
  {
    exists i | j < i < k :: acts[i].AppCall? && acts[i].api.TimerRegister?
  }

  /** What was collected at step j is what was inactive then. */
  ghost predicate HoldsCollected(ws: seq<World>, acts: seq<Action>, j: nat, k: nat)
    requires |ws| == |acts| + 1 && k <= |acts|
  {
    && CollectedAt(acts, j, k) && ws[k].phase.Timers?
    && (forall id :: id in ws[k].phase.cleanup <==> id in ws[j].eventlist && ws[j].eventlist[id] == INACTIVE)
    && (forall id :: id in ws[k].phase.timerCleanup <==> id in ws[j].timers && ws[j].timers[id].status == INACTIVE)
    && (ws[k].phase.grown <==> GrownSince(acts, j, k))
  }

  lemma {:induction false} PhaseNext(w: World, a: Action)
    requires Enabled(w, a) && Next(w, a).phase.Timers?
    ensures var p := Next(w, a).phase;
            if a.Collect? then p == Timers(Inactive(w.eventlist), InactiveTimers(w.timers), false)
            else && !a.Delete? && w.phase.Timers?
                 && p == if a.AppCall? && a.api.TimerRegister? then w.phase.(grown := true) else w.phase
  {
    hide FreeId;
  }

  lemma {:induction false} CleanupOrigin(ws: seq<World>, acts: seq<Action>, k: nat) returns (j: nat)
    requires IsRun(ws, acts) && k <= |acts| && ws[k].phase.Timers?
    ensures HoldsCollected(ws, acts, j, k)
    decreases k
  {
    hide Enabled, Next;
    StepIs(ws, acts, k - 1);
    PhaseNext(ws[k - 1], acts[k - 1]);
    if acts[k - 1].Collect? {
      j := k - 1;
    } else {
      j := CleanupOrigin(ws, acts, k - 1);
      assert GrownSince(acts, j, k)
             <==> GrownSince(acts, j, k - 1) || (acts[k - 1].AppCall? && acts[k - 1].api.TimerRegister?);
    }
  }

  /** The deletions at the end of a tick take out exactly the events that were inactive when they were collected, and
    of the timers those and perhaps some that have been cleared since; unless a timer was registered in between, which
    ends the loop. */
  lemma {:induction false} DeleteTakesOutCollected(ws: seq<World>, acts: seq<Action>, k: nat) returns (j: nat)
    requires IsRun(ws, acts) && k < |acts| && acts[k].Delete?
    ensures CollectedAt(acts, j, k)
    ensures GrownSince(acts, j, k) <==> ws[k + 1].phase == Gone
    ensures GrownSince(acts, j, k) ==> ws[k + 1] == ws[k].(phase := Gone)
    ensures !GrownSince(acts, j, k) ==>
              && (forall id :: id in ws[k + 1].eventlist
                               <==> id in ws[k].eventlist
                                    && !(id in ws[j].eventlist && ws[j].eventlist[id] == INACTIVE))
              && (forall tid | tid in ws[j].timers && ws[j].timers[tid].status == INACTIVE :: tid !in ws[k + 1].timers)
              && (forall tid | tid in ws[k].timers && ws[k].timers[tid].status == ACTIVE ::
                    tid in ws[k + 1].timers && ws[k + 1].timers[tid] == ws[k].timers[tid])
              && ws[k + 1].phase == Polling && ws[k + 1].vmi == ws[k].vmi
  {
    StepIs(ws, acts, k);
    j := CleanupOrigin(ws, acts, k);
    hide IsRun, CollectedAt, GrownSince;
  }
}

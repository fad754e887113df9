/** Whether a message reaches the callback of the registration that sent it.  A message carries an id and nothing
  else, and ids are given out again while messages are in flight. */
module StaleEvents {
  import opened Wrappers
  import opened EventProtocol

  /** The id that a step gives out. */
  function Given(w: World, a: Action): Option<nat> {
    if a.AppCall? && a.api.EventRegister? then Register(w.vmi, a.api.sync, a.api.trapOk).1
    else if a.AppCall? && a.api.StartSyscall? then StartPlugin(w.vmi, a.api.sync).1
    else None
  }

  /** The id under which a step sends a message. */
  function SentUnder(w: World, a: Action): Option<nat> {
    if a.FireEvent? && Trapped(w.vmi, a.id).1 != [] then Some(a.id)
    else if a.FireSyscallEvent? && w.vmi.plugin.Some? then Some(w.vmi.plugin.value.0)
    else None
  }

  /** A message in flight: the registration that sent it, and when. */
  datatype Flight = Flight(sender: nat, at: nat)

  /** Registrations are told apart by the step that made them: those behind the ids of the VMI partition, of the
    messages in flight, and of the frontend's callbacks. */
  datatype Owners = Owners(items: map<nat, nat>, flights: seq<Flight>, callbacks: map<nat, nat>)

  /** The entries still held, and the one a step adds. */
  function Held(owners: map<nat, nat>, ids: set<nat>, given: Option<nat>, t: nat): map<nat, nat> {
    var kept := map id | id in owners && id in ids :: owners[id];
    if given.Some? then kept[given.value := t] else kept
  }

  function OwnersNext(w: World, a: Action, t: nat, o: Owners): Owners
    requires Enabled(w, a)
  {
    var w' := Next(w, a);
    var flights := match SentUnder(w, a)
                   case Some(id) => o.flights + [Flight(if id in o.items then o.items[id] else 0, t)]
                   case None => if a.Receive? && o.flights != [] then o.flights[1..] else o.flights;
    Owners(Held(o.items, w'.vmi.events.Keys, Given(w, a), t), flights,
           Held(o.callbacks, w'.eventlist.Keys, Given(w, a), t))
  }

  ghost function OwnersAt(ws: seq<World>, acts: seq<Action>, i: nat): Owners
    requires IsRun(ws, acts) && i <= |acts|
  {
    if i == 0 then Owners(map[], [], map[])
    else
      assert StepOf(ws, acts, i - 1);
      OwnersNext(ws[i - 1], acts[i - 1], i - 1, OwnersAt(ws, acts, i - 1))
  }

  // ---------- who is behind an id ----------

  ghost predicate GivenAt(ws: seq<World>, acts: seq<Action>, k: nat, id: nat)
    requires |ws| == |acts| + 1 && k < |acts|
  {
    Given(ws[k], acts[k]) == Some(id)
  }

  /** Before step i, the id was given out last at step s. */
  ghost predicate LatestBefore(ws: seq<World>, acts: seq<Action>, id: nat, s: nat, i: nat)
    requires |ws| == |acts| + 1 && i <= |acts|
  {
    s < i && GivenAt(ws, acts, s, id) && forall k | s < k < i :: !GivenAt(ws, acts, k, id)
  }

  ghost predicate AllLatest(ws: seq<World>, acts: seq<Action>, owners: map<nat, nat>, i: nat)
    requires |ws| == |acts| + 1 && i <= |acts|
  {
    forall id | id in owners :: LatestBefore(ws, acts, id, owners[id], i)
  }

  /** Message j in flight was sent under its id by the latest registration then, and has been in flight since. */
  ghost predicate FlightIsTrue(ws: seq<World>, acts: seq<Action>, i: nat, f: Flight, m: Msg)
    requires |ws| == |acts| + 1 && i <= |acts|
  {
    && f.at < i && SentUnder(ws[f.at], acts[f.at]) == Some(m.id)
    && LatestBefore(ws, acts, m.id, f.sender, f.at)
    && forall k | f.at < k <= i :: m in ws[k].inbox
  }

  ghost predicate AllInFlight(ws: seq<World>, acts: seq<Action>, i: nat, flights: seq<Flight>, inbox: seq<Msg>)
    requires |ws| == |acts| + 1 && i <= |acts|
  {
    |flights| == |inbox| && forall j | 0 <= j < |flights| :: FlightIsTrue(ws, acts, i, flights[j], inbox[j])
  }

  ghost predicate Tracked(ws: seq<World>, acts: seq<Action>, i: nat, o: Owners)
    requires |ws| == |acts| + 1 && i <= |acts|
  {
    && o.items.Keys == ws[i].vmi.events.Keys && AllLatest(ws, acts, o.items, i)
    && o.callbacks.Keys == ws[i].eventlist.Keys && AllLatest(ws, acts, o.callbacks, i)
    && AllInFlight(ws, acts, i, o.flights, ws[i].inbox)
  }

  lemma {:induction false} HeldIsLatest(ws: seq<World>, acts: seq<Action>, owners: map<nat, nat>, ids: set<nat>, i: nat)
    requires |ws| == |acts| + 1 && i < |acts| && AllLatest(ws, acts, owners, i)
    ensures AllLatest(ws, acts, Held(owners, ids, Given(ws[i], acts[i]), i), i + 1)
  {
    var held := Held(owners, ids, Given(ws[i], acts[i]), i);
    forall id | id in held
      ensures LatestBefore(ws, acts, id, held[id], i + 1)
    {
      if !GivenAt(ws, acts, i, id) { assert LatestBefore(ws, acts, id, owners[id], i); }
    }
  }

  /** A step adds the given id to the events and to the event list, and no other. */
  lemma {:induction false} KeysNext(w: World, a: Action)
    requires Enabled(w, a)
    ensures var w', given := Next(w, a), Given(w, a);
            && (given.Some? ==> given.value in w'.vmi.events && given.value in w'.eventlist)
            && (forall id | id in w'.vmi.events :: id in w.vmi.events || given == Some(id))
            && (forall id | id in w'.eventlist :: id in w.eventlist || given == Some(id))
  {}

  lemma {:induction false} HeldKeys(owners: map<nat, nat>, before: set<nat>, ids: set<nat>, given: Option<nat>, t: nat)
    requires owners.Keys == before && (given.Some? ==> given.value in ids)
    requires forall id | id in ids :: id in before || given == Some(id)
    ensures Held(owners, ids, given, t).Keys == ids
  {}

  lemma {:induction false} InboxNext(w: World, a: Action)
    requires Enabled(w, a)
    ensures var inbox := Next(w, a).inbox;
            match SentUnder(w, a)
            case Some(id) => && |inbox| == |w.inbox| + 1 && inbox == w.inbox + [inbox[|w.inbox|]]
                             && inbox[|w.inbox|].id == id
            case None => inbox == if a.Receive? then w.inbox[1..] else w.inbox
  {
    assert w.inbox + [] == w.inbox;
  }

  lemma {:induction false} FlightGoesOn(ws: seq<World>, acts: seq<Action>, i: nat, f: Flight, m: Msg)
    requires |ws| == |acts| + 1 && i < |acts| && FlightIsTrue(ws, acts, i, f, m) && m in ws[i + 1].inbox
    ensures FlightIsTrue(ws, acts, i + 1, f, m)
  {}

  lemma {:induction false} FlightsStay(ws: seq<World>, acts: seq<Action>, i: nat, flights: seq<Flight>, inbox: seq<Msg>)
    requires |ws| == |acts| + 1 && i < |acts| && AllInFlight(ws, acts, i, flights, inbox)
    requires forall j | 0 <= j < |inbox| :: inbox[j] in ws[i + 1].inbox
    ensures AllInFlight(ws, acts, i + 1, flights, inbox)
  {
    hide FlightIsTrue;
    forall j | 0 <= j < |flights|
      ensures FlightIsTrue(ws, acts, i + 1, flights[j], inbox[j])
    {
      FlightGoesOn(ws, acts, i, flights[j], inbox[j]);
    }
  }

  lemma {:induction false} FlightStarts(ws: seq<World>, acts: seq<Action>, i: nat, sender: nat, m: Msg)
    requires |ws| == |acts| + 1 && i < |acts| && SentUnder(ws[i], acts[i]) == Some(m.id) && m in ws[i + 1].inbox
    requires LatestBefore(ws, acts, m.id, sender, i)
    ensures FlightIsTrue(ws, acts, i + 1, Flight(sender, i), m)
  {}

  lemma {:induction false} FlightsSent(ws: seq<World>, acts: seq<Action>, i: nat, flights: seq<Flight>, sender: nat)
    requires IsRun(ws, acts) && i < |acts| && AllInFlight(ws, acts, i, flights, ws[i].inbox) && StepOf(ws, acts, i)
    requires SentUnder(ws[i], acts[i]).Some? && LatestBefore(ws, acts, SentUnder(ws[i], acts[i]).value, sender, i)
    ensures AllInFlight(ws, acts, i + 1, flights + [Flight(sender, i)], ws[i + 1].inbox)
  {
    InboxNext(ws[i], acts[i]);
    hide Next, Enabled, LatestBefore, SentUnder, FlightIsTrue;
    var inbox := ws[i].inbox;
    FlightStarts(ws, acts, i, sender, ws[i + 1].inbox[|inbox|]);
    FlightsStay(ws, acts, i, flights, inbox);
  }

  lemma {:induction false} FlightsKept(ws: seq<World>, acts: seq<Action>, i: nat, flights: seq<Flight>)
    requires IsRun(ws, acts) && i < |acts| && AllInFlight(ws, acts, i, flights, ws[i].inbox) && StepOf(ws, acts, i)
    requires SentUnder(ws[i], acts[i]).None? && (acts[i].Receive? ==> ws[i].inbox != [])
    ensures AllInFlight(ws, acts, i + 1, if acts[i].Receive? then flights[1..] else flights, ws[i + 1].inbox)
  {
    InboxNext(ws[i], acts[i]);
    hide Next, Enabled, SentUnder, FlightIsTrue;
    var inbox := ws[i].inbox;
    if acts[i].Receive? {
      FlightsStay(ws, acts, i, flights[1..], inbox[1..]);
    } else {
      FlightsStay(ws, acts, i, flights, inbox);
    }
  }

  lemma {:induction false} FlightsNext(ws: seq<World>, acts: seq<Action>, i: nat, o: Owners)
    requires IsRun(ws, acts) && i < |acts| && Tracked(ws, acts, i, o) && StepOf(ws, acts, i)
    requires ws[i].vmi.plugin.Some? ==> ws[i].vmi.plugin.value.0 in ws[i].vmi.events
    ensures AllInFlight(ws, acts, i + 1, OwnersNext(ws[i], acts[i], i, o).flights, ws[i + 1].inbox)
  {
    hide AllInFlight, LatestBefore, Next;
    var sent := SentUnder(ws[i], acts[i]);
    assert |o.flights| == |ws[i].inbox| by { ManyFlights(ws, acts, i, o.flights, ws[i].inbox); }
    if sent.Some? {
      assert LatestBefore(ws, acts, sent.value, o.items[sent.value], i);
      FlightsSent(ws, acts, i, o.flights, o.items[sent.value]);
    } else {
      FlightsKept(ws, acts, i, o.flights);
    }
  }

  lemma {:induction false} ManyFlights(ws: seq<World>, acts: seq<Action>, i: nat, flights: seq<Flight>, inbox: seq<Msg>)
    requires |ws| == |acts| + 1 && i <= |acts| && AllInFlight(ws, acts, i, flights, inbox)
    ensures |flights| == |inbox|
  {}

  lemma {:induction false} TrackedNext(ws: seq<World>, acts: seq<Action>, i: nat, o: Owners)
    requires IsRun(ws, acts) && i < |acts| && Tracked(ws, acts, i, o) && StepOf(ws, acts, i)
    requires ws[i].vmi.plugin.Some? ==> ws[i].vmi.plugin.value.0 in ws[i].vmi.events
    ensures Tracked(ws, acts, i + 1, OwnersNext(ws[i], acts[i], i, o))
  {
    FlightsNext(ws, acts, i, o);
    KeysNext(ws[i], acts[i]);
    hide Next, Enabled, Given, SentUnder, AllInFlight, AllLatest, Held;
    HeldKeys(o.items, ws[i].vmi.events.Keys, ws[i + 1].vmi.events.Keys, Given(ws[i], acts[i]), i);
    HeldKeys(o.callbacks, ws[i].eventlist.Keys, ws[i + 1].eventlist.Keys, Given(ws[i], acts[i]), i);
    HeldIsLatest(ws, acts, o.items, ws[i + 1].vmi.events.Keys, i);
    HeldIsLatest(ws, acts, o.callbacks, ws[i + 1].eventlist.Keys, i);
  }

  lemma {:induction false} NothingTracked(ws: seq<World>, acts: seq<Action>)
    requires |ws| == |acts| + 1 && ws[0] == INITIAL
    ensures Tracked(ws, acts, 0, Owners(map[], [], map[]))
  {}

  lemma {:induction false} OwnersStep(ws: seq<World>, acts: seq<Action>, i: nat)
    requires IsRun(ws, acts) && i < |acts|
    ensures StepOf(ws, acts, i)
    ensures OwnersAt(ws, acts, i + 1) == OwnersNext(ws[i], acts[i], i, OwnersAt(ws, acts, i))
  {
    hide Next, Enabled, OwnersNext;
    assert StepOf(ws, acts, i);
  }

  lemma {:induction false} PluginIsHeld(ws: seq<World>, acts: seq<Action>, i: nat)
    requires ProperRun(ws, acts) && i <= |acts|
    ensures ws[i].vmi.plugin.Some? ==> ws[i].vmi.plugin.value.0 in ws[i].vmi.events
  {
    hide StepOf, Proper;
    CapacityIsKept(ws, acts, i);
  }

  lemma {:induction false} TrackedStep(ws: seq<World>, acts: seq<Action>, i: nat)
    requires ProperRun(ws, acts) && i < |acts| && Tracked(ws, acts, i, OwnersAt(ws, acts, i))
    ensures Tracked(ws, acts, i + 1, OwnersAt(ws, acts, i + 1))
  {
    hide OwnersAt, Next, Enabled, Proper, Tracked, OwnersNext;
    PluginIsHeld(ws, acts, i);
    OwnersStep(ws, acts, i);
    TrackedNext(ws, acts, i, OwnersAt(ws, acts, i));
  }

  lemma {:induction false} OwnersAreTracked(ws: seq<World>, acts: seq<Action>, i: nat)
    requires ProperRun(ws, acts) && i <= |acts|
    ensures Tracked(ws, acts, i, OwnersAt(ws, acts, i))
    decreases i
  {
    hide Next, Enabled, Proper, Tracked, OwnersNext;
    if i == 0 {
      NothingTracked(ws, acts);
    } else {
      hide OwnersAt;
      OwnersAreTracked(ws, acts, i - 1);
      TrackedStep(ws, acts, i - 1);
    }
  }

  // ---------- which callback a message reaches ----------

  /** Step i takes up a message under a known id. */
  ghost predicate Handles(ws: seq<World>, acts: seq<Action>, i: nat)
    requires |ws| == |acts| + 1 && i < |acts|
  {
    acts[i].Receive? && ws[i].inbox != [] && ws[i].inbox[0].id in ws[i].eventlist
  }

  /** The callback that gets it belongs to the registration that sent it. */
  ghost predicate RightCallback(ws: seq<World>, acts: seq<Action>, i: nat)
    requires ProperRun(ws, acts) && i < |acts| && Handles(ws, acts, i)
  {
    OwnersAreTracked(ws, acts, i);
    var o := OwnersAt(ws, acts, i);
    o.callbacks[ws[i].inbox[0].id] == o.flights[0].sender
  }

  /** The id has not been given out since the message was sent. */
  ghost predicate NotReused(ws: seq<World>, acts: seq<Action>, i: nat)
    requires ProperRun(ws, acts) && i < |acts| && Handles(ws, acts, i)
  {
    OwnersAreTracked(ws, acts, i);
    forall k | OwnersAt(ws, acts, i).flights[0].at <= k < i :: !GivenAt(ws, acts, k, ws[i].inbox[0].id)
  }

  /** A message reaches the registration that sent it if and only if its id has not been given out since. */
  lemma {:induction false} RightCallbackIffNotReused(ws: seq<World>, acts: seq<Action>, i: nat)
    requires ProperRun(ws, acts) && i < |acts| && Handles(ws, acts, i)
    ensures RightCallback(ws, acts, i) <==> NotReused(ws, acts, i)
  {
    OwnersAreTracked(ws, acts, i);
    hide OwnersAt, IsRun;
    var o, m := OwnersAt(ws, acts, i), ws[i].inbox[0];
    var f := o.flights[0];
    assert FlightIsTrue(ws, acts, i, f, m);
    assert LatestBefore(ws, acts, m.id, o.callbacks[m.id], i);
  }

  /** A step gives out an id under which a message is in flight. */
  ghost predicate GivesInFlight(w: World, a: Action) {
    Given(w, a).Some? && exists m | m in w.inbox :: m.id == Given(w, a).value
  }

  lemma {:induction false} SendersGiveNothing(w: World, a: Action)
    ensures SentUnder(w, a).Some? ==> Given(w, a).None?
  {}

  lemma {:induction false} FlightIsNotReused(ws: seq<World>, acts: seq<Action>, i: nat, f: Flight, m: Msg)
    requires |ws| == |acts| + 1 && i <= |acts| && FlightIsTrue(ws, acts, i, f, m)
    requires forall k | 0 <= k < i :: !GivesInFlight(ws[k], acts[k])
    ensures forall k | f.at <= k < i :: !GivenAt(ws, acts, k, m.id)
  {
    SendersGiveNothing(ws[f.at], acts[f.at]);
    hide Given, SentUnder, LatestBefore;
    forall k | f.at <= k < i
      ensures !GivenAt(ws, acts, k, m.id)
    {
      assert !GivesInFlight(ws[k], acts[k]);
      if k > f.at { assert m in ws[k].inbox; }
    }
  }

  /** So all messages of a run reach the registrations that sent them if no id is given out with a message in flight. */
  lemma {:induction false} AllRightIfNoneGivenInFlight(ws: seq<World>, acts: seq<Action>, i: nat)
    requires ProperRun(ws, acts) && i < |acts| && Handles(ws, acts, i)
    requires forall k | 0 <= k < i :: !GivesInFlight(ws[k], acts[k])
    ensures RightCallback(ws, acts, i)
  {
    OwnersAreTracked(ws, acts, i);
    RightCallbackIffNotReused(ws, acts, i);
    hide OwnersAt, IsRun, RightCallback, FlightIsTrue, GivesInFlight, GivenAt, AllLatest;
    FlightIsNotReused(ws, acts, i, OwnersAt(ws, acts, i).flights[0], ws[i].inbox[0]);
  }

  // ---------- it does happen ----------

  function InFlight(w: World, sync: Sync): World {
    w.(vmi := w.vmi.(pauses := if sync.Sync? then 1 else 0), inbox := [Msg(0, sync.Sync?)])
  }

  lemma {:induction false} EventFires(sync: Sync)
    ensures var w := Holding(sync, true, Starting);
            && Leads(w, FireEvent(0), InFlight(w, sync))
            && Leads(InFlight(w, sync), AppCall(EventClear(0)), InFlight(Cleared(Starting), sync))
  {
    assert map[0 := Trap(sync)] - {0} == map[];
    assert [] + [Msg(0, sync.Sync?)] == [Msg(0, sync.Sync?)];
  }

  lemma {:induction false} IdReturns(sync: Sync)
    ensures Given(InFlight(Cleared(Starting), sync), AppCall(EventRegister(sync, true))) == Some(0)
    ensures Leads(InFlight(Cleared(Starting), sync), AppCall(EventRegister(sync, true)),
                  InFlight(Holding(sync, true, Starting), sync))
    ensures Leads(InFlight(Holding(sync, true, Starting), sync), Proceed, InFlight(Holding(sync, true, Polling), sync))
  {
    FreeIdIsLeast(map[]);
  }

  lemma {:induction false} MessageIsHandled(sync: Sync) returns (w: World)
    ensures Leads(InFlight(Holding(sync, true, Polling), sync), Receive, w)
  {
    w := Next(InFlight(Holding(sync, true, Polling), sync), Receive);
  }

  predicate Sends(a: Action) { a.FireEvent? || a.FireSyscallEvent? }

  /** An event fires, and is cleared before its message is taken up. */
  lemma {:induction false} EventGoesStale(sync: Sync) returns (ws: seq<World>, acts: seq<Action>)
    ensures ProperRun(ws, acts) && |ws| == 5 && |acts| == 4 && !Sends(acts[3])
    ensures ws[4] == InFlight(Cleared(Starting), sync)
  {
    AppStarts(sync);
    EventFires(sync);
    ws, acts := [INITIAL], [];
    assert ProperRun(ws, acts);
    hide Leads, ProperRun;
    ws, acts := RunExtended(ws, acts, AppCall(EventRegister(sync, true)), Holding(sync, false, Starting));
    ws, acts := RunExtended(ws, acts, AppCall(EventsStart), Holding(sync, true, Starting));
    ws, acts := RunExtended(ws, acts, FireEvent(0), InFlight(Holding(sync, true, Starting), sync));
    ws, acts := RunExtended(ws, acts, AppCall(EventClear(0)), InFlight(Cleared(Starting), sync));
  }

  /** The next registration, under the same id, gets the message. */
  lemma {:induction false} StaleMessageReachesAnother(sync: Sync) returns (ws: seq<World>, acts: seq<Action>)
    ensures ProperRun(ws, acts) && |acts| == 7 && Handles(ws, acts, 6) && !RightCallback(ws, acts, 6)
  {
    ws, acts := EventGoesStale(sync);
    IdReturns(sync);
    var last := MessageIsHandled(sync);
    hide Leads, ProperRun, Given;
    ws, acts := RunExtended(ws, acts, AppCall(EventRegister(sync, true)),
                            InFlight(Holding(sync, true, Starting), sync));
    ws, acts := RunExtended(ws, acts, Proceed, InFlight(Holding(sync, true, Polling), sync));
    ws, acts := RunExtended(ws, acts, Receive, last);
    StaleIsWrong(ws, acts);
  }

  lemma {:induction false} StaleIsWrong(ws: seq<World>, acts: seq<Action>)
    requires ProperRun(ws, acts) && |acts| == 7 && Handles(ws, acts, 6) && ws[6].inbox[0].id == 0
    requires !Sends(acts[3]) && !Sends(acts[4]) && !Sends(acts[5]) && GivenAt(ws, acts, 4, 0)
    ensures !RightCallback(ws, acts, 6)
  {
    RightCallbackIffNotReused(ws, acts, 6);
    OwnersAreTracked(ws, acts, 6);
    hide OwnersAt, IsRun, LatestBefore, Given, Trapped;
    assert FlightIsTrue(ws, acts, 6, OwnersAt(ws, acts, 6).flights[0], ws[6].inbox[0]);
  }
}

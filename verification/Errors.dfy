/** What can stop a batch, and what a stop leaves behind. */
module Errors {
  import opened Wrappers
  import opened Schema
  import opened GuestMemory
  import opened Columns
  import opened Execution
  import opened Refinement

  /** A stopped run stopped at the first call without a reply, and that call changed neither replies nor guest. */
  lemma {:induction false} StoppedAt(prog: seq<Request>, n: nat, g: Guest) returns (k: nat)
    requires WellTypedBatch(prog) && n <= |prog| && RunTo(prog, n, g).stop.Some?
    ensures var s := RunTo(prog, n, g);
            && k == |s.log| && k < n
            && var b := RunTo(prog, k, g);
               b.stop.None? && s == Step(prog, k, b) && b.log == s.log && b.guest == s.guest
  {
    hide Step;
    if RunTo(prog, n - 1, g).stop.Some? {
      k := StoppedAt(prog, n - 1, g);
    } else {
      k := n - 1;
      RunLogs(prog, k, g);
      StepStops(prog, k, RunTo(prog, k, g));
    }
  }

  lemma {:induction false} StepStops(prog: seq<Request>, k: nat, s: State)
    requires WellTypedBatch(prog) && k < |prog| && s.stop.None? && Step(prog, k, s).stop.Some?
    ensures Step(prog, k, s).log == s.log && Step(prog, k, s).guest == s.guest
  {
    hide LinkStep;
  }

  // ---------- the check against forward links ----------

  /** The type cursor stays behind the messages already answered. */
  lemma {:induction false} CursorsBehind(prog: seq<Request>, n: nat, g: Guest)
    requires WellTypedBatch(prog) && n <= |prog| && RunTo(prog, n, g).stop.None?
    ensures var s := RunTo(prog, n, g); |s.log| == n && (n > 0 ==> s.cursors.nthType < n)
  {
    RunLogs(prog, n, g);
    if n > 0 {
      CursorsBehind(prog, n - 1, g);
      var s := RunTo(prog, n - 1, g);
      StepShape(prog, n - 1, s);
      LinkCursor(s.log, s.cursors, RankOf(prog, n - 1), prog[n - 1], RequestTags(prog));
    }
  }

  lemma {:induction false} LinkCursor(log: seq<Entry>, c: Cursors, index: nat, r: Request, types: seq<nat>)
    requires WellTyped(r)
    ensures var c' := LinkStep(log, c, index, r, types).1;
            c'.nthType == c.nthType || c'.nthType < |log|
  {}

  /** Error 10 is meant to forbid links to later messages, but it compares the cursor and not the link: it stops a batch
    if and only if the very first message has a link, wherever that link points. */
  lemma {:induction false} ForwardCheckIsFirstMessageCheck(prog: seq<Request>, n: nat, g: Guest)
    requires WellTypedBatch(prog) && n <= |prog|
    ensures (RunTo(prog, n, g).stop.Some? && RunTo(prog, n, g).stop.value.fault == BatchError(10))
            <==> n > 0 && Linked(prog, 0)
  {
    if n > 0 && Linked(prog, 0) { FirstLinkStops(prog, n, g); }
    if RunTo(prog, n, g).stop.Some? {
      var k := StoppedAt(prog, n, g);
      CursorsBehind(prog, k, g);
      if k > 0 { LaterLinksPass(prog, k, RunTo(prog, k, g)); }
    }
  }

  lemma {:induction false} FirstLinkStops(prog: seq<Request>, n: nat, g: Guest)
    requires WellTypedBatch(prog) && 0 < n <= |prog| && Linked(prog, 0)
    ensures RunTo(prog, n, g).stop == Some(Stop(BatchError(10), 0))
  {
    if n > 1 { FirstLinkStops(prog, n - 1, g); } else {
      assert RunTo(prog, 1, g) == Step(prog, 0, State([], START, g, None));
    }
  }

  lemma {:induction false} LaterLinksPass(prog: seq<Request>, k: nat, s: State)
    requires WellTypedBatch(prog) && k < |prog| && s.stop.None? && s.cursors.nthType < |s.log|
    ensures var s' := Step(prog, k, s); s'.stop.Some? ==> s'.stop.value.fault != BatchError(10)
  {
    var (args, c) := LinkStep(s.log, s.cursors, RankOf(prog, k), prog[k], RequestTags(prog));
    NotTen(s.log, s.cursors, RankOf(prog, k), prog[k], RequestTags(prog));
    StopComesFrom(prog[k].call, RankOf(prog, k), args, s.(cursors := c));
  }

  lemma {:induction false} NotTen(log: seq<Entry>, c: Cursors, index: nat, r: Request, types: seq<nat>)
    requires WellTyped(r) && c.nthType < |log|
    ensures LinkStep(log, c, index, r, types).0 != Err(BatchError(10))
  {}

  lemma {:induction false} StopComesFrom(c: Call, index: nat, args: Result<seq<Option<int>>, Fault>, s: State)
    requires args.Ok? ==> |args.value| == |ArgTypes(c)|
    requires s.stop.None?
    ensures var s' := Finish(c, index, args, s);
            s'.stop.Some? ==>
              if args.Err? then s'.stop.value == Stop(args.error, index)
              else s'.stop.value == Stop(Undefined, index) && c == ReadStr(Pa)
  {}

  // ---------- which link errors are reachable ----------

  /** Links as batch_obj.add makes them: to an earlier message, one of its result fields, and one of the arguments. */
  predicate LegalLink(prog: seq<Request>, k: nat)
    requires Linked(prog, k)
  {
    && Target(prog, k) < k
    && Item(prog, k) < |ReplyTypes(prog[Target(prog, k)].call)|
    && prog[k].link.value.curItem < |ArgTypes(prog[k].call)|
  }

  predicate Legal(prog: seq<Request>) { forall k | 0 <= k < |prog| && Linked(prog, k) :: LegalLink(prog, k) }

  function LinkedField(prog: seq<Request>, k: nat): FieldType
    requires Linked(prog, k) && LegalLink(prog, k)
  {
    ReplyTypes(prog[Target(prog, k)].call)[Item(prog, k)]
  }

  function LinkedArg(prog: seq<Request>, k: nat): FieldType
    requires Linked(prog, k) && LegalLink(prog, k)
  {
    ArgTypes(prog[k].call)[prog[k].link.value.curItem]
  }

  /** What a stop at call k means. */
  predicate Explained(prog: seq<Request>, k: nat, fault: Fault)
    requires k < |prog| && Legal(prog)
  {
    match fault
    case Undefined => prog[k].call == ReadStr(Pa)
    case BatchError(num) =>
      Linked(prog, k) &&
      ((num == 20 && LinkedField(prog, k) == Text)
       || (num == 25 && LinkedArg(prog, k) == Int64)
       || (num == 26 && prog[k].link.value.op == Sub))
  }

  /** A search only ever looks at replies to the kind of call that the link names. */
  lemma {:induction false} SearchFault(log: seq<Entry>, c: Cursors, index: nat, link: Link)
    requires link.prevMsg < |log| && link.prevItem < |ReplyTypes(log[link.prevMsg].call)|
    ensures var call := log[link.prevMsg].call;
            var v := Search(log, c, index, link, ReplyTag(call)).0;
            v.Err? ==> v.error == BatchError(20) && ReplyTypes(call)[link.prevItem] == Text
  {
    var tags := ReplyTags(log);
    var tag := tags[link.prevMsg];
    var j := index - Depth(tags, tag);
    if 0 <= j < |Column(tags, log, tag)| {
      var i := ColumnMember(tags, log, tag, j);
      TagIsInjective(log[i].call, log[link.prevMsg].call);
    }
  }

  lemma {:induction false} LegalResolve(prog: seq<Request>, k: nat, log: seq<Entry>, c: Cursors)
    requires k < |prog| && Legal(prog) && Linked(prog, k)
    requires LogOf(prog, log) && |log| == k && c.nthType < k
    ensures var v := Resolve(log, c, RankOf(prog, k), prog[k].link.value, RequestTags(prog)).0;
            v.Err? ==> v.error == BatchError(20) && LinkedField(prog, k) == Text
  {
    SearchFault(log, c, RankOf(prog, k), prog[k].link.value);
  }

  lemma {:induction false} LegalCombine(prog: seq<Request>, k: nat, prior: int)
    requires WellTypedBatch(prog) && k < |prog| && Legal(prog) && Linked(prog, k)
    ensures var args := Combine(prog[k], prog[k].link.value, prior);
            args.Err? ==> args.error.BatchError? && Explained(prog, k, args.error)
  {}

  lemma {:induction false} LegalLinkStep(prog: seq<Request>, k: nat, s: State)
    requires WellTypedBatch(prog) && k < |prog| && Legal(prog)
    requires LogOf(prog, s.log) && |s.log| == k && (k > 0 ==> s.cursors.nthType < k)
    ensures var args := LinkStep(s.log, s.cursors, RankOf(prog, k), prog[k], RequestTags(prog)).0;
            args.Err? ==> args.error.BatchError? && Explained(prog, k, args.error)
  {
    if Linked(prog, k) {
      LegalResolve(prog, k, s.log, s.cursors);
      var v := Resolve(s.log, s.cursors, RankOf(prog, k), prog[k].link.value, RequestTags(prog)).0;
      if v.Ok? { LegalCombine(prog, k, v.value); }
    }
  }

  lemma {:induction false} LegalStepStop(prog: seq<Request>, k: nat, s: State)
    requires WellTypedBatch(prog) && k < |prog| && Legal(prog)
    requires LogOf(prog, s.log) && |s.log| == k && (k > 0 ==> s.cursors.nthType < k) && s.stop.None?
    ensures var s' := Step(prog, k, s);
            s'.stop.Some? ==> Explained(prog, k, s'.stop.value.fault)
  {
    hide Execute, Resolve;
    LegalLinkStep(prog, k, s);
    var (args, c) := LinkStep(s.log, s.cursors, RankOf(prog, k), prog[k], RequestTags(prog));
    StopComesFrom(prog[k].call, RankOf(prog, k), args, s.(cursors := c));
  }

  /** Of the link errors 10 to 28 a batch with legal links can only meet the two about incompatible types and the one
    about a negative difference; nothing else stops it, but a READ_STR_PA that finds no string. */
  lemma {:induction false} LegalStopsAreExplained(prog: seq<Request>, n: nat, g: Guest)
    requires WellTypedBatch(prog) && n <= |prog| && Legal(prog)
    ensures var s := RunTo(prog, n, g);
            s.stop.Some? ==> |s.log| < n && Explained(prog, |s.log|, s.stop.value.fault)
  {
    if RunTo(prog, n, g).stop.Some? {
      var k := StoppedAt(prog, n, g);
      RunLogs(prog, k, g);
      CursorsBehind(prog, k, g);
      LegalStepStop(prog, k, RunTo(prog, k, g));
    }
  }

  /** Links that carry numbers into numeric arguments and never subtract. */
  predicate Harmless(prog: seq<Request>) {
    && Legal(prog)
    && forall k | 0 <= k < |prog| ::
         && prog[k].call != ReadStr(Pa)
         && (Linked(prog, k) ==>
               LinkedField(prog, k) != Text && LinkedArg(prog, k) != Int64 && prog[k].link.value.op != Sub)
  }

  /** Such a batch runs to its end on every guest. */
  lemma {:induction false} HarmlessRunsToTheEnd(prog: seq<Request>, n: nat, g: Guest)
    requires WellTypedBatch(prog) && n <= |prog| && Harmless(prog)
    ensures RunTo(prog, n, g).stop.None?
  {
    LegalStopsAreExplained(prog, n, g);
  }

  // ---------- what a stop leaves behind ----------

  /** No link of the first m messages points past them. */
  predicate LinksStayWithin(prog: seq<Request>, m: nat) {
    forall j | 0 <= j < m && Linked(prog, j) :: Target(prog, j) < m
  }

  lemma {:induction false} PrefixTags(prog: seq<Request>, m: nat)
    requires m <= |prog|
    ensures RequestTags(prog[..m]) == RequestTags(prog)[..m]
    ensures forall k | 0 <= k < m :: RankOf(prog[..m], k) == RankOf(prog, k)
  {
    assert RequestTags(prog[..m]) == RequestTags(prog)[..m];
    forall k | 0 <= k < m
      ensures RankOf(prog[..m], k) == RankOf(prog, k)
    {
      assert RequestTags(prog)[..m][..k] == RequestTags(prog)[..k];
    }
  }

  lemma {:induction false} SameLinkStep(log: seq<Entry>, c: Cursors, index: nat, r: Request, a: seq<nat>, b: seq<nat>)
    requires WellTyped(r)
    requires r.link.Some? ==> r.link.value.prevMsg < |a| <= |b| && a[r.link.value.prevMsg] == b[r.link.value.prevMsg]
    ensures LinkStep(log, c, index, r, a) == LinkStep(log, c, index, r, b)
  {
    hide Search, Combine;
  }

  lemma {:induction false} PrefixStep(prog: seq<Request>, m: nat, k: nat, s: State)
    requires WellTypedBatch(prog) && k < m <= |prog| && (Linked(prog, k) ==> Target(prog, k) < m)
    ensures Step(prog[..m], k, s) == Step(prog, k, s)
  {
    hide LinkStep, Finish;
    PrefixTags(prog, m);
    SameLinkStep(s.log, s.cursors, RankOf(prog, k), prog[k], RequestTags(prog[..m]), RequestTags(prog));
  }

  /** While no link points past the first m messages, they run as they would alone. */
  lemma {:induction false} PrefixRunsAlone(prog: seq<Request>, m: nat, i: nat, g: Guest)
    requires WellTypedBatch(prog) && i <= m <= |prog|
    requires forall j | 0 <= j < i && Linked(prog, j) :: Target(prog, j) < m
    ensures RunTo(prog[..m], i, g) == RunTo(prog, i, g)
  {
    hide Step;
    if i > 0 {
      PrefixRunsAlone(prog, m, i - 1, g);
      PrefixStep(prog, m, i - 1, RunTo(prog, i - 1, g));
    }
  }

  /** A link past the end of its batch stops it. */
  lemma {:induction false} LinkPastEndStops(prog: seq<Request>, j: nat, s: State)
    requires WellTypedBatch(prog) && Linked(prog, j) && Target(prog, j) >= |prog| && s.stop.None?
    ensures Step(prog, j, s).stop.Some?
  {
    hide Search, Combine, Execute;
  }

  lemma {:induction false} CutLinkStops(prog: seq<Request>, m: nat, j: nat, g: Guest)
    requires WellTypedBatch(prog) && j < m <= |prog| && Linked(prog, j) && Target(prog, j) >= m
    ensures RunTo(prog[..m], m, g).stop.Some?
  {
    hide Step;
    var cut := prog[..m];
    assert cut[j] == prog[j];
    var s := RunTo(cut, j, g);
    if s.stop.None? { LinkPastEndStops(cut, j, s); }
    if RunTo(cut, m, g).stop.None? { NoStopBefore(cut, j + 1, m, g); }
  }

  lemma {:induction false} NoStopBefore(prog: seq<Request>, i: nat, n: nat, g: Guest)
    requires WellTypedBatch(prog) && i <= n <= |prog| && RunTo(prog, n, g).stop.None?
    ensures RunTo(prog, i, g).stop.None?
  {
    hide Step;
    if i < n { NoStopBefore(prog, i, n - 1, g); }
  }

  /** Messages that ran within a batch run alike on their own if and only if none of their links points past them.  (A
    link to a later message is not refused, but one past the end of its batch is.) */
  lemma {:induction false} PrefixRunsAloneIff(prog: seq<Request>, m: nat, g: Guest)
    requires WellTypedBatch(prog) && m <= |prog| && RunTo(prog, m, g).stop.None?
    ensures LinksStayWithin(prog, m) ==> RunTo(prog[..m], m, g) == RunTo(prog, m, g)
    ensures !LinksStayWithin(prog, m) ==> RunTo(prog[..m], m, g).stop.Some?
  {
    hide RunTo;
    if LinksStayWithin(prog, m) {
      PrefixRunsAlone(prog, m, m, g);
    } else {
      var j :| 0 <= j < m && Linked(prog, j) && Target(prog, j) >= m;
      CutLinkStops(prog, m, j, g);
    }
  }

  /** The calls that ran are a prefix of the batch.  What they replied and wrote is what that prefix does alone if and
    only if none of their links points past it. */
  lemma {:induction false} ExecutedCallsArePrefix(prog: seq<Request>, n: nat, g: Guest)
    requires WellTypedBatch(prog) && n <= |prog|
    ensures var s := RunTo(prog, n, g);
            var k := |s.log|;
            && k <= n && (s.stop.None? <==> k == n)
            && var alone := RunTo(prog[..k], k, g);
               (alone.stop.None? && alone.log == s.log && alone.guest == s.guest) <==> LinksStayWithin(prog, k)
  {
    RunLogs(prog, n, g);
    var s := RunTo(prog, n, g);
    if s.stop.Some? { var _ := StoppedAt(prog, n, g); }
    hide RunTo;
    PrefixRunsAloneIff(prog, |s.log|, g);
  }

  /** Every prefix of the calls that ran runs as it would alone if and only if none of them links to a later message. */
  lemma {:induction false} EveryPrefixRunsAloneIff(prog: seq<Request>, n: nat, g: Guest)
    requires WellTypedBatch(prog) && n <= |prog|
    ensures var k := |RunTo(prog, n, g).log|;
            k <= n && ((forall m | 0 <= m <= k :: RunTo(prog[..m], m, g) == RunTo(prog, m, g))
                       <==> forall j | 0 <= j < k && Linked(prog, j) :: Target(prog, j) <= j)
  {
    RunLogs(prog, n, g);
    var s := RunTo(prog, n, g);
    var k := |s.log|;
    if s.stop.Some? { var _ := StoppedAt(prog, n, g); }
    forall m | 0 <= m <= k
      ensures RunTo(prog, m, g).stop.None?
      ensures RunTo(prog[..m], m, g) == RunTo(prog, m, g) <==> LinksStayWithin(prog, m)
    {
      NoStopBefore(prog, m, k, g);
      PrefixRunsAloneIff(prog, m, g);
    }
    if forall m | 0 <= m <= k :: RunTo(prog[..m], m, g) == RunTo(prog, m, g) {
      forall j | 0 <= j < k && Linked(prog, j)
        ensures Target(prog, j) <= j
      {
        assert LinksStayWithin(prog, j + 1);
      }
    }
  }

  // ---------- links to messages that are not yet answered ----------

  /** A link never changes what is cached; what it adds for an unanswered message is 0. */
  lemma {:induction false} LinkGrowsCache(log: seq<Entry>, c: Cursors, index: nat, r: Request, types: seq<nat>)
    requires WellTyped(r)
    ensures var c' := LinkStep(log, c, index, r, types).1;
            && (forall p | p in c.cache :: p in c'.cache && c'.cache[p] == c.cache[p])
            && (forall p | p in c'.cache && p !in c.cache && p >= |log| :: c'.cache[p] == 0)
  {
    hide Combine;
  }

  lemma {:induction false} StepGrowsCache(prog: seq<Request>, k: nat, s: State)
    requires WellTypedBatch(prog) && k < |prog| && s.stop.None? && Step(prog, k, s).stop.None?
    ensures var c, c' := s.cursors.cache, Step(prog, k, s).cursors.cache;
            && (forall p | p in c :: p in c' && c'[p] == c[p])
            && (forall p | p in c' && p !in c && p >= |s.log| :: c'[p] == 0)
            && (Linked(prog, k) ==> Target(prog, k) in c')
  {
    StepShape(prog, k, s);
    LinkGrowsCache(s.log, s.cursors, RankOf(prog, k), prog[k], RequestTags(prog));
    hide Step, Combine;
  }

  /** What is cached for a message that was not answered before the latest call is 0. */
  lemma {:induction false} UnansweredIsZero(prog: seq<Request>, n: nat, g: Guest)
    requires WellTypedBatch(prog) && n <= |prog| && RunTo(prog, n, g).stop.None?
    ensures forall p | p in RunTo(prog, n, g).cursors.cache && p + 1 >= n :: RunTo(prog, n, g).cursors.cache[p] == 0
  {
    hide Step;
    if n > 0 {
      UnansweredIsZero(prog, n - 1, g);
      RunLogs(prog, n - 1, g);
      StepGrowsCache(prog, n - 1, RunTo(prog, n - 1, g));
    }
  }

  lemma {:induction false} CachedStays(prog: seq<Request>, i: nat, n: nat, g: Guest, p: nat)
    requires WellTypedBatch(prog) && i <= n <= |prog| && RunTo(prog, n, g).stop.None?
    requires p in RunTo(prog, i, g).cursors.cache
    ensures var cache := RunTo(prog, n, g).cursors.cache;
            p in cache && cache[p] == RunTo(prog, i, g).cursors.cache[p]
    decreases n
  {
    hide Step;
    if i < n {
      CachedStays(prog, i, n - 1, g, p);
      StepGrowsCache(prog, n - 1, RunTo(prog, n - 1, g));
    }
  }

  /** A link to a message that has not been answered when it is reached carries 0, and so does every later link to that
    message, answered by then or not. */
  lemma {:induction false} UnansweredLinksCarryZero(prog: seq<Request>, k: nat, j: nat, g: Guest)
    requires WellTypedBatch(prog) && 0 < j < |prog| && k <= j && RunTo(prog, j, g).stop.None?
    requires Linked(prog, k) && Linked(prog, j) && k <= Target(prog, k) < |prog| && Target(prog, j) == Target(prog, k)
    ensures LinkValue(prog, j, RunTo(prog, j, g)) == Ok(0)
  {
    CursorsBehind(prog, j, g);
    UnansweredIsZero(prog, j, g);
    if k < j {
      hide Step, Resolve;
      NoStopBefore(prog, k + 1, j, g);
      StepGrowsCache(prog, k, RunTo(prog, k, g));
      UnansweredIsZero(prog, k + 1, g);
      CachedStays(prog, k + 1, j, g, Target(prog, k));
      HitCarries(prog, j, RunTo(prog, j, g));
    }
  }

  lemma {:induction false} HitCarries(prog: seq<Request>, j: nat, s: State)
    requires Linked(prog, j) && s.cursors.nthType < |s.log| && Target(prog, j) < |prog|
    requires Target(prog, j) in s.cursors.cache
    ensures LinkValue(prog, j, s) == Ok(s.cursors.cache[Target(prog, j)])
  {}
}

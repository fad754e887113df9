/** Where links lead, before a batch runs.  Types and indices alone decide which reply each search ends on, so what
  the cache and the cursors do is a static plan, and every batch, aligned or not, is direct execution by its plan. */
module LinkPlan {
  import opened Wrappers
  import opened Schema
  import opened GuestMemory
  import opened Columns
  import opened Execution
  import opened Refinement

  /** Where a link's value comes from: a search that finds nothing gives 0, others a field of some reply. */
  datatype Source = Zero | Answer(msg: nat, item: nat)

  /** What is cached for which message, and the cursors. */
  datatype Plan = Plan(sources: map<nat, Source>, nthType: nat, nthField: nat)

  const NO_PLAN := Plan(map[], 0, 0)

  function PlanSearch(prog: seq<Request>, k: nat, plan: Plan): (Source, Plan)
    requires Linked(prog, k)
  {
    var p := Target(prog, k);
    if !(plan.nthType <= p < k) then (Zero, plan.(sources := plan.sources[p := Zero]))
    else
      var tags := Answered(prog, k);
      var j := RankOf(prog, k) - Depth(tags, tags[p]);
      if !(plan.nthField <= j < Count(tags, tags[p])) then
        (Zero, Plan(plan.sources[p := Zero], p, plan.nthField))
      else
        var source := Answer(Occurrence(tags, tags[p], j), Item(prog, k));
        (source, Plan(plan.sources[p := source], p, j))
  }

  function PlanLink(prog: seq<Request>, k: nat, plan: Plan): (Source, Plan)
    requires Linked(prog, k)
  {
    if Target(prog, k) in plan.sources then (plan.sources[Target(prog, k)], plan) else PlanSearch(prog, k, plan)
  }

  /** The plan when the first n messages have been taken up. */
  function PlanTo(prog: seq<Request>, n: nat): Plan
    requires n <= |prog|
  {
    if n == 0 then NO_PLAN
    else if Linked(prog, n - 1) then PlanLink(prog, n - 1, PlanTo(prog, n - 1)).1
    else PlanTo(prog, n - 1)
  }

  /** Where message k's link takes its value from. */
  function SourceOf(prog: seq<Request>, k: nat): (source: Source)
    requires Linked(prog, k)
    ensures IsBehind(source, k)
  {
    PlansBehind(prog, k);
    PlanLink(prog, k, PlanTo(prog, k)).0
  }

  predicate IsBehind(source: Source, n: nat) { source.Answer? ==> source.msg < n }

  lemma {:induction false} PlansBehind(prog: seq<Request>, n: nat)
    requires n <= |prog|
    ensures forall p | p in PlanTo(prog, n).sources :: IsBehind(PlanTo(prog, n).sources[p], n)
    decreases n
  {
    hide Depth, RankOf, Count, Rank;
    if n > 0 { PlansBehind(prog, n - 1); }
  }

  function SourceValue(log: seq<Entry>, source: Source): Result<int, Fault> {
    match source
    case Zero => Ok(0)
    case Answer(i, item) => if i < |log| then ReplyField(log[i], item) else Err(Undefined)
  }

  /** The arguments that message k gets by plan.  The first message cannot have a link. */
  function PlannedArgs(prog: seq<Request>, k: nat, log: seq<Entry>): (args: Result<seq<Option<int>>, Fault>)
    requires WellTypedBatch(prog) && k < |prog|
    ensures args.Ok? ==> |args.value| == |ArgTypes(prog[k].call)|
  {
    if !Linked(prog, k) then Ok(prog[k].args)
    else if k == 0 then Err(BatchError(10))
    else if |prog| < Target(prog, k) then Err(BatchError(11))
    else if |prog| == Target(prog, k) then Err(Undefined)
    else
      match SourceValue(log, SourceOf(prog, k))
      case Err(f) => Err(f)
      case Ok(v) => Combine(prog[k], prog[k].link.value, v)
  }

  /** Execution by plan: no cache, no cursors, no search. */
  function PlannedTo(prog: seq<Request>, n: nat, g: Guest): State
    requires WellTypedBatch(prog) && n <= |prog|
  {
    if n == 0 then State([], START, g, None)
    else
      var s := PlannedTo(prog, n - 1, g);
      if s.stop.Some? then s
      else Finish(prog[n - 1].call, RankOf(prog, n - 1), PlannedArgs(prog, n - 1, s.log), s)
  }

  // ---------- the executor follows the plan ----------

  /** Cursors and cache are where the plan has them. */
  ghost predicate Matches(plan: Plan, log: seq<Entry>, c: Cursors) {
    && c.nthType == plan.nthType && c.nthField == plan.nthField
    && c.cache.Keys == plan.sources.Keys
    && forall p | p in c.cache :: SourceValue(log, plan.sources[p]) == Ok(c.cache[p])
  }

  lemma {:induction false} SourcesStay(plan: Plan, log: seq<Entry>, e: Entry, c: Cursors)
    requires Matches(plan, log, c)
    ensures Matches(plan, log + [e], c)
  {
    hide ReplyField;
    forall p | p in c.cache
      ensures SourceValue(log + [e], plan.sources[p]) == Ok(c.cache[p])
    {
      assert SourceValue(log, plan.sources[p]) == Ok(c.cache[p]);
    }
  }

  /** A search ends where the plan says, on any log of the batch's calls. */
  lemma {:induction false} SearchFollowsPlan(prog: seq<Request>, k: nat, log: seq<Entry>, plan: Plan, c: Cursors)
    requires Linked(prog, k) && LogOf(prog, log) && |log| == k && Target(prog, k) < |prog|
    requires c.nthType == plan.nthType && c.nthField == plan.nthField
    ensures var p, (source, plan') := Target(prog, k), PlanSearch(prog, k, plan);
            var (v, c') := Search(log, c, RankOf(prog, k), prog[k].link.value, ReplyTag(prog[p].call));
            && v == SourceValue(log, source)
            && (v.Ok? ==> c' == Cursors(c.cache[p := v.value], plan'.nthType, plan'.nthField))
  {
    var p := Target(prog, k);
    if plan.nthType <= p < k {
      var tags := Answered(prog, k);
      assert ReplyTags(log) == tags;
      var j := RankOf(prog, k) - Depth(tags, tags[p]);
      ColumnLength(tags, log, tags[p]);
      if plan.nthField <= j < Count(tags, tags[p]) { ColumnAt(tags, log, Occurrence(tags, tags[p], j)); }
    }
  }

  lemma {:induction false} PlanGrows(prog: seq<Request>, k: nat, plan: Plan)
    requires Linked(prog, k)
    ensures var (source, plan') := PlanLink(prog, k, plan);
            && plan'.sources == plan.sources[Target(prog, k) := source]
            && (plan'.nthType == plan.nthType || plan'.nthType == Target(prog, k) < k)
            && (Target(prog, k) in plan.sources ==> source == plan.sources[Target(prog, k)] && plan' == plan)
  {
    hide Answered, Depth, RankOf, Count, Occurrence;
    if Target(prog, k) in plan.sources {
      assert plan.sources == plan.sources[Target(prog, k) := plan.sources[Target(prog, k)]];
    }
  }

  /** From message 1 on the type cursor stays behind. */
  lemma {:induction false} PlanStaysBehind(prog: seq<Request>, n: nat)
    requires n <= |prog|
    ensures PlanTo(prog, n).nthType == 0 || PlanTo(prog, n).nthType < n
    decreases n
  {
    hide PlanLink, Linked;
    if n > 0 {
      PlanStaysBehind(prog, n - 1);
      if Linked(prog, n - 1) { PlanGrows(prog, n - 1, PlanTo(prog, n - 1)); }
    }
  }

  ghost predicate Follows(prog: seq<Request>, n: nat, s: State)
    requires n <= |prog|
  {
    LogOf(prog, s.log) && |s.log| == n && Matches(PlanTo(prog, n), s.log, s.cursors)
  }

  lemma {:induction false} MatchesNext(plan: Plan, plan': Plan, log: seq<Entry>, c: Cursors, c': Cursors, p: nat,
                                       source: Source, v: int)
    requires Matches(plan, log, c) && SourceValue(log, source) == Ok(v)
    requires plan'.sources == plan.sources[p := source] && c' == Cursors(c.cache[p := v], plan'.nthType, plan'.nthField)
    ensures Matches(plan', log, c')
  {
    hide SourceValue;
  }

  /** A link gets the value that the plan has for it, and moves cache and cursors as planned. */
  lemma {:induction false} LinkFollowsPlan(prog: seq<Request>, k: nat, s: State)
    requires WellTypedBatch(prog) && Linked(prog, k) && Follows(prog, k, s) && 0 < k && Target(prog, k) < |prog|
    ensures var (v, c) := Resolve(s.log, s.cursors, RankOf(prog, k), prog[k].link.value, RequestTags(prog));
            && v == SourceValue(s.log, SourceOf(prog, k))
            && (v.Ok? ==> Matches(PlanTo(prog, k + 1), s.log, c))
  {
    hide Search, PlanSearch, SourceValue;
    var plan, p := PlanTo(prog, k), Target(prog, k);
    PlanStaysBehind(prog, k);
    PlanGrows(prog, k, plan);
    if p !in plan.sources {
      SearchFollowsPlan(prog, k, s.log, plan, s.cursors);
      var (v, c) := Search(s.log, s.cursors, RankOf(prog, k), prog[k].link.value, ReplyTag(prog[p].call));
      if v.Ok? { MatchesNext(plan, PlanTo(prog, k + 1), s.log, s.cursors, c, p, SourceOf(prog, k), v.value); }
    }
  }

  lemma {:induction false} ArgsFollowPlan(prog: seq<Request>, k: nat, s: State)
    requires WellTypedBatch(prog) && k < |prog| && Follows(prog, k, s)
    ensures var (args, c) := LinkStep(s.log, s.cursors, RankOf(prog, k), prog[k], RequestTags(prog));
            && args == PlannedArgs(prog, k, s.log)
            && (args.Ok? ==> Matches(PlanTo(prog, k + 1), s.log, c))
  {
    hide Search, Combine, SourceValue, SourceOf, PlanLink, Matches;
    if Linked(prog, k) && 0 < k && Target(prog, k) < |prog| {
      LinkFollowsPlan(prog, k, s);
    } else if Linked(prog, k) {
      PlanStaysBehind(prog, k);
      MatchesCursors(PlanTo(prog, k), s.log, s.cursors);
    }
  }

  lemma {:induction false} MatchesCursors(plan: Plan, log: seq<Entry>, c: Cursors)
    requires Matches(plan, log, c)
    ensures c.nthType == plan.nthType
  {}

  /** The two runs so far: same replies, same guest, same stop. */
  ghost predicate SameRun(s: State, t: State) { s.log == t.log && s.guest == t.guest && s.stop == t.stop }

  lemma {:induction false} StepFollowsPlan(prog: seq<Request>, k: nat, s: State, t: State)
    requires WellTypedBatch(prog) && k < |prog| && Follows(prog, k, s) && SameRun(s, t) && s.stop.None?
    ensures var s', t' := Step(prog, k, s), Finish(prog[k].call, RankOf(prog, k), PlannedArgs(prog, k, t.log), t);
            SameRun(s', t') && (s'.stop.None? ==> Follows(prog, k + 1, s'))
  {
    hide LinkStep, PlannedArgs, PlanTo, Matches, Execute, ReplyField;
    var (args, c) := LinkStep(s.log, s.cursors, RankOf(prog, k), prog[k], RequestTags(prog));
    ArgsFollowPlan(prog, k, s);
    FinishIgnoresCursors(prog[k].call, RankOf(prog, k), args, s.(cursors := c), t);
    var s' := Step(prog, k, s);
    if s'.stop.None? {
      StepShape(prog, k, s);
      FinishShape(prog[k].call, RankOf(prog, k), args, s.(cursors := c));
      SourcesStay(PlanTo(prog, k + 1), s.log, s'.log[k], c);
      assert s'.log == s.log + [s'.log[k]];
    }
  }

  ghost predicate RunFollows(prog: seq<Request>, n: nat, s: State, t: State)
    requires n <= |prog|
  {
    SameRun(s, t) && (s.stop.None? ==> Follows(prog, n, s))
  }

  lemma {:induction false} FollowsAtStart(prog: seq<Request>, g: Guest)
    ensures RunFollows(prog, 0, State([], START, g, None), State([], START, g, None))
  {}

  /** Every batch, on every guest, is direct execution by its plan. */
  lemma {:induction false} RunFollowsPlan(prog: seq<Request>, n: nat, g: Guest)
    requires WellTypedBatch(prog) && n <= |prog|
    ensures RunFollows(prog, n, RunTo(prog, n, g), PlannedTo(prog, n, g))
    decreases n
  {
    hide Step, PlannedArgs, Finish, Follows, WellTyped;
    if n == 0 {
      FollowsAtStart(prog, g);
    } else {
      RunFollowsPlan(prog, n - 1, g);
      var s, t := RunTo(prog, n - 1, g), PlannedTo(prog, n - 1, g);
      if s.stop.None? { StepFollowsPlan(prog, n - 1, s, t); }
    }
  }

  // ---------- where links lead, told from the batch ----------

  /** Message h is the first to link to its message, which is an earlier one. */
  predicate LinksBackFirst(prog: seq<Request>, h: nat) { IsMiss(prog, h) && Target(prog, h) < h }

  /** Of the first n messages, one that searched and found the reply `source.msg`. */
  predicate Found(prog: seq<Request>, h: nat) { IsMiss(prog, h) && SourceOf(prog, h).Answer? }

  /** The type cursor stands at the furthest message that has been searched for, and the field cursor at the furthest
    position that a reply has been found at. */
  ghost predicate CursorsAreFurthest(prog: seq<Request>, n: nat, plan: Plan)
    requires n <= |prog|
  {
    && (forall h | 0 <= h < n && LinksBackFirst(prog, h) :: Target(prog, h) <= plan.nthType)
    && (plan.nthType == 0 || exists h | 0 <= h < n :: LinksBackFirst(prog, h) && Target(prog, h) == plan.nthType)
    && (forall h | 0 <= h < n && Found(prog, h) :: RankOf(prog, SourceOf(prog, h).msg) <= plan.nthField)
    && (plan.nthField == 0
        || exists h | 0 <= h < n :: Found(prog, h) && RankOf(prog, SourceOf(prog, h).msg) == plan.nthField)
  }

  /** What is planned for a message is where the links to it lead. */
  ghost predicate SourcesAreLinks(prog: seq<Request>, n: nat, plan: Plan)
    requires n <= |prog|
  {
    && plan.sources.Keys == Targets(prog, n)
    && forall h | 0 <= h < n && Linked(prog, h) ::
         Target(prog, h) in plan.sources && plan.sources[Target(prog, h)] == SourceOf(prog, h)
  }

  /** The positions that a search may end on: not before one that a reply has been found at. */
  predicate FieldNotPassed(prog: seq<Request>, k: nat, j: int)
    requires k <= |prog|
  {
    forall h | 0 <= h < k && Found(prog, h) :: RankOf(prog, SourceOf(prog, h).msg) <= j
  }

  predicate TypeNotPassed(prog: seq<Request>, k: nat)
    requires Linked(prog, k)
  {
    Target(prog, k) < k && forall h | 0 <= h < k && LinksBackFirst(prog, h) :: Target(prog, h) <= Target(prog, k)
  }

  /** A search reads the reply, of the named message's kind, at its own index less the depth, if it is there and no
    search before it has gone further; and 0 otherwise. */
  ghost predicate ReadsAtIndex(prog: seq<Request>, k: nat, source: Source)
    requires Linked(prog, k)
  {
    if !TypeNotPassed(prog, k) then source == Zero
    else
      var p := Target(prog, k);
      var j := RankOf(prog, k) - Depth(Answered(prog, k), ReplyTag(prog[p].call));
      if !FieldNotPassed(prog, k, j) || !(0 <= j < Count(Answered(prog, k), ReplyTag(prog[p].call))) then source == Zero
      else
        && source.Answer? && source.item == Item(prog, k) && source.msg < k
        && prog[source.msg].call == prog[p].call && RankOf(prog, source.msg) == j
  }

  lemma {:induction false} SearchReadsAtIndex(prog: seq<Request>, k: nat, plan: Plan)
    requires Linked(prog, k) && CursorsAreFurthest(prog, k, plan)
    ensures var (source, plan') := PlanSearch(prog, k, plan);
            && ReadsAtIndex(prog, k, source)
            && plan'.nthType == (if TypeNotPassed(prog, k) then Target(prog, k) else plan.nthType)
            && plan'.nthField == if source.Answer? then RankOf(prog, source.msg) else plan.nthField
  {
    hide Depth, RankOf, Count, Rank, SourceOf;
    if TypeNotPassed(prog, k) {
      var p, tags := Target(prog, k), Answered(prog, k);
      var j := RankOf(prog, k) - Depth(tags, tags[p]);
      assert plan.nthType <= p;
      assert plan.nthField <= j < Count(tags, tags[p]) <==> FieldNotPassed(prog, k, j) && 0 <= j < Count(tags, tags[p]);
      if plan.nthField <= j < Count(tags, tags[p]) { OccurrenceRank(prog, k, p, j); }
    }
  }

  lemma {:induction false} OccurrenceRank(prog: seq<Request>, k: nat, p: nat, j: nat)
    requires p < k <= |prog| && j < Count(Answered(prog, k), Answered(prog, k)[p])
    ensures var i := Occurrence(Answered(prog, k), Answered(prog, k)[p], j);
            i < k && prog[i].call == prog[p].call && RankOf(prog, i) == j
  {
    var i := Occurrence(Answered(prog, k), Answered(prog, k)[p], j);
    RankShift(prog, k, i, prog[i].call);
    TagIsInjective(prog[i].call, prog[p].call);
  }

  lemma {:induction false} PlanIsHistory(prog: seq<Request>, n: nat)
    requires n <= |prog|
    ensures CursorsAreFurthest(prog, n, PlanTo(prog, n)) && SourcesAreLinks(prog, n, PlanTo(prog, n))
    decreases n
  {
    hide PlanLink, CursorsAreFurthest, SourcesAreLinks;
    if n == 0 {
      NothingPlanned(prog);
    } else {
      PlanIsHistory(prog, n - 1);
      CursorsGoOn(prog, n - 1);
      SourcesGoOn(prog, n - 1);
    }
  }

  lemma {:induction false} NothingPlanned(prog: seq<Request>)
    ensures CursorsAreFurthest(prog, 0, NO_PLAN) && SourcesAreLinks(prog, 0, NO_PLAN)
  {}

  lemma {:induction false} SourcesGoOn(prog: seq<Request>, k: nat)
    requires k < |prog| && SourcesAreLinks(prog, k, PlanTo(prog, k))
    ensures SourcesAreLinks(prog, k + 1, PlanTo(prog, k + 1))
  {
    hide PlanLink;
    if Linked(prog, k) { PlanGrows(prog, k, PlanTo(prog, k)); }
  }

  lemma {:induction false} CursorsGoOn(prog: seq<Request>, k: nat)
    requires k < |prog| && CursorsAreFurthest(prog, k, PlanTo(prog, k)) && SourcesAreLinks(prog, k, PlanTo(prog, k))
    ensures CursorsAreFurthest(prog, k + 1, PlanTo(prog, k + 1))
  {
    hide PlanSearch, RankOf, CursorsAreFurthest;
    var plan, plan' := PlanTo(prog, k), PlanTo(prog, k + 1);
    if IsMiss(prog, k) {
      SearchReadsAtIndex(prog, k, plan);
      FoundGoesOn(prog, k, plan, plan');
    } else {
      NotFoundGoesOn(prog, k, plan, plan');
    }
  }

  lemma {:induction false} FoundGoesOn(prog: seq<Request>, k: nat, plan: Plan, plan': Plan)
    requires IsMiss(prog, k) && CursorsAreFurthest(prog, k, plan) && ReadsAtIndex(prog, k, SourceOf(prog, k))
    requires plan'.nthType == if TypeNotPassed(prog, k) then Target(prog, k) else plan.nthType
    requires var source := SourceOf(prog, k);
             plan'.nthField == if source.Answer? then RankOf(prog, source.msg) else plan.nthField
    ensures CursorsAreFurthest(prog, k + 1, plan')
  {
    hide RankOf, SourceOf, Depth, Count;
    if TypeNotPassed(prog, k) { assert LinksBackFirst(prog, k); }
    if SourceOf(prog, k).Answer? { assert Found(prog, k); }
  }

  lemma {:induction false} NotFoundGoesOn(prog: seq<Request>, k: nat, plan: Plan, plan': Plan)
    requires k < |prog| && !IsMiss(prog, k) && CursorsAreFurthest(prog, k, plan)
    requires plan'.nthType == plan.nthType && plan'.nthField == plan.nthField
    ensures CursorsAreFurthest(prog, k + 1, plan')
  {
    hide RankOf, SourceOf;
  }

  /** Where every link of every batch leads, told from the batch: the first link to a message searches by its own
    index, past no search before it; a later one leads where the first did. */
  lemma {:induction false} LinkReadsAtIndex(prog: seq<Request>, k: nat)
    requires Linked(prog, k)
    ensures IsMiss(prog, k) ==> ReadsAtIndex(prog, k, SourceOf(prog, k))
    ensures forall h | 0 <= h < k && Linked(prog, h) && Target(prog, h) == Target(prog, k) ::
              SourceOf(prog, k) == SourceOf(prog, h)
  {
    hide PlanSearch, RankOf, CursorsAreFurthest, ReadsAtIndex;
    PlanIsHistory(prog, k);
    if IsMiss(prog, k) {
      SearchReadsAtIndex(prog, k, PlanTo(prog, k));
      forall h | 0 <= h < k && Linked(prog, h)
        ensures Target(prog, h) != Target(prog, k)
      {
        LinkHasTarget(prog, k, h);
      }
    }
  }

  // ---------- aligned batches ----------

  /** The plan of a batch that is aligned so far: each link takes the field that it names. */
  ghost predicate PlansNamed(prog: seq<Request>, n: nat, plan: Plan)
    requires n <= |prog|
  {
    && plan.sources.Keys == Targets(prog, n)
    && (forall h | 0 <= h < n && Linked(prog, h) :: SourceIs(plan, Target(prog, h), Item(prog, h)))
    && CursorsAtLastMiss(prog, n, Cursors(map[], plan.nthType, plan.nthField))
  }

  predicate SourceIs(plan: Plan, p: nat, item: nat) { p in plan.sources && plan.sources[p] == Answer(p, item) }

  lemma {:induction false} RankRises(tags: seq<nat>, i: nat, j: nat)
    requires i < j < |tags| && tags[i] == tags[j]
    ensures Rank(tags, i) < Rank(tags, j)
  {
    CountPrefix(tags[..j], i, tags[i]);
    assert tags[..j][..i] == tags[..i];
  }

  lemma {:induction false} SameRankSamePlace(tags: seq<nat>, i: nat, j: nat)
    requires i < |tags| && j < |tags| && tags[i] == tags[j] && Rank(tags, i) == Rank(tags, j)
    ensures i == j
  {
    if i < j {
      RankRises(tags, i, j);
    } else if j < i {
      RankRises(tags, j, i);
    }
  }

  lemma {:induction false} SearchPlansNamedIff(prog: seq<Request>, k: nat, plan: Plan)
    requires k < |prog| && PlansNamed(prog, k, plan) && IsMiss(prog, k) && Target(prog, k) < k
    ensures var (source, plan') := PlanSearch(prog, k, plan);
            && (source == Answer(Target(prog, k), Item(prog, k)) <==> AlignedAt(prog, k))
            && (AlignedAt(prog, k) ==>
                  plan'.nthType == Target(prog, k) && plan'.nthField == RankOf(prog, Target(prog, k)))
  {
    var p, tags := Target(prog, k), Answered(prog, k);
    RankShift(prog, k, p, prog[p].call);
    CountPrefix(tags, p, tags[p]);
    var j := RankOf(prog, k) - Depth(tags, tags[p]);
    if 0 <= j < Count(tags, tags[p]) && j == Rank(tags, p) { SameRankSamePlace(tags, p, Occurrence(tags, tags[p], j)); }
    assert SameItem(prog, k) by {
      forall h | 0 <= h < k && Linked(prog, h)
        ensures Target(prog, h) != p
      {
        LinkHasTarget(prog, k, h);
      }
    }
  }

  lemma {:induction false} HitPlansNamedIff(prog: seq<Request>, k: nat, plan: Plan)
    requires k < |prog| && PlansNamed(prog, k, plan) && Linked(prog, k) && !IsMiss(prog, k) && Target(prog, k) < k
    ensures Target(prog, k) in plan.sources
    ensures plan.sources[Target(prog, k)] == Answer(Target(prog, k), Item(prog, k)) <==> AlignedAt(prog, k)
  {
    hide SearchesRightPlace, NotPassed, CursorsAtLastMiss;
    var h := TargetHasLink(prog, k, Target(prog, k));
    assert SourceIs(plan, Target(prog, h), Item(prog, h));
    if AlignedAt(prog, k) { assert Item(prog, h) == Item(prog, k); }
    forall h | 0 <= h < k && Linked(prog, h) && Target(prog, h) == Target(prog, k)
      ensures plan.sources[Target(prog, k)] == Answer(Target(prog, k), Item(prog, h))
    {
      assert SourceIs(plan, Target(prog, h), Item(prog, h));
    }
  }

  lemma {:induction false} AlignedPlansNamed(prog: seq<Request>, k: nat)
    requires k < |prog| && PlansNamed(prog, k, PlanTo(prog, k)) && AlignedAt(prog, k)
    ensures PlansNamed(prog, k + 1, PlanTo(prog, k + 1))
  {
    hide PlanSearch, SearchesRightPlace, NotPassed;
    var plan, plan' := PlanTo(prog, k), PlanTo(prog, k + 1);
    if Linked(prog, k) {
      if IsMiss(prog, k) { SearchPlansNamedIff(prog, k, plan); } else { HitPlansNamedIff(prog, k, plan); }
      PlanGrows(prog, k, plan);
      forall h | 0 <= h < k + 1 && Linked(prog, h)
        ensures SourceIs(plan', Target(prog, h), Item(prog, h))
      {
        if h < k { assert SourceIs(plan, Target(prog, h), Item(prog, h)); }
      }
      NamedCursors(prog, k, plan, plan');
    } else {
      NamedCursors(prog, k, plan, plan');
    }
  }

  lemma {:induction false} NamedCursors(prog: seq<Request>, k: nat, plan: Plan, plan': Plan)
    requires k < |prog| && CursorsAtLastMiss(prog, k, Cursors(map[], plan.nthType, plan.nthField)) && AlignedAt(prog, k)
    requires if IsMiss(prog, k) then plan'.nthType == Target(prog, k) && plan'.nthField == RankOf(prog, Target(prog, k))
             else plan'.nthType == plan.nthType && plan'.nthField == plan.nthField
    ensures CursorsAtLastMiss(prog, k + 1, Cursors(map[], plan'.nthType, plan'.nthField))
  {
    hide CursorsAtLastMiss, SearchesRightPlace, NotPassed;
    CursorsAdvance(prog, k, Cursors(map[], plan.nthType, plan.nthField), Cursors(map[], plan'.nthType, plan'.nthField));
  }

  lemma {:induction false} AlignedBeforePlansNamed(prog: seq<Request>, n: nat)
    requires n <= |prog| && AlignedBefore(prog, n)
    ensures PlansNamed(prog, n, PlanTo(prog, n))
    decreases n
  {
    hide PlanLink, AlignedAt;
    if n > 0 {
      AlignedBeforePlansNamed(prog, n - 1);
      AlignedPlansNamed(prog, n - 1);
    }
  }

  /** Alignment is what it takes: after an aligned prefix, a link to an earlier message takes the field that it names
    if and only if it is aligned too. */
  lemma {:induction false} AlignedIffNamed(prog: seq<Request>, k: nat)
    requires Linked(prog, k) && Target(prog, k) < k && AlignedBefore(prog, k)
    ensures SourceOf(prog, k) == Answer(Target(prog, k), Item(prog, k)) <==> AlignedAt(prog, k)
  {
    AlignedBeforePlansNamed(prog, k);
    if IsMiss(prog, k) {
      SearchPlansNamedIff(prog, k, PlanTo(prog, k));
    } else {
      HitPlansNamedIff(prog, k, PlanTo(prog, k));
    }
  }
}

/** The cached, cursor-driven executor against the simple one: when they agree, for which batches, and what can go
  wrong otherwise. */
module Refinement {
  import opened Wrappers
  import opened Schema
  import opened GuestMemory
  import opened Columns
  import opened Execution

  // ---------- shapes: what is known of a batch before it runs ----------

  /** The reply types once the first k calls are answered. */
  function Answered(prog: seq<Request>, k: nat): (tags: seq<nat>)
    requires k <= |prog|
    ensures |tags| == k
  {
    seq(k, i requires 0 <= i < k => ReplyTag(prog[i].call))
  }

  predicate Linked(prog: seq<Request>, k: nat) { k < |prog| && prog[k].link.Some? }

  function Target(prog: seq<Request>, k: nat): nat
    requires Linked(prog, k)
  {
    prog[k].link.value.prevMsg
  }

  function Item(prog: seq<Request>, k: nat): nat
    requires Linked(prog, k)
  {
    prog[k].link.value.prevItem
  }

  /** The messages that the first n messages link to. */
  function Targets(prog: seq<Request>, n: nat): set<nat>
    requires n <= |prog|
  {
    if n == 0 then {}
    else if Linked(prog, n - 1) then Targets(prog, n - 1) + {Target(prog, n - 1)}
    else Targets(prog, n - 1)
  }

  lemma {:induction false} TargetHasLink(prog: seq<Request>, n: nat, p: nat) returns (h: nat)
    requires n <= |prog| && p in Targets(prog, n)
    ensures h < n && Linked(prog, h) && Target(prog, h) == p
  {
    if Linked(prog, n - 1) && Target(prog, n - 1) == p {
      h := n - 1;
    } else {
      h := TargetHasLink(prog, n - 1, p);
    }
  }

  lemma {:induction false} LinkHasTarget(prog: seq<Request>, n: nat, h: nat)
    requires h < n <= |prog| && Linked(prog, h)
    ensures Target(prog, h) in Targets(prog, n)
  {
    if h < n - 1 { LinkHasTarget(prog, n - 1, h); }
  }

  /** The first link to its message: the cache cannot serve it. */
  predicate IsMiss(prog: seq<Request>, k: nat) {
    Linked(prog, k) && Target(prog, k) !in Targets(prog, k)
  }

  function RankOf(prog: seq<Request>, k: nat): nat
    requires k < |prog|
  {
    Rank(RequestTags(prog), k)
  }

  /** Where the code looks for a link's reply is where that reply is. */
  predicate SearchesRightPlace(prog: seq<Request>, k: nat)
    requires Linked(prog, k) && Target(prog, k) < k
  {
    var p := Target(prog, k);
    RankOf(prog, k) == Depth(Answered(prog, k), ReplyTag(prog[p].call)) + RankOf(prog, p)
  }

  /** The forward-only cursors have not passed the reply. */
  predicate NotPassed(prog: seq<Request>, k: nat)
    requires Linked(prog, k) && Target(prog, k) < k
  {
    forall h | 0 <= h < k && IsMiss(prog, h) ::
      && Target(prog, h) <= Target(prog, k)
      && RankOf(prog, Target(prog, h)) <= RankOf(prog, Target(prog, k))
  }

  predicate SameItem(prog: seq<Request>, k: nat)
    requires Linked(prog, k)
  {
    forall h | 0 <= h < k && Linked(prog, h) && Target(prog, h) == Target(prog, k) :: Item(prog, h) == Item(prog, k)
  }

  /** What a client can check of message k before sending the batch. */
  predicate AlignedAt(prog: seq<Request>, k: nat) {
    Linked(prog, k) ==>
      && Target(prog, k) < k
      && SameItem(prog, k)
      && (IsMiss(prog, k) ==> SearchesRightPlace(prog, k) && NotPassed(prog, k))
  }

  predicate AlignedBefore(prog: seq<Request>, n: nat) { forall k | 0 <= k < n :: AlignedAt(prog, k) }

  predicate Aligned(prog: seq<Request>) { AlignedBefore(prog, |prog|) }

  // ---------- facts about logs ----------

  /** The log answers the first calls of the batch. */
  predicate LogOf(prog: seq<Request>, log: seq<Entry>) {
    |log| <= |prog| && forall i | 0 <= i < |log| :: log[i].call == prog[i].call
  }

  lemma {:induction false} RankShift(prog: seq<Request>, k: nat, n: nat, c: Call)
    requires n <= k <= |prog|
    ensures Count(Answered(prog, k)[..n], ReplyTag(c)) == Count(RequestTags(prog)[..n], Tag(c))
  {
    if n > 0 {
      RankShift(prog, k, n - 1, c);
      assert Answered(prog, k)[..n][..n - 1] == Answered(prog, k)[..n - 1];
      assert RequestTags(prog)[..n][..n - 1] == RequestTags(prog)[..n - 1];
    }
  }

  /** Reply p stands, in its column, where request p stands in its own. */
  lemma {:induction false} ReplyRank(prog: seq<Request>, log: seq<Entry>, p: nat)
    requires LogOf(prog, log) && p < |log|
    ensures ReplyTags(log) == Answered(prog, |log|)
    ensures Rank(ReplyTags(log), p) == RankOf(prog, p)
    ensures RankOf(prog, p) < |Column(ReplyTags(log), log, ReplyTags(log)[p])|
    ensures Column(ReplyTags(log), log, ReplyTags(log)[p])[RankOf(prog, p)] == log[p]
  {
    assert ReplyTags(log) == Answered(prog, |log|);
    RankShift(prog, |log|, p, prog[p].call);
    ColumnAt(ReplyTags(log), log, p);
  }

  lemma {:induction false} StepLogs(prog: seq<Request>, k: nat, s: State)
    requires WellTypedBatch(prog) && k < |prog| && LogOf(prog, s.log) && |s.log| == k && s.stop.None?
    ensures var s' := Step(prog, k, s);
            LogOf(prog, s'.log) && |s'.log| == if s'.stop.None? then k + 1 else k
  {
    hide LinkStep, Execute;
  }

  lemma {:induction false} RunLogs(prog: seq<Request>, n: nat, g: Guest)
    requires WellTypedBatch(prog) && n <= |prog|
    ensures var s := RunTo(prog, n, g);
            LogOf(prog, s.log) && |s.log| <= n && (s.stop.None? <==> |s.log| == n)
  {
    if n > 0 {
      RunLogs(prog, n - 1, g);
      var s := RunTo(prog, n - 1, g);
      if s.stop.None? { StepLogs(prog, n - 1, s); }
    }
  }

  // ---------- refinement ----------

  /** The search for a link ends on the reply that the link names. */
  predicate Lands(tags: seq<nat>, c: Cursors, index: nat, p: nat) {
    && c.nthType <= p < |tags|
    && c.nthField <= index - Depth(tags, tags[p]) == Rank(tags, p)
  }

  /** The cursors stand at the latest miss among the first n messages, which is also the furthest. */
  ghost predicate CursorsAtLastMiss(prog: seq<Request>, n: nat, c: Cursors)
    requires n <= |prog|
  {
    && (forall h | 0 <= h < n && IsMiss(prog, h) ::
          Target(prog, h) < n && Target(prog, h) <= c.nthType && RankOf(prog, Target(prog, h)) <= c.nthField)
    && (|| (c.nthType == 0 && c.nthField == 0)
        || exists h :: 0 <= h < n && IsMiss(prog, h) && Target(prog, h) < n
                       && c.nthType == Target(prog, h) && c.nthField == RankOf(prog, Target(prog, h)))
  }

  /** The cache holds, for exactly the messages linked to so far, what an uncached read of the reply would give now. */
  ghost predicate CacheIsExact(prog: seq<Request>, n: nat, log: seq<Entry>, cache: map<nat, int>)
    requires n <= |prog|
  {
    && cache.Keys == Targets(prog, n)
    && forall h | 0 <= h < n && Linked(prog, h) ::
         && Target(prog, h) < |log| && Target(prog, h) in cache
         && ReplyField(log[Target(prog, h)], Item(prog, h)) == Ok(cache[Target(prog, h)])
  }

  ghost predicate Coherent(prog: seq<Request>, n: nat, s: State)
    requires n <= |prog|
  {
    && LogOf(prog, s.log) && |s.log| == n
    && CacheIsExact(prog, n, s.log, s.cursors.cache)
    && CursorsAtLastMiss(prog, n, s.cursors)
  }

  /** In a run that has been aligned so far, a miss lands if and only if it is aligned too. */
  lemma {:induction false} MissLandsIffAligned(prog: seq<Request>, k: nat, s: State)
    requires WellTypedBatch(prog) && k < |prog| && Coherent(prog, k, s)
    requires IsMiss(prog, k) && Target(prog, k) < k
    ensures Lands(ReplyTags(s.log), s.cursors, RankOf(prog, k), Target(prog, k)) <==> AlignedAt(prog, k)
  {
    var p := Target(prog, k);
    ReplyRank(prog, s.log, p);
    assert SameItem(prog, k) by {
      forall h | 0 <= h < k && Linked(prog, h)
        ensures Target(prog, h) != p
      {
        LinkHasTarget(prog, k, h);
      }
    }
  }

  lemma LandingSearch(log: seq<Entry>, c: Cursors, index: nat, link: Link, expected: nat)
    requires Lands(ReplyTags(log), c, index, link.prevMsg) && expected == ReplyTag(log[link.prevMsg].call)
    ensures var p, field := link.prevMsg, ReplyField(log[link.prevMsg], link.prevItem);
            var (v, c') := Search(log, c, index, link, expected);
            && v == field
            && (v.Ok? ==> c' == Cursors(c.cache[p := v.value], p, Rank(ReplyTags(log), p)))
  {
    ColumnAt(ReplyTags(log), log, link.prevMsg);
  }

  lemma {:induction false} CursorsAdvance(prog: seq<Request>, k: nat, c: Cursors, c': Cursors)
    requires k < |prog| && CursorsAtLastMiss(prog, k, c) && AlignedAt(prog, k)
    requires if IsMiss(prog, k) then c'.nthType == Target(prog, k) && c'.nthField == RankOf(prog, Target(prog, k))
             else c'.nthType == c.nthType && c'.nthField == c.nthField
    ensures CursorsAtLastMiss(prog, k + 1, c')
  {}

  lemma {:induction false} CacheAdvances(prog: seq<Request>, k: nat, log: seq<Entry>, cache: map<nat, int>, v: int)
    requires k < |prog| && CacheIsExact(prog, k, log, cache)
    requires Linked(prog, k) && Target(prog, k) < |log| && SameItem(prog, k)
    requires ReplyField(log[Target(prog, k)], Item(prog, k)) == Ok(v)
    ensures CacheIsExact(prog, k + 1, log, cache[Target(prog, k) := v])
  {}

  /** A second link to a message is served by the cache. */
  lemma {:induction false} HitIsCached(prog: seq<Request>, k: nat, log: seq<Entry>, cache: map<nat, int>)
    requires k < |prog| && CacheIsExact(prog, k, log, cache)
    requires Linked(prog, k) && SameItem(prog, k)
    ensures IsMiss(prog, k) <==> Target(prog, k) !in cache
    ensures !IsMiss(prog, k) ==>
              && Target(prog, k) < |log|
              && ReplyField(log[Target(prog, k)], Item(prog, k)) == Ok(cache[Target(prog, k)])
  {
    if !IsMiss(prog, k) { var h := TargetHasLink(prog, k, Target(prog, k)); }
  }

  /** The value of message k's link, where the run has got there. */
  function LinkValue(prog: seq<Request>, k: nat, s: State): Result<int, Fault>
    requires Linked(prog, k)
  {
    Resolve(s.log, s.cursors, RankOf(prog, k), prog[k].link.value, RequestTags(prog)).0
  }

  /** What an aligned link does: it gets the field it names, caches it, and moves the cursors only if it missed. */
  ghost predicate ResolvesTo(prog: seq<Request>, k: nat, s: State, v: Result<int, Fault>, c: Cursors)
    requires Linked(prog, k) && Target(prog, k) < |s.log| <= |prog|
  {
    var p := Target(prog, k);
    && v == ReplyField(s.log[p], Item(prog, k))
    && (v.Ok? ==>
          && c.cache == s.cursors.cache[p := v.value]
          && (if IsMiss(prog, k) then c.nthType == p && c.nthField == RankOf(prog, p)
              else c.nthType == s.cursors.nthType && c.nthField == s.cursors.nthField))
  }

  lemma {:induction false} AlignedMissResolves(prog: seq<Request>, k: nat, s: State)
    requires WellTypedBatch(prog) && k < |prog| && Coherent(prog, k, s)
    requires IsMiss(prog, k) && AlignedAt(prog, k)
    ensures var (v, c) := Resolve(s.log, s.cursors, RankOf(prog, k), prog[k].link.value, RequestTags(prog));
            ResolvesTo(prog, k, s, v, c)
  {
    HitIsCached(prog, k, s.log, s.cursors.cache);
    MissLandsIffAligned(prog, k, s);
    LandingSearch(s.log, s.cursors, RankOf(prog, k), prog[k].link.value, ReplyTag(prog[Target(prog, k)].call));
    ReplyRank(prog, s.log, Target(prog, k));
  }

  lemma {:induction false} AlignedHitResolves(prog: seq<Request>, k: nat, s: State)
    requires WellTypedBatch(prog) && k < |prog| && Coherent(prog, k, s)
    requires Linked(prog, k) && !IsMiss(prog, k) && AlignedAt(prog, k)
    ensures var (v, c) := Resolve(s.log, s.cursors, RankOf(prog, k), prog[k].link.value, RequestTags(prog));
            ResolvesTo(prog, k, s, v, c)
  {
    HitIsCached(prog, k, s.log, s.cursors.cache);
    var p := Target(prog, k);
    assert s.cursors.cache == s.cursors.cache[p := s.cursors.cache[p]];
  }

  /** An aligned link hands the call the arguments that direct execution does, and keeps cache and cursors coherent. */
  lemma {:induction false} AlignedLinkStep(prog: seq<Request>, k: nat, s: State)
    requires WellTypedBatch(prog) && k < |prog| && Coherent(prog, k, s) && AlignedAt(prog, k)
    ensures var (args, c) := LinkStep(s.log, s.cursors, RankOf(prog, k), prog[k], RequestTags(prog));
            && args == DirectArgs(s.log, prog[k])
            && (args.Ok? ==> CursorsAtLastMiss(prog, k + 1, c) && CacheIsExact(prog, k + 1, s.log, c.cache))
  {
    if Linked(prog, k) {
      var (v, c) := Resolve(s.log, s.cursors, RankOf(prog, k), prog[k].link.value, RequestTags(prog));
      assert ResolvesTo(prog, k, s, v, c) by {
        if IsMiss(prog, k) { AlignedMissResolves(prog, k, s); } else { AlignedHitResolves(prog, k, s); }
      }
      if v.Ok? {
        CursorsAdvance(prog, k, s.cursors, c);
        CacheAdvances(prog, k, s.log, s.cursors.cache, v.value);
      }
    } else {
      CursorsAdvance(prog, k, s.cursors, s.cursors);
      NoLinkKeepsCache(prog, k, s.log, s.cursors.cache);
    }
  }

  lemma {:induction false} NoLinkKeepsCache(prog: seq<Request>, k: nat, log: seq<Entry>, cache: map<nat, int>)
    requires k < |prog| && CacheIsExact(prog, k, log, cache) && !Linked(prog, k)
    ensures CacheIsExact(prog, k + 1, log, cache)
  {}

  /** The replies are only ever appended to, so a cached value stays right. */
  lemma {:induction false} CoherentGrows(prog: seq<Request>, k: nat, log: seq<Entry>, c: Cursors, e: Entry, s: State)
    requires k < |prog| && LogOf(prog, log) && |log| == k && e.call == prog[k].call
    requires CacheIsExact(prog, k + 1, log, c.cache) && CursorsAtLastMiss(prog, k + 1, c)
    requires |s.log| == k + 1 && s.log[..k] == log && s.log[k] == e && s.cursors == c
    ensures Coherent(prog, k + 1, s)
  {}

  lemma FinishShape(c: Call, index: nat, args: Result<seq<Option<int>>, Fault>, s: State)
    requires args.Ok? ==> |args.value| == |ArgTypes(c)|
    requires s.stop.None?
    ensures var s' := Finish(c, index, args, s);
            && s'.cursors == s.cursors
            && (args.Err? ==> s' == s.(stop := Some(Stop(args.error, index))))
            && (s'.stop.None? ==> |s'.log| == |s.log| + 1 && s'.log == s.log + [s'.log[|s.log|]]
                                  && s'.log[|s.log|].call == c)
            && (s'.stop.Some? ==> s'.log == s.log)
  {}

  lemma FinishIgnoresCursors(c: Call, index: nat, args: Result<seq<Option<int>>, Fault>, s: State, d: State)
    requires args.Ok? ==> |args.value| == |ArgTypes(c)|
    requires s.log == d.log && s.guest == d.guest && s.stop == d.stop
    ensures Finish(c, index, args, s) == Finish(c, index, args, d).(cursors := s.cursors)
  {}

  /** Both meanings finish alike once the link has given them the same arguments. */
  lemma {:induction false} SameArgsSameStep(prog: seq<Request>, k: nat, s: State, d: State)
    requires WellTypedBatch(prog) && k < |prog|
    requires s.log == d.log && s.guest == d.guest && s.stop == d.stop
    requires LinkStep(s.log, s.cursors, RankOf(prog, k), prog[k], RequestTags(prog)).0 == DirectArgs(s.log, prog[k])
    ensures var s', d' := Step(prog, k, s), DirectStep(prog, k, d);
            s'.log == d'.log && s'.guest == d'.guest && s'.stop == d'.stop
  {
    var (args, c) := LinkStep(s.log, s.cursors, RankOf(prog, k), prog[k], RequestTags(prog));
    FinishIgnoresCursors(prog[k].call, RankOf(prog, k), args, s.(cursors := c), d);
  }

  /** A step that does not stop appends one reply, of the call's own kind, and takes the cursors of its link. */
  lemma {:induction false} StepShape(prog: seq<Request>, k: nat, s: State)
    requires WellTypedBatch(prog) && k < |prog| && s.stop.None? && Step(prog, k, s).stop.None?
    ensures var s' := Step(prog, k, s);
            var (args, c) := LinkStep(s.log, s.cursors, RankOf(prog, k), prog[k], RequestTags(prog));
            && args.Ok? && s'.cursors == c
            && |s'.log| == |s.log| + 1 && s'.log[..|s.log|] == s.log && s'.log[|s.log|].call == prog[k].call
  {
    var (args, c) := LinkStep(s.log, s.cursors, RankOf(prog, k), prog[k], RequestTags(prog));
    FinishShape(prog[k].call, RankOf(prog, k), args, s.(cursors := c));
  }

  lemma {:induction false} AlignedStepIsCoherent(prog: seq<Request>, k: nat, s: State, s': State)
    requires WellTypedBatch(prog) && k < |prog| && Coherent(prog, k, s) && AlignedAt(prog, k)
    requires s.stop.None? && s' == Step(prog, k, s) && s'.stop.None?
    ensures Coherent(prog, k + 1, s')
  {
    StepShape(prog, k, s);
    AlignedLinkStep(prog, k, s);
    CoherentGrows(prog, k, s.log, s'.cursors, s'.log[k], s');
  }

  lemma {:induction false} AlignedStep(prog: seq<Request>, k: nat, s: State, d: State)
    requires WellTypedBatch(prog) && k < |prog| && Coherent(prog, k, s) && AlignedAt(prog, k)
    requires s.stop.None? && s.log == d.log && s.guest == d.guest && s.stop == d.stop
    ensures var s', d' := Step(prog, k, s), DirectStep(prog, k, d);
            && s'.log == d'.log && s'.guest == d'.guest && s'.stop == d'.stop
            && (s'.stop.None? ==> Coherent(prog, k + 1, s'))
  {
    AlignedLinkStep(prog, k, s);
    SameArgsSameStep(prog, k, s, d);
    var s' := Step(prog, k, s);
    if s'.stop.None? { AlignedStepIsCoherent(prog, k, s, s'); }
  }

  /** The first n messages: same replies, same guest memory, same stop; and coherence, if nothing stopped. */
  ghost predicate Agrees(prog: seq<Request>, n: nat, s: State, d: State)
    requires n <= |prog|
  {
    && s.log == d.log && s.guest == d.guest && s.stop == d.stop
    && (s.stop.None? ==> Coherent(prog, n, s))
  }

  lemma {:induction false} AgreesNext(prog: seq<Request>, k: nat, g: Guest)
    requires WellTypedBatch(prog) && k < |prog| && AlignedAt(prog, k)
    requires Agrees(prog, k, RunTo(prog, k, g), DirectTo(prog, k, g))
    ensures Agrees(prog, k + 1, RunTo(prog, k + 1, g), DirectTo(prog, k + 1, g))
  {
    var s, d := RunTo(prog, k, g), DirectTo(prog, k, g);
    if s.stop.None? { AlignedStep(prog, k, s, d); }
  }

  lemma {:induction false} AgreesAtStart(prog: seq<Request>, g: Guest)
    ensures Agrees(prog, 0, State([], START, g, None), State([], START, g, None))
  {}

  /** Optimised execution refines direct execution on every aligned batch, and the cache is coherent at every step. */
  lemma {:induction false} AlignedRefinesDirect(prog: seq<Request>, n: nat, g: Guest)
    requires WellTypedBatch(prog) && n <= |prog| && AlignedBefore(prog, n)
    ensures Agrees(prog, n, RunTo(prog, n, g), DirectTo(prog, n, g))
  {
    hide Agrees, AlignedAt, Step, DirectStep, WellTyped;
    if n == 0 {
      AgreesAtStart(prog, g);
    } else {
      AlignedRefinesDirect(prog, n - 1, g);
      AgreesNext(prog, n - 1, g);
    }
  }
}

/** When the link resolution of furnace.cpp keeps what batch_obj.add documents: the exact condition on a batch, and the
  smallest pipeline for which it fails. */
module Exactness {
  import opened Wrappers
  import opened Schema
  import opened GuestMemory
  import opened Columns
  import opened Execution
  import opened Refinement
  import opened LinkPlan

  // ---------- the replies that there can be ----------

  /** Some guest gives this reply to a call with these arguments. */
  ghost predicate CanReply(c: Call, args: seq<Option<int>>, reply: Reply)
    requires |args| == |ArgTypes(c)|
  {
    exists g :: Execute(c, args, g).0 == Ok(reply)
  }

  /** After `before`, message h can get the reply `e`. */
  ghost predicate Replied(prog: seq<Request>, h: nat, before: seq<Entry>, e: Entry)
    requires WellTypedBatch(prog) && h < |prog|
  {
    var args := PlannedArgs(prog, h, before);
    e.call == prog[h].call && args.Ok? && CanReply(e.call, args.value, e.reply)
  }

  /** Replies that the first k messages can get: each from some guest, for the arguments that the replies before it
    leave it with. */
  ghost predicate LogFor(prog: seq<Request>, k: nat, log: seq<Entry>)
    requires WellTypedBatch(prog) && k <= |prog|
  {
    |log| == k && forall h | 0 <= h < k :: Replied(prog, h, log[..h], log[h])
  }

  lemma {:induction false} StepIsPossible(prog: seq<Request>, k: nat, log: seq<Entry>, s: State)
    requires WellTypedBatch(prog) && k < |prog| && LogFor(prog, k, s.log) && s.stop.None?
    requires var s' := Finish(prog[k].call, RankOf(prog, k), PlannedArgs(prog, k, s.log), s);
             s'.stop.None? && s'.log == log
    ensures LogFor(prog, k + 1, log)
  {
    hide PlannedArgs, Execute;
    FinishReplies(prog[k].call, RankOf(prog, k), PlannedArgs(prog, k, s.log), s);
    var e := log[k];
    assert log[..k] == s.log;
    forall h | 0 <= h < k + 1
      ensures Replied(prog, h, log[..h], log[h])
    {
      if h < k {
        assert log[..h] == s.log[..h] && log[h] == s.log[h];
        assert Replied(prog, h, s.log[..h], s.log[h]);
      }
    }
  }

  lemma {:induction false} FinishReplies(c: Call, index: nat, args: Result<seq<Option<int>>, Fault>, s: State)
    requires args.Ok? ==> |args.value| == |ArgTypes(c)|
    requires s.stop.None? && Finish(c, index, args, s).stop.None?
    ensures var log := Finish(c, index, args, s).log;
            && args.Ok? && |log| == |s.log| + 1 && log == s.log + [log[|s.log|]]
            && log[|s.log|].call == c && CanReply(c, args.value, log[|s.log|].reply)
  {
    hide Execute;
    assert Execute(c, args.value, s.guest).0.Ok?;
  }

  lemma {:induction false} PlannedIsPossible(prog: seq<Request>, k: nat, g: Guest)
    requires WellTypedBatch(prog) && k <= |prog| && PlannedTo(prog, k, g).stop.None?
    ensures LogFor(prog, k, PlannedTo(prog, k, g).log)
    decreases k
  {
    hide Finish, PlannedArgs, Replied, WellTyped;
    if k > 0 {
      PlannedIsPossible(prog, k - 1, g);
      StepIsPossible(prog, k - 1, PlannedTo(prog, k, g).log, PlannedTo(prog, k - 1, g));
    }
  }

  /** Every run that gets as far as message k leaves such replies. */
  lemma {:induction false} RunIsPossible(prog: seq<Request>, k: nat, g: Guest)
    requires WellTypedBatch(prog) && k <= |prog| && RunTo(prog, k, g).stop.None?
    ensures LogFor(prog, k, RunTo(prog, k, g).log)
  {
    hide LogFor, RunTo, PlannedTo;
    RunFollowsPlan(prog, k, g);
    PlannedIsPossible(prog, k, g);
  }

  // ---------- what a field of a reply can hold ----------

  /** A field of a reply as links see it: one number whatever the guest, one that depends on it, or an error. */
  datatype Kind = Always(value: int) | Varies | Never(fault: Fault)

  predicate HasKind(v: Result<int, Fault>, kind: Kind) {
    match kind
    case Always(n) => v == Ok(n)
    case Varies => v.Ok? && v.value >= 0
    case Never(f) => v == Err(f)
  }

  predicate IsFilled(r: Request, j: nat) { r.link.Some? && r.link.value.curItem == j }

  /** Every argument is set, or is the one that the link fills. */
  predicate Complete(r: Request) { forall j | 0 <= j < |r.args| :: r.args[j].Some? || IsFilled(r, j) }

  /** The kind of a field by its own request.  Pausing never fails, a request with an argument missing always does, and
    READ_STR_PA either succeeds or does not reply. */
  function KindOf(r: Request, item: nat): Kind {
    var types := ReplyTypes(r.call);
    if |types| < item then Never(BatchError(18))
    else if |types| == item then Never(Undefined)
    else if types[item] == Text then Never(BatchError(20))
    else if !Linkable(r.call) then Always(0)
    else if !Complete(r) then Always(if item == |types| - 1 then 1 else 0)
    else if r.call == ReadStr(Pa) then Always(0)
    else Varies
  }

  /** A link that subtracts from 0, or from an argument that was never set, stops unless what it carries is 0. */
  predicate SubtractsFromZero(r: Request) {
    && r.link.Some? && r.link.value.op == Sub
    && var j := r.link.value.curItem;
       (j < |r.args| && r.args[j].Some? ==> r.args[j].value == 0)
  }

  /** One of the first n messages lets none pass it for which the field is not 0. */
  predicate Pinned(prog: seq<Request>, n: nat, field: Source)
    requires n <= |prog|
  {
    exists h | 0 <= h < n && Linked(prog, h) :: SubtractsFromZero(prog[h]) && SourceOf(prog, h) == field
  }

  /** What field `item` of reply i can hold when the first n messages have been answered. */
  function FieldKind(prog: seq<Request>, n: nat, i: nat, item: nat): Kind
    requires i < n <= |prog|
  {
    if KindOf(prog[i], item) == Varies && Pinned(prog, n, Answer(i, item)) then Always(0) else KindOf(prog[i], item)
  }

  /** The arguments of a request once its link is applied. */
  predicate Fills(r: Request, args: seq<Option<int>>) {
    && |args| == |r.args| == |ArgTypes(r.call)|
    && (forall j | 0 <= j < |args| :: args[j].Some? <==> r.args[j].Some? || IsFilled(r, j))
    && (Linkable(r.call) && args[0].Some? ==> args[0].value < UINT64)
  }

  lemma {:induction false} CombineFills(r: Request, link: Link, prior: int)
    requires WellTyped(r) && r.link == Some(link) && 0 <= prior < UINT64 && Combine(r, link, prior).Ok?
    ensures Fills(r, Combine(r, link, prior).value)
  {}

  lemma {:induction false} PlannedFills(prog: seq<Request>, k: nat, log: seq<Entry>)
    requires WellTypedBatch(prog) && k < |prog| && PlannedArgs(prog, k, log).Ok?
    ensures Fills(prog[k], PlannedArgs(prog, k, log).value)
  {
    hide Combine, Fills, SourceOf, ReplyField;
    if Linked(prog, k) {
      SourceInRange(log, SourceOf(prog, k));
      CombineFills(prog[k], prog[k].link.value, SourceValue(log, SourceOf(prog, k)).value);
    } else {
      SetFills(prog[k]);
    }
  }

  lemma {:induction false} SetFills(r: Request)
    requires WellTyped(r) && r.link.None?
    ensures Fills(r, r.args)
  {}

  lemma {:induction false} SourceInRange(log: seq<Entry>, source: Source)
    requires SourceValue(log, source).Ok?
    ensures 0 <= SourceValue(log, source).value < UINT64
  {}

  /** Whatever the guest, the reply to a request has fields of these kinds. */
  lemma {:induction false} ReplyHasKind(r: Request, args: seq<Option<int>>, reply: Reply, item: nat)
    requires Fills(r, args) && CanReply(r.call, args, reply)
    ensures HasKind(ReplyField(Entry(r.call, reply), item), KindOf(r, item))
  {
    hide WriteBytes, ReadBytes, ReadText, Translate, Holding;
    var g :| Execute(r.call, args, g).0 == Ok(reply);
    if Linkable(r.call) {
      if Complete(r) {
        assert Execute(r.call, args, g) == Access(r.call, args, g);
      } else {
        var j :| 0 <= j < |r.args| && !(r.args[j].Some? || IsFilled(r, j));
        assert args[j].None?;
      }
    }
  }

  lemma {:induction false} SubtractedIsZero(r: Request, prior: int)
    requires WellTyped(r) && SubtractsFromZero(r) && Combine(r, r.link.value, prior).Ok?
    ensures prior <= 0
  {}

  /** So, where other messages have let it pass, has every reply that the batch can get. */
  lemma {:induction false} PossibleHasKind(prog: seq<Request>, n: nat, log: seq<Entry>, i: nat, item: nat)
    requires WellTypedBatch(prog) && i < n <= |prog| && LogFor(prog, n, log)
    ensures HasKind(ReplyField(log[i], item), FieldKind(prog, n, i, item))
  {
    hide ReplyField, Combine, Fills, CanReply, KindOf, SourceOf, SubtractsFromZero, Execute;
    assert Replied(prog, i, log[..i], log[i]);
    PlannedFills(prog, i, log[..i]);
    ReplyHasKind(prog[i], PlannedArgs(prog, i, log[..i]).value, log[i].reply, item);
    if KindOf(prog[i], item) == Varies && Pinned(prog, n, Answer(i, item)) {
      var h :| 0 <= h < n && Linked(prog, h) && SubtractsFromZero(prog[h]) && SourceOf(prog, h) == Answer(i, item);
      assert Replied(prog, h, log[..h], log[h]);
      assert log[..h][i] == log[i];
      SubtractedIsZero(prog[h], ReplyField(log[i], item).value);
    }
  }

  // ---------- replies that tell fields apart ----------

  /** A reply in which every field that varies is 0. */
  function PlainReply(r: Request): Reply {
    if !Linkable(r.call) then Reply(None, 0)
    else if !Complete(r) then Reply(None, 1)
    else
      match r.call
      case WriteInt(_, _) => Reply(None, 0)
      case ReadStr(_) => Reply(Some(Bytes([])), 0)
      case _ => Reply(Some(Num(0)), 0)
  }

  /** One in which a given field is 1, and any other 0. */
  function MarkedReply(r: Request, item: nat): Reply {
    match r.call
    case WriteInt(_, _) => Reply(None, 1)
    case ReadStr(_) => Reply(None, 1)
    case _ => if item == 0 then Reply(Some(Num(1)), 0) else Reply(Some(Num(0)), 1)
  }

  /** Replies to the first k messages that are plain, but for one field of message i. */
  function Witness(prog: seq<Request>, k: nat, i: nat, item: nat): (log: seq<Entry>)
    requires k <= |prog|
    ensures |log| == k
  {
    seq(k, h requires 0 <= h < k =>
      Entry(prog[h].call, if h == i then MarkedReply(prog[h], item) else PlainReply(prog[h])))
  }

  /** What a field holds there. */
  predicate WitnessHolds(v: Result<int, Fault>, kind: Kind, marked: bool) {
    match kind
    case Always(n) => v == Ok(n)
    case Varies => v == Ok(if marked then 1 else 0)
    case Never(f) => v == Err(f)
  }

  lemma {:induction false} WitnessReads(prog: seq<Request>, k: nat, i: nat, item: nat, j: nat, other: nat)
    requires j < k <= |prog| && (i < k ==> KindOf(prog[i], item) == Varies)
    ensures WitnessHolds(ReplyField(Witness(prog, k, i, item)[j], other), KindOf(prog[j], other),
                         j == i && other == item)
  {
    hide Complete;
  }

  lemma {:induction false} IncompleteReply(r: Request, args: seq<Option<int>>)
    requires Fills(r, args) && Linkable(r.call) && !Complete(r)
    ensures CanReply(r.call, args, Reply(None, 1))
  {
    var j :| 0 <= j < |r.args| && !(r.args[j].Some? || IsFilled(r, j));
    assert args[j].None?;
    assert Execute(r.call, args, NO_MEMORY).0 == Ok(Reply(None, 1));
  }

  /** The guest that holds the number at the address that a call names. */
  function GuestFor(c: Call, args: seq<Option<int>>, first: Byte): Guest
    requires Linkable(c) && |args| == |ArgTypes(c)| && forall j | 0 <= j < |args| :: args[j].Some?
  {
    Holding(first, if c.space.Va? then args[1].value else 0, args[0].value)
  }

  lemma {:induction false} HeldIsReplied(c: Call, args: seq<Option<int>>, first: Byte)
    requires Linkable(c) && |args| == |ArgTypes(c)| && forall j | 0 <= j < |args| :: args[j].Some?
    requires args[0].value < UINT64
    ensures c.ReadInt? || c.ReadAddr? ==>
              Access(c, args, GuestFor(c, args, first)).0 == Ok(Reply(Some(Num(first as int)), 0))
    ensures c.WriteInt? ==> Access(c, args, GuestFor(c, args, 0)).0 == Ok(Reply(None, 0))
    ensures c.ReadStr? ==> Access(c, args, GuestFor(c, args, 0)).0 == Ok(Reply(Some(Bytes([])), 0))
  {
    hide Holding, Translate, WriteBytes, ReadBytes;
    var pid, addr := if c.space.Va? then args[1].value else 0, args[0].value;
    if c.ReadInt? {
      HoldingReads(first, c.space, pid, addr, c.size.Bytes());
    } else if c.ReadAddr? {
      HoldingReads(first, c.space, pid, addr, 8);
    } else if c.WriteInt? {
      HoldingIsWritten(c.space, pid, addr, c.size.Bytes(), args[|args| - 1].value);
    } else {
      HoldingHolds(0, c.space, pid, addr, addr);
    }
  }

  lemma {:induction false} NothingIsMapped(c: Call, args: seq<Option<int>>)
    requires Linkable(c) && |args| == |ArgTypes(c)| && forall j | 0 <= j < |args| :: args[j].Some?
    ensures var reply := Access(c, args, NO_MEMORY).0;
            && (c.ReadInt? || c.ReadAddr? ==> reply == Ok(Reply(Some(Num(0)), 1)))
            && (c.WriteInt? || c == ReadStr(Va) ==> reply == Ok(Reply(None, 1)))
  {}

  /** Each of these replies comes from some guest. */
  lemma {:induction false} PlainIsGiven(r: Request, args: seq<Option<int>>)
    requires Fills(r, args)
    ensures CanReply(r.call, args, PlainReply(r))
  {
    hide Access, Holding;
    if !Linkable(r.call) {
      assert Execute(r.call, args, NO_MEMORY).0 == Ok(Reply(None, 0));
    } else if !Complete(r) {
      IncompleteReply(r, args);
    } else {
      HeldIsReplied(r.call, args, 0);
      var g := GuestFor(r.call, args, 0);
      assert Execute(r.call, args, g) == Access(r.call, args, g);
    }
  }

  lemma {:induction false} MarkedIsGiven(r: Request, args: seq<Option<int>>, item: nat)
    requires Fills(r, args) && KindOf(r, item) == Varies
    ensures CanReply(r.call, args, MarkedReply(r, item))
  {
    hide Access, Holding;
    if (r.call.ReadInt? || r.call.ReadAddr?) && item == 0 {
      HeldIsReplied(r.call, args, 1);
      var g := GuestFor(r.call, args, 1);
      assert Execute(r.call, args, g) == Access(r.call, args, g);
    } else {
      NothingIsMapped(r.call, args);
      assert Execute(r.call, args, NO_MEMORY) == Access(r.call, args, NO_MEMORY);
    }
  }

  /** Where one value passes, so does a smaller one, and without a subtraction any. */
  lemma {:induction false} CombinePasses(r: Request, prior: int, prior': int)
    requires WellTyped(r) && r.link.Some? && Combine(r, r.link.value, prior).Ok? && 0 <= prior
    requires prior' <= prior || (prior' <= 1 && !SubtractsFromZero(r))
    ensures Combine(r, r.link.value, prior').Ok?
  {}

  /** A link passes on the witness if it passes on any replies. */
  lemma {:induction false} WitnessPasses(prog: seq<Request>, k: nat, i: nat, item: nat, h: nat, some: seq<Entry>)
    requires WellTypedBatch(prog) && h < k <= |prog| && LogFor(prog, k, some)
    requires i < k ==> FieldKind(prog, k, i, item) == Varies
    ensures PlannedArgs(prog, h, Witness(prog, k, i, item)[..h]).Ok?
  {
    hide ReplyField, Combine, CanReply, KindOf, SourceOf, SubtractsFromZero, Witness;
    assert Replied(prog, h, some[..h], some[h]);
    if Linked(prog, h) {
      var log, source := Witness(prog, k, i, item), SourceOf(prog, h);
      SourceInRange(some[..h], source);
      if source.Answer? {
        assert log[..h][source.msg] == log[source.msg] && some[..h][source.msg] == some[source.msg];
        WitnessReads(prog, k, i, item, source.msg, source.item);
        PossibleHasKind(prog, k, some, source.msg, source.item);
      }
      CombinePasses(prog[h], SourceValue(some[..h], source).value, SourceValue(log[..h], source).value);
    }
  }

  /** The witness is one of the logs that the batch can have, unless there are none. */
  lemma {:induction false} WitnessIsPossible(prog: seq<Request>, k: nat, i: nat, item: nat, some: seq<Entry>)
    requires WellTypedBatch(prog) && k <= |prog| && LogFor(prog, k, some)
    requires i < k ==> FieldKind(prog, k, i, item) == Varies
    ensures LogFor(prog, k, Witness(prog, k, i, item))
  {
    hide PlannedArgs, CanReply, KindOf, Pinned, Fills, MarkedReply, PlainReply;
    var log := Witness(prog, k, i, item);
    forall h | 0 <= h < k
      ensures Replied(prog, h, log[..h], log[h])
    {
      WitnessPasses(prog, k, i, item, h, some);
      PlannedFills(prog, h, log[..h]);
      var args := PlannedArgs(prog, h, log[..h]).value;
      if h == i { MarkedIsGiven(prog[h], args, item); } else { PlainIsGiven(prog[h], args); }
    }
  }

  // ---------- when a link is right ----------

  /** Message k's link carries the field that it names, or stops the batch with that field's error. */
  predicate Documented(prog: seq<Request>, k: nat, log: seq<Entry>)
    requires Linked(prog, k) && Target(prog, k) < |log|
  {
    SourceValue(log, SourceOf(prog, k)) == ReplyField(log[Target(prog, k)], Item(prog, k))
  }

  function SourceKind(prog: seq<Request>, k: nat, source: Source): Kind
    requires k <= |prog| && IsBehind(source, k)
  {
    match source
    case Zero => Always(0)
    case Answer(i, item) => FieldKind(prog, k, i, item)
  }

  /** What a client can check of a link to an earlier message: its value comes from the field that it names, or from
    one that always holds the same. */
  predicate LinkIsRight(prog: seq<Request>, k: nat)
    requires Linked(prog, k) && Target(prog, k) < k
  {
    var named := Answer(Target(prog, k), Item(prog, k));
    || SourceOf(prog, k) == named
    || SourceKind(prog, k, SourceOf(prog, k)) == SourceKind(prog, k, named) != Varies
  }

  lemma {:induction false} SourceHasKind(prog: seq<Request>, k: nat, log: seq<Entry>, source: Source)
    requires WellTypedBatch(prog) && k <= |prog| && IsBehind(source, k) && LogFor(prog, k, log)
    ensures HasKind(SourceValue(log, source), SourceKind(prog, k, source))
  {
    hide LogFor, ReplyField, FieldKind;
    LogLength(prog, k, log);
    if source.Answer? { PossibleHasKind(prog, k, log, source.msg, source.item); }
  }

  lemma {:induction false} LogLength(prog: seq<Request>, k: nat, log: seq<Entry>)
    requires WellTypedBatch(prog) && k <= |prog| && LogFor(prog, k, log)
    ensures |log| == k
  {}

  /** Replies on which two sources differ. */
  lemma {:induction false} SourcesDiffer(prog: seq<Request>, k: nat, a: Source, b: Source, some: seq<Entry>)
    returns (log: seq<Entry>)
    requires WellTypedBatch(prog) && k <= |prog| && IsBehind(a, k) && IsBehind(b, k) && LogFor(prog, k, some)
    requires a != b && (SourceKind(prog, k, a) == Varies || SourceKind(prog, k, a) != SourceKind(prog, k, b))
    ensures LogFor(prog, k, log) && SourceValue(log, a) != SourceValue(log, b)
  {
    hide LogFor, Witness, ReplyField, KindOf, Pinned;
    var kind, kind' := SourceKind(prog, k, a), SourceKind(prog, k, b);
    LogLength(prog, k, some);
    if kind != Varies && kind' != Varies {
      log := some;
    } else {
      var field, still := if kind == Varies then a else b, if kind == Varies then kind' else kind;
      var i := if still == Always(1) then k else field.msg;
      log := Witness(prog, k, i, field.item);
      WitnessIsPossible(prog, k, i, field.item, some);
      WitnessReads(prog, k, i, field.item, field.msg, field.item);
      if kind == Varies && kind' == Varies { WitnessReads(prog, k, i, field.item, b.msg, b.item); }
    }
    SourceHasKind(prog, k, log, a);
    SourceHasKind(prog, k, log, b);
  }

  /** The condition is exact.  Whatever a link was preceded by, it is resolved as documented on all replies that the
    batch can have by then if and only if it is right. */
  lemma {:induction false} LinkIsRightIff(prog: seq<Request>, k: nat, some: seq<Entry>)
    requires WellTypedBatch(prog) && Linked(prog, k) && Target(prog, k) < k && LogFor(prog, k, some)
    ensures (forall log | LogFor(prog, k, log) :: |log| == k && Documented(prog, k, log)) <==> LinkIsRight(prog, k)
  {
    hide LogFor, SourceKind, SourceOf, ReplyField;
    var named := Answer(Target(prog, k), Item(prog, k));
    if LinkIsRight(prog, k) {
      forall log | LogFor(prog, k, log)
        ensures |log| == k && Documented(prog, k, log)
      {
        LogLength(prog, k, log);
        SourceHasKind(prog, k, log, SourceOf(prog, k));
        SourceHasKind(prog, k, log, named);
      }
    } else {
      var log := SourcesDiffer(prog, k, named, SourceOf(prog, k), some);
      LogLength(prog, k, log);
    }
  }

  // ---------- whole batches ----------

  /** The run gives the link that value. */
  lemma {:induction false} RunResolves(prog: seq<Request>, k: nat, g: Guest)
    requires WellTypedBatch(prog) && Linked(prog, k) && Target(prog, k) < k && RunTo(prog, k, g).stop.None?
    ensures var s := RunTo(prog, k, g);
            |s.log| == k && LinkValue(prog, k, s) == SourceValue(s.log, SourceOf(prog, k))
  {
    hide SourceValue, SourceOf, PlannedTo, RunTo, Resolve, Matches, PlanTo;
    RunFollowsPlan(prog, k, g);
    LinkFollowsPlan(prog, k, RunTo(prog, k, g));
  }

  predicate LinksBack(prog: seq<Request>, n: nat) {
    forall k | 0 <= k < n && Linked(prog, k) :: Target(prog, k) < k
  }

  predicate LinksAreRight(prog: seq<Request>, n: nat) {
    forall k | 0 <= k < n && Linked(prog, k) :: Target(prog, k) < k && LinkIsRight(prog, k)
  }

  ghost predicate AlwaysDocumented(prog: seq<Request>, k: nat)
    requires WellTypedBatch(prog) && Linked(prog, k) && Target(prog, k) < k
  {
    forall log | LogFor(prog, k, log) :: |log| == k && Documented(prog, k, log)
  }

  lemma {:induction false} LogPrefix(prog: seq<Request>, k: nat, n: nat, log: seq<Entry>)
    requires WellTypedBatch(prog) && k <= n <= |prog| && LogFor(prog, n, log)
    ensures LogFor(prog, k, log[..k])
  {
    hide Replied;
    forall h | 0 <= h < k
      ensures Replied(prog, h, log[..k][..h], log[..k][h])
    {
      assert log[..k][..h] == log[..h];
    }
  }

  /** Of a batch with links to earlier messages, aligned or not, that some guest lets run: every link reads what it
    names, on all replies that the batch can get, if and only if every link is right. */
  lemma {:induction false} BatchIsRightIff(prog: seq<Request>, n: nat, some: seq<Entry>)
    requires WellTypedBatch(prog) && n <= |prog| && LinksBack(prog, n) && LogFor(prog, n, some)
    ensures (forall k | 0 <= k < n && Linked(prog, k) :: AlwaysDocumented(prog, k)) <==> LinksAreRight(prog, n)
  {
    hide LogFor, LinkIsRight, Documented;
    LogLength(prog, n, some);
    forall k | 0 <= k < n && Linked(prog, k)
      ensures AlwaysDocumented(prog, k) <==> LinkIsRight(prog, k)
    {
      LogPrefix(prog, k, n, some);
      LinkIsRightIff(prog, k, some[..k]);
    }
  }

  /** A link that is right gives the call the arguments that a direct read gives it. */
  lemma {:induction false} RightLinkIsDirect(prog: seq<Request>, k: nat, log: seq<Entry>)
    requires WellTypedBatch(prog) && k < |prog| && LogFor(prog, k, log)
    requires Linked(prog, k) ==> Target(prog, k) < k && LinkIsRight(prog, k)
    ensures PlannedArgs(prog, k, log) == DirectArgs(log, prog[k])
  {
    hide LogFor, LinkIsRight, SourceOf, SourceValue, ReplyField, Combine;
    LogLength(prog, k, log);
    if Linked(prog, k) { LinkIsRightIff(prog, k, log); }
  }

  /** And then the executor does what direct execution does, on every guest. */
  lemma {:induction false} RightBatchIsDirect(prog: seq<Request>, n: nat, g: Guest)
    requires WellTypedBatch(prog) && n <= |prog| && LinksAreRight(prog, n)
    ensures SameRun(RunTo(prog, n, g), DirectTo(prog, n, g))
  {
    hide RunTo;
    RunFollowsPlan(prog, n, g);
    PlannedIsDirect(prog, n, g);
  }

  lemma {:induction false} PlannedIsDirect(prog: seq<Request>, n: nat, g: Guest)
    requires WellTypedBatch(prog) && n <= |prog| && LinksAreRight(prog, n)
    ensures PlannedTo(prog, n, g) == DirectTo(prog, n, g)
    decreases n
  {
    hide LogFor, LinkIsRight, PlannedArgs, DirectArgs, Finish, WellTyped;
    if n > 0 {
      PlannedIsDirect(prog, n - 1, g);
      var s := PlannedTo(prog, n - 1, g);
      if s.stop.None? {
        PlannedIsPossible(prog, n - 1, g);
        RightLinkIsDirect(prog, n - 1, s.log);
      }
    }
  }

  /** Alignment is sufficient.  After an aligned prefix it is necessary too, but for fields that are the same on every
    guest. */
  lemma {:induction false} AlignmentIsExact(prog: seq<Request>, k: nat, g: Guest)
    requires WellTypedBatch(prog) && Linked(prog, k) && Target(prog, k) < k
    requires AlignedBefore(prog, k) && RunTo(prog, k, g).stop.None?
    ensures AlwaysDocumented(prog, k) <==> LinkIsRight(prog, k)
    ensures AlignedAt(prog, k) ==> LinkIsRight(prog, k)
    ensures FieldKind(prog, k, Target(prog, k), Item(prog, k)) == Varies ==>
              (AlwaysDocumented(prog, k) <==> AlignedAt(prog, k))
  {
    hide RunTo, LogFor, Documented, FieldKind, AlignedAt, SourceOf;
    RunIsPossible(prog, k, g);
    LinkIsRightIff(prog, k, RunTo(prog, k, g).log);
    AlignedIffNamed(prog, k);
  }

  // ---------- the smallest pointer chase ----------

  /** Read a pointer, then read what it points to. */
  function FollowPointer(a: int, b: int): (prog: seq<Request>)
    requires InRange(Uint64, a) && InRange(Uint64, b)
    ensures WellTypedBatch(prog)
  {
    [ Request(ReadAddr(Va), [Some(a), Some(0)], None),
      Request(ReadAddr(Va), [Some(b), Some(0)], Some(Link(0, 0, 0, Add))) ]
  }

  /** The answer to a READ_ADDR_VA of the kernel. */
  function PointerAt(g: Guest, at: int): Entry { Entry(ReadAddr(Va), ReadReply(ReadBytes(g, Va, 0, at, at + 8))) }

  lemma {:induction false} FollowPointerRanks(prog: seq<Request>)
    requires |prog| == 2 && prog[0].call == prog[1].call == ReadAddr(Va)
    ensures RequestTags(prog) == [64, 64] && RankOf(prog, 0) == 0 && RankOf(prog, 1) == 1
  {
    assert RequestTags(prog) == [64, 64];
    assert [64, 64][..1] == [64] && [64, 64][..0] == [] && [64][..0] == [];
    assert Count([64], 64) == 1;
  }

  lemma {:induction false} FirstRead(a: int, b: int, g: Guest)
    requires InRange(Uint64, a) && InRange(Uint64, b)
    ensures var prog := FollowPointer(a, b);
            RunTo(prog, 1, g) == DirectTo(prog, 1, g) == State([PointerAt(g, a)], START, g, None)
  {
    var prog := FollowPointer(a, b);
    FollowPointerRanks(prog);
    assert RunTo(prog, 1, g) == Step(prog, 0, State([], START, g, None));
    assert DirectTo(prog, 1, g) == DirectStep(prog, 0, State([], START, g, None));
  }

  /** Index 1 is past the one reply there is, so the search finds nothing and the link carries 0. */
  lemma {:induction false} SecondSearchMisses(e: Entry, link: Link)
    requires e.call == ReadAddr(Va) && link.prevMsg == 0
    ensures Resolve([e], START, 1, link, [64, 64]).0 == Ok(0)
    ensures !Lands(ReplyTags([e]), START, 1, 0)
  {
    assert ReplyTags([e]) == [65];
    assert Above([65], 65) == {};
    assert [65][..0] == [];
    ColumnLength([65], [e], 65);
    assert Count([65], 65) == 1;
  }

  lemma LinkedRead(b: int, prior: int)
    requires InRange(Uint64, b)
    ensures Combine(FollowPointer(0, b)[1], Link(0, 0, 0, Add), prior) == Ok([Some((b + prior) % UINT64), Some(0)])
  {
    var args := FollowPointer(0, b)[1].args;
    assert args[0 := Some((b + prior) % UINT64)] == [Some((b + prior) % UINT64), Some(0)];
  }

  lemma {:induction false} FinishRead(at: int, index: nat, s: State)
    requires s.stop.None?
    ensures Finish(ReadAddr(Va), index, Ok([Some(at), Some(0)]), s).log
         == s.log + [PointerAt(s.guest, at)]
  {}

  lemma {:induction false} SecondReadByRun(a: int, b: int, g: Guest)
    requires InRange(Uint64, a) && InRange(Uint64, b)
    ensures RunTo(FollowPointer(a, b), 2, g).log == RunTo(FollowPointer(a, b), 1, g).log + [PointerAt(g, b)]
  {
    var prog := FollowPointer(a, b);
    FollowPointerRanks(prog);
    FirstRead(a, b, g);
    var s := RunTo(prog, 1, g);
    SecondSearchMisses(s.log[0], prog[1].link.value);
    LinkedRead(b, 0);
    var (args, c) := LinkStep(s.log, s.cursors, 1, prog[1], [64, 64]);
    assert args == Ok([Some(b), Some(0)]);
    FinishRead(b, 1, s.(cursors := c));
  }

  lemma {:induction false} SecondReadDirectly(a: int, b: int, g: Guest, at: int)
    requires InRange(Uint64, a) && InRange(Uint64, b) && at == (b + ToU64(NumberOf(PointerAt(g, a).reply))) % UINT64
    ensures DirectTo(FollowPointer(a, b), 2, g).log == DirectTo(FollowPointer(a, b), 1, g).log + [PointerAt(g, at)]
  {
    var prog := FollowPointer(a, b);
    FollowPointerRanks(prog);
    FirstRead(a, b, g);
    var s := DirectTo(prog, 1, g);
    LinkedRead(b, ToU64(NumberOf(s.log[0].reply)));
    assert DirectArgs(s.log, prog[1]) == Ok([Some(at), Some(0)]);
    FinishRead(at, 1, s);
  }

  /** The documented meaning fails on the simplest pipeline there is: the second call reads at `b`, not at `b` plus the
    pointer.  It searches READ_ADDR_VA_RET from its own index 1, past the only reply. */
  lemma {:induction false} FollowPointerReadsElsewhere(a: int, b: int, g: Guest, at: int)
    requires InRange(Uint64, a) && InRange(Uint64, b) && at == (b + ToU64(NumberOf(PointerAt(g, a).reply))) % UINT64
    ensures RunTo(FollowPointer(a, b), 2, g).log == [PointerAt(g, a)] + [PointerAt(g, b)]
    ensures DirectTo(FollowPointer(a, b), 2, g).log == [PointerAt(g, a)] + [PointerAt(g, at)]
  {
    FirstRead(a, b, g);
    SecondReadByRun(a, b, g);
    SecondReadDirectly(a, b, g, at);
  }

  /** There it shows, on a guest that holds a pointer to 8 at 0, and a 1 at 8: the run replies with the pointer
    twice. */
  lemma {:induction false} FollowPointerShows()
    ensures RunTo(FollowPointer(0, 0), 2, SmallGuest(1)).log != DirectTo(FollowPointer(0, 0), 2, SmallGuest(1)).log
  {
    hide RunTo, DirectTo, SmallGuest, ReadBytes;
    var g := SmallGuest(1);
    SmallGuestReads(1, 0);
    SmallGuestReads(1, 8);
    assert PointerAt(g, 0) != PointerAt(g, 8);
    FollowPointerReadsElsewhere(0, 0, g, 8);
    assert ([PointerAt(g, 0)] + [PointerAt(g, 0)])[1] == PointerAt(g, 0);
    assert ([PointerAt(g, 0)] + [PointerAt(g, 8)])[1] == PointerAt(g, 8);
  }
}

/** Link arithmetic in fixed width, against the integers: what one link computes, and where whole runs agree. */
module LinkArithmetic {
  import opened Wrappers
  import opened Schema
  import opened GuestMemory
  import opened Execution
  import opened Refinement

  // ---------- one link ----------

  function ArgOr0(r: Request, k: nat): int
    requires k < |r.args|
  {
    if r.args[k].Some? then r.args[k].value else 0
  }

  /** Into a 64-bit argument, F_ADD adds integers exactly when the sum fits, and wraps otherwise. */
  lemma AddIsExactIffItFits(r: Request, link: Link, prior: int)
    requires WellTyped(r) && link.op == Add && 0 <= prior < UINT64
    requires link.curItem < |r.args| && ArgTypes(r.call)[link.curItem] == Uint64
    ensures var sum := ArgOr0(r, link.curItem) + prior;
            && (Combine(r, link, prior) == Ok(r.args[link.curItem := Some(sum)]) <==> sum < UINT64)
            && (sum >= UINT64 ==> Combine(r, link, prior) == Ok(r.args[link.curItem := Some(sum - UINT64)]))
  {
    var k, sum := link.curItem, ArgOr0(r, link.curItem) + prior;
    assert Combine(r, link, prior) == Ok(r.args[k := Some(sum % UINT64)]);
    assert r.args[k := Some(sum % UINT64)][k] == Some(sum % UINT64) && r.args[k := Some(sum)][k] == Some(sum);
  }

  /** F_SUB is refused exactly when the difference would be negative, and is that difference otherwise. */
  lemma SubIsRefusedIffNegative(r: Request, link: Link, prior: int)
    requires WellTyped(r) && link.op == Sub && 0 <= prior < UINT64
    requires link.curItem < |r.args| && ArgTypes(r.call)[link.curItem] == Uint64
    ensures var difference := ArgOr0(r, link.curItem) - prior;
            Combine(r, link, prior) == if difference < 0 then Err(BatchError(26))
                                       else Ok(r.args[link.curItem := Some(difference)])
  {}

  lemma SameLowBits(a: int, b: int, q: int)
    requires a == b + q * UINT32
    ensures a % UINT32 == b % UINT32
  {}

  /** Into an int32 argument, the sign extension to 64 bits and the truncation back cancel: F_ADD stores the 32-bit
    two's complement sum. */
  lemma Int32AddWrapsAt32Bits(current: int, prior: int)
    ensures ToInt32(Operate(Add, ToU64(current), prior).value) == ToInt32(current + prior)
    ensures InRange(Int32, current + prior) ==> ToInt32(current + prior) == current + prior
  {
    var sum := ToU64(current) + prior;
    SameLowBits(sum, current + prior, -(current / UINT64) * UINT32);
    SameLowBits(sum % UINT64, sum, -(sum / UINT64) * UINT32);
  }

  /** So only the low 32 bits of the operands matter. */
  lemma Int32AddUsesLowBitsOnly(current: int, current': int, prior: int, prior': int)
    requires current % UINT32 == current' % UINT32 && prior % UINT32 == prior' % UINT32
    ensures ToInt32(Operate(Add, ToU64(current), prior).value) == ToInt32(Operate(Add, ToU64(current'), prior').value)
  {
    Int32AddWrapsAt32Bits(current, prior);
    Int32AddWrapsAt32Bits(current', prior');
    var q := current / UINT32 - current' / UINT32 + (prior / UINT32 - prior' / UINT32);
    SameLowBits(current + prior, current' + prior', q);
  }

  // ---------- an interpreter over the integers ----------

  /** Operate without a width. */
  function IntegerOperate(op: Operator, current: int, prior: int): Result<int, Fault> {
    match op
    case Add => Ok(current + prior)
    case Sub => if current < prior then Err(BatchError(26)) else Ok(current - prior)
    case Overwrite => Ok(prior)
  }

  function IntegerCombine(r: Request, link: Link, prior: int): Result<seq<Option<int>>, Fault>
    requires |r.args| == |ArgTypes(r.call)|
  {
    if FieldCount(r.call) < link.curItem then Err(BatchError(22))
    else if FieldCount(r.call) == link.curItem then Err(Undefined)
    else if FieldAt(r.call, link.curItem) !in {Uint64, Int32} then Err(BatchError(25))
    else
      match IntegerOperate(link.op, ArgOr0(r, link.curItem), prior)
      case Err(f) => Err(f)
      case Ok(v) => Ok(r.args[link.curItem := Some(v)])
  }

  /** Whether a width of type `t` makes no difference. */
  predicate Fits(t: FieldType, op: Operator, current: int, prior: int) {
    match op
    case Add => InRange(t, current + prior)
    case Sub => 0 <= current || current + UINT64 < prior
    case Overwrite => InRange(t, prior)
  }

  /** What a result becomes when it is stored in a field. */
  function Stored(t: FieldType, v: Result<int, Fault>): Result<int, Fault> {
    if v.Ok? && !t.Uint64? then Ok(ToInt32(v.value)) else v
  }

  lemma {:induction false} AddIsExactIff(t: FieldType, current: int, prior: int)
    requires t in {Uint64, Int32} && InRange(t, current) && 0 <= prior < UINT64
    ensures Stored(t, Operate(Add, ToU64(current), prior)) == Ok(current + prior) <==> InRange(t, current + prior)
  {
    if t.Int32? { Int32AddWrapsAt32Bits(current, prior); }
  }

  lemma {:induction false} SubIsExactIff(t: FieldType, current: int, prior: int)
    requires t in {Uint64, Int32} && InRange(t, current) && 0 <= prior < UINT64
    ensures Stored(t, Operate(Sub, ToU64(current), prior)) == IntegerOperate(Sub, current, prior)
            <==> Fits(t, Sub, current, prior)
  {}

  lemma {:induction false} OperateIsExactIff(t: FieldType, op: Operator, current: int, prior: int)
    requires t in {Uint64, Int32} && InRange(t, current) && 0 <= prior < UINT64
    ensures Stored(t, Operate(op, ToU64(current), prior)) == IntegerOperate(op, current, prior)
            <==> Fits(t, op, current, prior)
  {
    match op
    case Add => AddIsExactIff(t, current, prior);
    case Sub => SubIsExactIff(t, current, prior);
    case Overwrite =>
  }

  /** Exactly then do a link's 64-bit operation and its conversions compute what the integers would. */
  lemma {:induction false} CombineIsExactIffItFits(r: Request, link: Link, prior: int)
    requires WellTyped(r) && 0 <= prior < UINT64
    requires link.curItem < |r.args| && ArgTypes(r.call)[link.curItem] in {Uint64, Int32}
    ensures Combine(r, link, prior) == IntegerCombine(r, link, prior)
            <==> Fits(ArgTypes(r.call)[link.curItem], link.op, ArgOr0(r, link.curItem), prior)
  {
    var k, t := link.curItem, ArgTypes(r.call)[link.curItem];
    var current := ArgOr0(r, k);
    OperateIsExactIff(t, link.op, current, prior);
    hide Operate, ToU64, ToInt32, IntegerOperate, Fits, InRange;
    var fixed, exact := Stored(t, Operate(link.op, ToU64(current), prior)), IntegerOperate(link.op, current, prior);
    if fixed.Ok? && exact.Ok? {
      assert r.args[k := Some(fixed.value)][k] == Some(fixed.value);
      assert r.args[k := Some(exact.value)][k] == Some(exact.value);
    }
  }

  /** DirectArgs over the integers. */
  function IntegerArgs(log: seq<Entry>, r: Request): (args: Result<seq<Option<int>>, Fault>)
    requires WellTyped(r)
    ensures args.Ok? ==> |args.value| == |ArgTypes(r.call)|
  {
    if r.link.None? then Ok(r.args)
    else if r.link.value.prevMsg >= |log| then Err(Undefined)
    else
      match ReplyField(log[r.link.value.prevMsg], r.link.value.prevItem)
      case Err(f) => Err(f)
      case Ok(v) => IntegerCombine(r, r.link.value, v)
  }

  function IntegerTo(prog: seq<Request>, n: nat, g: Guest): State
    requires WellTypedBatch(prog) && n <= |prog|
  {
    if n == 0 then State([], START, g, None)
    else
      var s := IntegerTo(prog, n - 1, g);
      if s.stop.Some? then s
      else Finish(prog[n - 1].call, RankOf(prog, n - 1), IntegerArgs(s.log, prog[n - 1]), s)
  }

  /** The link of a request, if it gets as far as an operation on a value. */
  predicate ArgsFit(log: seq<Entry>, r: Request)
    requires WellTyped(r)
  {
    r.link.Some? && r.link.value.prevMsg < |log| ==>
      var link := r.link.value;
      var v := ReplyField(log[link.prevMsg], link.prevItem);
      v.Ok? && link.curItem < |r.args| && ArgTypes(r.call)[link.curItem] in {Uint64, Int32} ==>
        Fits(ArgTypes(r.call)[link.curItem], link.op, ArgOr0(r, link.curItem), v.value)
  }

  lemma {:induction false} ArgsAreExactIffTheyFit(log: seq<Entry>, r: Request)
    requires WellTyped(r)
    ensures DirectArgs(log, r) == IntegerArgs(log, r) <==> ArgsFit(log, r)
  {
    if r.link.Some? && r.link.value.prevMsg < |log| {
      var link := r.link.value;
      var v := ReplyField(log[link.prevMsg], link.prevItem);
      if v.Ok? && link.curItem < |r.args| && ArgTypes(r.call)[link.curItem] in {Uint64, Int32} {
        CombineIsExactIffItFits(r, link, v.value);
      }
    }
  }

  /** Whether call k, if the run gets there, computes its argument without a wrap. */
  ghost predicate FitsAt(prog: seq<Request>, k: nat, g: Guest)
    requires WellTypedBatch(prog) && k < |prog|
  {
    var s := DirectTo(prog, k, g);
    s.stop.None? ==> ArgsFit(s.log, prog[k])
  }

  /** A run in which every link fits is a run over the integers. */
  lemma {:induction false} RunIsExactIfAllFit(prog: seq<Request>, n: nat, g: Guest)
    requires WellTypedBatch(prog) && n <= |prog| && forall k | 0 <= k < n :: FitsAt(prog, k, g)
    ensures DirectTo(prog, n, g) == IntegerTo(prog, n, g)
    decreases n
  {
    if n > 0 {
      RunIsExactIfAllFit(prog, n - 1, g);
      assert FitsAt(prog, n - 1, g);
      var s := DirectTo(prog, n - 1, g);
      if s.stop.None? { ArgsAreExactIffTheyFit(s.log, prog[n - 1]); }
    }
  }

  /** So the cached executor computes with integers on every aligned batch whose links fit. */
  lemma {:induction false} AlignedRunIsExactIfAllFit(prog: seq<Request>, n: nat, g: Guest)
    requires WellTypedBatch(prog) && n <= |prog| && AlignedBefore(prog, n)
    requires forall k | 0 <= k < n :: FitsAt(prog, k, g)
    ensures var (s, i) := (RunTo(prog, n, g), IntegerTo(prog, n, g));
            s.log == i.log && s.guest == i.guest && s.stop == i.stop
  {
    AlignedRefinesDirect(prog, n, g);
    RunIsExactIfAllFit(prog, n, g);
  }
}

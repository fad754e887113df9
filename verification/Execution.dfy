/** What the VMI partition computes for a batch: the meaning of furnace.cpp's dispatch loop as functions.

  The replies are kept as one log in call order; `Furnace` keeps the same log as columns.  Two meanings are defined:
  `RunTo` resolves links with the value cache and the two forward-only cursors, `DirectTo` reads the reply that a link
  names. */
module Execution {
  import opened Wrappers
  import opened Schema
  import opened GuestMemory
  import opened Columns

  datatype Operator = Add | Sub | Overwrite

  /** message Linkage; an unset member reads as 0, an unset operator as F_ADD. */
  datatype Link = Link(prevMsg: nat, prevItem: nat, curItem: nat, op: Operator)

  /** One call; `args` follows ArgTypes, and an argument that was never set is None. */
  datatype Request = Request(call: Call, args: seq<Option<int>>, link: Option<Link>)

  datatype Value = Num(n: int) | Bytes(s: seq<Byte>)

  datatype Reply = Reply(result: Option<Value>, status: int)

  /** A reply message with its descriptor. */
  datatype Entry = Entry(call: Call, reply: Reply)

  /** Why a batch stops: set_batch_error(num), or an access outside its bounds, which C++ leaves undefined. */
  datatype Fault = BatchError(num: int) | Undefined

  predicate WellTyped(r: Request) {
    && |r.args| == |ArgTypes(r.call)|
    && (forall k | 0 <= k < |r.args| :: r.args[k].Some? ==> InRange(ArgTypes(r.call)[k], r.args[k].value))
    && (r.link.Some? ==> Linkable(r.call))
  }

  predicate WellTypedBatch(prog: seq<Request>) { forall i | 0 <= i < |prog| :: WellTyped(prog[i]) }

  function RequestTags(prog: seq<Request>): (tags: seq<nat>)
    ensures |tags| == |prog|
  {
    seq(|prog|, i requires 0 <= i < |prog| => Tag(prog[i].call))
  }

  function ReplyTags(log: seq<Entry>): (tags: seq<nat>)
    ensures |tags| == |log|
  {
    seq(|log|, i requires 0 <= i < |log| => ReplyTag(log[i].call))
  }

  // ---------- operations on one call ----------

  /** (uint64_t) v, for an int32 or a uint64 */
  function ToU64(v: int): int { v % UINT64 }

  /** (int32_t) v, for a uint64 */
  function ToInt32(v: int): int {
    var low := v % UINT32;
    if low <= INT32_MAX then low else low - UINT32
  }

  /** Reads field `item` of a reply as the 64-bit value a link carries. */
  function ReplyField(e: Entry, item: nat): Result<int, Fault> {
    var types := ReplyTypes(e.call);
    if |types| < item then Err(BatchError(18))
    else if |types| == item then Err(Undefined)
    else if item == |types| - 1 then Ok(ToU64(e.reply.status))
    else
      match types[item]
      case Uint64 => Ok(ToU64(NumberOf(e.reply)))
      case Uint32 => Ok(ToU64(NumberOf(e.reply)))
      case _ => Err(BatchError(20))
  }

  function NumberOf(r: Reply): int {
    if r.result.Some? && r.result.value.Num? then r.result.value.n else 0
  }

  /** Applies a link's operator to the current argument and the earlier result, in 64 bits. */
  function Operate(op: Operator, current: int, prior: int): Result<int, Fault> {
    match op
    case Add => Ok((current + prior) % UINT64)
    case Sub => if current < prior then Err(BatchError(26)) else Ok(current - prior)
    case Overwrite => Ok(prior)
  }

  /** Puts the earlier result into the linked argument of a request. */
  function Combine(r: Request, link: Link, prior: int): Result<seq<Option<int>>, Fault>
    requires |r.args| == |ArgTypes(r.call)|
  {
    if FieldCount(r.call) < link.curItem then Err(BatchError(22))
    else if FieldCount(r.call) == link.curItem then Err(Undefined)
    else if FieldAt(r.call, link.curItem) !in {Uint64, Int32} then Err(BatchError(25))
    else
      var k := link.curItem;
      var current := if r.args[k].Some? then r.args[k].value else 0;
      match Operate(link.op, ToU64(current), prior)
      case Err(f) => Err(f)
      case Ok(v) => Ok(r.args[k := Some(if FieldAt(r.call, k).Uint64? then v else ToInt32(v))])
  }

  /** Runs one call on the guest.  A request with an argument missing gets a reply with status VMI_FAILURE. */
  function Execute(c: Call, args: seq<Option<int>>, g: Guest): (Result<Reply, Fault>, Guest)
    requires |args| == |ArgTypes(c)|
  {
    match c
    case PauseVm => (Ok(Reply(None, 0)), g.(pauses := g.pauses + 1))
    case ResumeVm => (Ok(Reply(None, 0)), g.(pauses := g.pauses - 1))
    case _ =>
      if exists k | 0 <= k < |args| :: args[k].None? then (Ok(Reply(None, 1)), g)
      else Access(c, args, g)
  }

  function Access(c: Call, args: seq<Option<int>>, g: Guest): (Result<Reply, Fault>, Guest)
    requires Linkable(c)
    requires |args| == |ArgTypes(c)| && forall k | 0 <= k < |args| :: args[k].Some?
  {
    var addr := args[0].value;
    var pid := if c.space.Va? then args[1].value else 0;
    match c
    case ReadInt(size, space) => (Ok(ReadReply(ReadBytes(g, space, pid, addr, addr + size.Bytes()))), g)
    case ReadAddr(space) => (Ok(ReadReply(ReadBytes(g, space, pid, addr, addr + 8))), g)
    case ReadStr(space) =>
      (match ReadText(g, space, pid, addr)
       case Some(s) => Ok(Reply(Some(Bytes(s)), 0))
       case None => if space.Pa? then Err(Undefined) else Ok(Reply(None, 1)),
       g)
    case WriteInt(size, space) =>
      match WriteBytes(g, space, pid, addr, addr + size.Bytes(), args[|args| - 1].value)
      case Some(g') => (Ok(Reply(None, 0)), g')
      case None => (Ok(Reply(None, 1)), g)
  }

  /** A failed integer read still stores its initial 0 as the result. */
  function ReadReply(v: Option<nat>): Reply {
    match v
    case Some(n) => Reply(Some(Num(n)), 0)
    case None => Reply(Some(Num(0)), 1)
  }

  // ---------- link resolution as the code does it ----------

  /** The link cache and the cursors; all are reset for each batch. */
  datatype Cursors = Cursors(cache: map<nat, int>, nthType: nat, nthField: nat)

  function Above(tags: seq<nat>, tag: nat): (larger: set<nat>)
    ensures forall t :: t in larger <==> t in tags && t > tag
  {
    set t | t in tags && t > tag
  }

  /** How many non-empty reply fields have a larger number than `tag`, if `tags` are the replies' types so far. */
  function Depth(tags: seq<nat>, tag: nat): nat { |Above(tags, tag)| }

  /** A link whose message is not in the cache: search forward from the cursors, and cache what is found, or 0. */
  function Search(log: seq<Entry>, c: Cursors, index: nat, link: Link, expected: nat): (Result<int, Fault>, Cursors) {
    var tags := ReplyTags(log);
    if !(c.nthType <= link.prevMsg < |log|) then
      (Ok(0), c.(cache := c.cache[link.prevMsg := 0]))
    else
      var tag := tags[link.prevMsg];
      var c' := c.(nthType := link.prevMsg);
      var j := index - Depth(tags, tag);
      var column := Column(tags, log, tag);
      if !(c.nthField <= j < |column|) then
        (Ok(0), c'.(cache := c.cache[link.prevMsg := 0]))
      else if tag != expected then (Err(BatchError(17)), c')
      else
        match ReplyField(column[j], link.prevItem)
        case Err(f) => (Err(f), c')
        case Ok(v) => (Ok(v), Cursors(c.cache[link.prevMsg := v], link.prevMsg, j))
  }

  /** The value a link carries.  `types` are the request types of the whole batch. */
  function Resolve(log: seq<Entry>, c: Cursors, index: nat, link: Link, types: seq<nat>)
    : (Result<int, Fault>, Cursors)
  {
    if |log| <= c.nthType then (Err(BatchError(10)), c)
    else if |types| < link.prevMsg then (Err(BatchError(11)), c)
    else if |types| == link.prevMsg then (Err(Undefined), c)
    else if link.prevMsg in c.cache then (Ok(c.cache[link.prevMsg]), c)
    else Search(log, c, index, link, types[link.prevMsg] + 1)
  }

  /** process_link: the request's arguments once its link, if any, is applied. */
  function LinkStep(log: seq<Entry>, c: Cursors, index: nat, r: Request, types: seq<nat>)
    : (Result<seq<Option<int>>, Fault>, Cursors)
    requires WellTyped(r)
  {
    if r.link.None? then (Ok(r.args), c)
    else
      var (v, c') := Resolve(log, c, index, r.link.value, types);
      if v.Err? then (Err(v.error), c') else (Combine(r, r.link.value, v.value), c')
  }

  // ---------- whole batches ----------

  /** A batch that stops: what stopped it, and the index of the call in its column (error_loc). */
  datatype Stop = Stop(fault: Fault, loc: nat)

  datatype State = State(log: seq<Entry>, cursors: Cursors, guest: Guest, stop: Option<Stop>)

  const START := Cursors(map[], 0, 0)

  /** process_single: link the request, run it, and append its reply. */
  function Single(r: Request, index: nat, types: seq<nat>, s: State): State
    requires WellTyped(r)
  {
    var (args, c') := LinkStep(s.log, s.cursors, index, r, types);
    Finish(r.call, index, args, s.(cursors := c'))
  }

  function Step(prog: seq<Request>, k: nat, s: State): State
    requires WellTypedBatch(prog) && k < |prog|
  {
    Single(prog[k], Rank(RequestTags(prog), k), RequestTags(prog), s)
  }

  function Finish(c: Call, index: nat, args: Result<seq<Option<int>>, Fault>, s: State): State
    requires args.Ok? ==> |args.value| == |ArgTypes(c)|
  {
    match args
    case Err(f) => s.(stop := Some(Stop(f, index)))
    case Ok(a) =>
      var (reply, g') := Execute(c, a, s.guest);
      match reply
      case Err(f) => s.(stop := Some(Stop(f, index)), guest := g')
      case Ok(rep) => s.(log := s.log + [Entry(c, rep)], guest := g')
  }

  /** The state when the first `n` messages have been taken up; nothing runs after a stop. */
  function RunTo(prog: seq<Request>, n: nat, g: Guest): State
    requires WellTypedBatch(prog) && n <= |prog|
  {
    if n == 0 then State([], START, g, None)
    else
      var s := RunTo(prog, n - 1, g);
      if s.stop.Some? then s else Step(prog, n - 1, s)
  }

  /** The most messages one batch may hold. */
  const MAX_MESSAGES := 1000

  /** process_protobuf: a batch that is too long is answered by an empty reply. */
  function Process(prog: seq<Request>, g: Guest): State
    requires WellTypedBatch(prog)
  {
    if |prog| > MAX_MESSAGES then State([], START, g, None) else RunTo(prog, |prog|, g)
  }

  // ---------- the simple form ----------

  /** A link reads the reply it names. */
  function DirectArgs(log: seq<Entry>, r: Request): Result<seq<Option<int>>, Fault>
    requires WellTyped(r)
  {
    if r.link.None? then Ok(r.args)
    else if r.link.value.prevMsg >= |log| then Err(Undefined)
    else
      match ReplyField(log[r.link.value.prevMsg], r.link.value.prevItem)
      case Err(f) => Err(f)
      case Ok(v) => Combine(r, r.link.value, v)
  }

  function DirectStep(prog: seq<Request>, k: nat, s: State): State
    requires WellTypedBatch(prog) && k < |prog|
  {
    Finish(prog[k].call, Rank(RequestTags(prog), k), DirectArgs(s.log, prog[k]), s)
  }

  function DirectTo(prog: seq<Request>, n: nat, g: Guest): State
    requires WellTypedBatch(prog) && n <= |prog|
  {
    if n == 0 then State([], START, g, None)
    else
      var s := DirectTo(prog, n - 1, g);
      if s.stop.Some? then s else DirectStep(prog, n - 1, s)
  }
}

/** The VMI partition's batch engine: the state that furnace.cpp updates in place, over columnar messages. */
module FurnaceEngine {
  import opened Wrappers
  import opened Schema
  import opened GuestMemory
  import opened Columns
  import opened Execution

  /** A reply VMIMessage: error_num and error_loc are set together. */
  datatype ReplyMessage = ReplyMessage(body: Columnar<Entry>, error: Option<(int, nat)>)

  /** The numbers of the non-empty reply fields up to `n`, largest first: ListFields, read in reverse. */
  function FieldsBelow(cols: map<nat, seq<Entry>>, n: nat): (fields: seq<nat>)
    ensures forall t :: t in fields <==> 1 <= t <= n && Slot(cols, t) != []
    ensures forall i, j :: 0 <= i < j < |fields| ==> fields[i] > fields[j]
  {
    if n == 0 then []
    else
      var rest := FieldsBelow(cols, n - 1);
      assert forall i | 0 <= i < |rest| :: rest[i] in rest;
      if Slot(cols, n) != [] then [n] + rest else rest
  }

  function Largest(tags: seq<nat>): (n: nat)
    ensures forall t | t in tags :: t <= n
  {
    if tags == [] then 0
    else
      var n := Largest(tags[1..]);
      assert forall t | t in tags :: t == tags[0] || t in tags[1..];
      if tags[0] > n then tags[0] else n
  }

  function ListFields(types: seq<nat>, cols: map<nat, seq<Entry>>): seq<nat> {
    FieldsBelow(cols, Largest(types))
  }

  /** A field's place in that list is the number of fields with a larger number. */
  lemma {:induction false} FieldDepth(fields: seq<nat>, i: nat)
    requires i < |fields|
    requires forall a, b :: 0 <= a < b < |fields| ==> fields[a] > fields[b]
    ensures Depth(fields, fields[i]) == i
  {
    if i == 0 {
      assert Above(fields, fields[0]) == {};
    } else {
      FieldDepth(fields, i - 1);
      assert Above(fields, fields[i]) == Above(fields, fields[i - 1]) + {fields[i - 1]};
    }
  }

  lemma SameDepth(a: seq<nat>, b: seq<nat>, tag: nat)
    requires forall t :: t in a <==> t in b
    ensures Depth(a, tag) == Depth(b, tag)
  {
    assert Above(a, tag) == Above(b, tag);
  }

  lemma ColumnNonEmpty<T>(tags: seq<nat>, items: seq<T>, tag: nat)
    requires |tags| == |items|
    ensures Column(tags, items, tag) != [] <==> tag in tags
  {
    ColumnLength(tags, items, tag);
    CountPositive(tags, tag);
  }

  lemma FieldsAreTypes(types: seq<nat>, cols: map<nat, seq<Entry>>, log: seq<Entry>)
    requires Encodes(Columnar(types, cols), ReplyTags(log), log)
    ensures forall t :: t in ListFields(types, cols) <==> t in types
  {
    forall t
      ensures t in ListFields(types, cols) <==> t in types
    {
      ColumnNonEmpty(types, log, t);
      if t in types {
        var i :| 0 <= i < |types| && types[i] == t;
        assert t == ReplyTag(log[i].call);
      }
    }
  }

  lemma DepthOfField(types: seq<nat>, cols: map<nat, seq<Entry>>, log: seq<Entry>, d: nat)
    requires Encodes(Columnar(types, cols), ReplyTags(log), log)
    requires d < |ListFields(types, cols)|
    ensures Depth(types, ListFields(types, cols)[d]) == d
  {
    var fields := ListFields(types, cols);
    FieldsAreTypes(types, cols, log);
    FieldDepth(fields, d);
    SameDepth(fields, types, fields[d]);
  }

  /** typecount after messages of types `tags`: absent, or one less than the count. */
  ghost predicate IsTypecount(typecount: map<nat, nat>, tags: seq<nat>) {
    && (forall t :: t in typecount <==> Count(tags, t) > 0)
    && (forall t :: t in typecount ==> typecount[t] == Count(tags, t) - 1)
  }

  function Bump(typecount: map<nat, nat>, t: nat): map<nat, nat> {
    typecount[t := if t in typecount then typecount[t] + 1 else 0]
  }

  /** Taking up message i makes its entry the message's rank. */
  lemma BumpGivesRank(typecount: map<nat, nat>, tags: seq<nat>, i: nat)
    requires i < |tags| && IsTypecount(typecount, tags[..i])
    ensures IsTypecount(Bump(typecount, tags[i]), tags[..i + 1])
    ensures Bump(typecount, tags[i])[tags[i]] == Rank(tags, i)
  {
    assert tags[..i + 1][..i] == tags[..i];
  }

  class Furnace {
    // the guest behind DRAKVUF
    var guest: Guest
    // link cache and cursors
    var cache: map<nat, int>
    var nthType: nat
    var nthFieldIx: nat
    var msgno: nat
    // msg_out
    var types: seq<nat>
    var cols: map<nat, seq<Entry>>
    var error: Option<(int, nat)>
    // the replies in call order
    ghost var log: seq<Entry>

    ghost predicate Valid()
      reads this
    {
      && Encodes(Columnar(types, cols), ReplyTags(log), log)
      && msgno == |log|
    }

    ghost function TheCursors(): Cursors
      reads this
    {
      Cursors(cache, nthType, nthFieldIx)
    }

    /** The state of a batch that has not been stopped. */
    ghost function TheState(): State
      reads this
    {
      State(log, TheCursors(), guest, None)
    }

    constructor (g: Guest)
      ensures Valid() && guest == g
    {
      guest := g;
      cache, nthType, nthFieldIx, msgno := map[], 0, 0, 0;
      types, cols, error, log := [], map[], None, [];
    }

    /** The first loop of process_link: the reply type at `prevMsg`, looking from the type cursor on; 0 if passed. */
    method FindType(prevMsg: nat) returns (tag: nat)
      modifies this`nthType
      ensures old(nthType) <= prevMsg < |types| ==> tag == types[prevMsg] && nthType == prevMsg
      ensures !(old(nthType) <= prevMsg < |types|) ==> tag == 0 && nthType == old(nthType)
    {
      tag := 0;
      var j := nthType;
      while j < |types|
        invariant old(nthType) <= j && nthType == old(nthType) && tag == 0
        invariant old(nthType) <= prevMsg ==> j <= prevMsg || |types| <= prevMsg
      {
        if j == prevMsg {
          tag := types[j];
          nthType := j;
          return;
        }
        j := j + 1;
      }
    }

    /** The second loop: walk the reply fields from the largest number down, and the wanted field from the shared
      field cursor on, for the element that is `index` steps in. */
    method FindReply(tag: nat, index: nat) returns (found: Option<nat>)
      requires Valid() && (tag == 0 || tag in types)
      ensures found.Some? <==> tag != 0 && nthFieldIx <= index - Depth(types, tag) < |Slot(cols, tag)|
      ensures found.Some? ==> found.value == index - Depth(types, tag)
    {
      var fields := ListFields(types, cols);
      FieldsAreTypes(types, cols, log);
      var d := 0;
      while d < |fields|
        invariant d <= |fields|
        invariant forall k | 0 <= k < d :: fields[k] != tag
      {
        if fields[d] == tag {
          DepthOfField(types, cols, log, d);
          found := FindElement(Slot(cols, tag), d, index);
          return;
        }
        d := d + 1;
      }
      found := None;
    }

    method FindElement(column: seq<Entry>, d: nat, index: nat) returns (found: Option<nat>)
      ensures found.Some? <==> nthFieldIx <= index - d < |column|
      ensures found.Some? ==> found.value == index - d
    {
      var j := nthFieldIx;
      while j < |column|
        invariant nthFieldIx <= j
        invariant nthFieldIx + d <= index ==> j + d <= index
      {
        if index == j + d { return Some(j); }
        j := j + 1;
      }
      return None;
    }

    /** The value of a link: from the cache, or by a search that fills it. */
    method ResolveLink(link: Link, index: nat, inTypes: seq<nat>) returns (prior: Result<int, Fault>)
      requires Valid()
      modifies this`cache, this`nthType, this`nthFieldIx
      ensures (prior, TheCursors()) == Resolve(log, old(TheCursors()), index, link, inTypes)
    {
      if msgno <= nthType { return Err(BatchError(10)); }
      if |inTypes| < link.prevMsg { return Err(BatchError(11)); }
      if |inTypes| == link.prevMsg { return Err(Undefined); }
      if link.prevMsg in cache { return Ok(cache[link.prevMsg]); }
      var msgType := inTypes[link.prevMsg] + 1;
      var tag := FindType(link.prevMsg);
      var found := FindReply(tag, index);
      var value := 0;
      if found.Some? {
        if tag != msgType { return Err(BatchError(17)); }
        var field := ReplyField(Slot(cols, tag)[found.value], link.prevItem);
        if field.Err? { return Err(field.error); }
        value := field.value;
        nthFieldIx := found.value;
      }
      cache := cache[link.prevMsg := value];
      return Ok(value);
    }

    /** process_link, on a copy of the request. */
    method ProcessLink(r: Request, index: nat, inTypes: seq<nat>) returns (args: Result<seq<Option<int>>, Fault>)
      requires Valid() && WellTyped(r)
      modifies this`cache, this`nthType, this`nthFieldIx
      ensures (args, TheCursors()) == LinkStep(log, old(TheCursors()), index, r, inTypes)
    {
      if r.link.None? { return Ok(r.args); }
      var prior := ResolveLink(r.link.value, index, inTypes);
      if prior.Err? { return Err(prior.error); }
      return Combine(r, r.link.value, prior.value);
    }

    /** process_single: link, run, append the reply and its type.  `fault` tells what ended the batch, if anything. */
    method ProcessSingle(r: Request, index: nat, inTypes: seq<nat>) returns (fault: Option<Stop>)
      requires Valid() && WellTyped(r)
      modifies this
      ensures State(log, TheCursors(), guest, fault) == Single(r, index, inTypes, old(TheState()))
      ensures Valid()
      ensures error == if ErrorOf(fault).Some? then ErrorOf(fault) else old(error)
    {
      var args := ProcessLink(r, index, inTypes);
      if args.Err? {
        fault := Some(Stop(args.error, index));
      } else {
        var (reply, g) := Execute(r.call, args.value, guest);
        guest := g;
        if reply.Err? {
          fault := Some(Stop(reply.error, index));
        } else {
          var e := Entry(r.call, reply.value);
          var tag := ReplyTag(r.call);
          AppendEncodes(Columnar(types, cols), ReplyTags(log), log, tag, e);
          cols := cols[tag := Slot(cols, tag) + [e]];
          types := types + [tag];
          log := log + [e];
          assert ReplyTags(log) == types;
          msgno := msgno + 1;
          fault := None;
        }
      }
      if ErrorOf(fault).Some? { error := ErrorOf(fault); }
    }

    /** One turn of the dispatch loop: message i is request `typecount` of its column. */
    method TakeUp(msgIn: Columnar<Request>, i: nat, typecount: map<nat, nat>, ghost prog: seq<Request>, ghost g: Guest)
      returns (typecount': map<nat, nat>, fault: Option<Stop>)
      requires Valid() && i < |prog|
      requires WellTypedBatch(prog) && Encodes(msgIn, RequestTags(prog), prog)
      requires TheState() == RunTo(prog, i, g) && IsTypecount(typecount, msgIn.types[..i])
      modifies this
      ensures Valid() && IsTypecount(typecount', msgIn.types[..i + 1])
      ensures State(log, TheCursors(), guest, fault) == RunTo(prog, i + 1, g)
      ensures error == if ErrorOf(fault).Some? then ErrorOf(fault) else old(error)
    {
      var t := msgIn.types[i];
      BumpGivesRank(typecount, msgIn.types, i);
      typecount' := Bump(typecount, t);
      ColumnAt(RequestTags(prog), prog, i);
      fault := ProcessSingle(Slot(msgIn.cols, t)[typecount'[t]], typecount'[t], msgIn.types);
    }

    /** What process_protobuf resets before each message. */
    method Clear()
      modifies this
      ensures Valid() && error == None && TheState() == State([], START, old(guest), None)
    {
      types, cols, error, log := [], map[], None, [];
      cache, nthType, nthFieldIx, msgno := map[], 0, 0, 0;
    }

    /** The dispatch loop. */
    method Dispatch(msgIn: Columnar<Request>, ghost prog: seq<Request>) returns (fault: Option<Stop>)
      requires Valid() && error == None && TheState() == State([], START, guest, None)
      requires WellTypedBatch(prog) && Encodes(msgIn, RequestTags(prog), prog)
      modifies this
      ensures Valid() && error == ErrorOf(fault)
      ensures State(log, TheCursors(), guest, fault) == RunTo(prog, |prog|, old(guest))
    {
      var typecount: map<nat, nat> := map[];
      var i := 0;
      fault := None;
      while i < |msgIn.types|
        invariant i <= |prog| && Valid() && error == ErrorOf(fault)
        invariant State(log, TheCursors(), guest, fault) == RunTo(prog, i, old(guest))
        invariant IsTypecount(typecount, msgIn.types[..i])
      {
        if fault.Some? {
          StopsForGood(prog, i, |prog|, old(guest));
          break;
        }
        typecount, fault := TakeUp(msgIn, i, typecount, prog, old(guest));
        i := i + 1;
      }
    }

    /** process_protobuf.  None stands for a run that C++ leaves undefined. */
    method ProcessProtobuf(msgIn: Columnar<Request>, ghost prog: seq<Request>) returns (reply: Option<ReplyMessage>)
      requires WellTypedBatch(prog) && Encodes(msgIn, RequestTags(prog), prog)
      modifies this
      ensures Valid() && guest == Process(prog, old(guest)).guest
      ensures reply.None? <==> IsUndefined(Process(prog, old(guest)))
      ensures reply.Some? ==> Answers(reply.value, Process(prog, old(guest)))
    {
      Clear();
      var fault: Option<Stop> := None;
      if |msgIn.types| <= MAX_MESSAGES {
        fault := Dispatch(msgIn, prog);
      }
      if fault.Some? && fault.value.fault.Undefined? { return None; }
      return Some(ReplyMessage(Columnar(types, cols), error));
    }
  }

  predicate IsUndefined(s: State) { s.stop.Some? && s.stop.value.fault.Undefined? }

  /** error_num and error_loc of a batch that stopped with set_batch_error */
  function ErrorOf(stop: Option<Stop>): Option<(int, nat)> {
    if stop.Some? && stop.value.fault.BatchError? then Some((stop.value.fault.num, stop.value.loc)) else None
  }

  /** The reply message lays out the log, and names the error. */
  ghost predicate Answers(m: ReplyMessage, s: State) {
    && Encodes(m.body, ReplyTags(s.log), s.log)
    && m.error == ErrorOf(s.stop)
  }

  lemma StopsForGood(prog: seq<Request>, i: nat, n: nat, g: Guest)
    requires WellTypedBatch(prog) && i <= n <= |prog|
    requires RunTo(prog, i, g).stop.Some?
    ensures RunTo(prog, n, g) == RunTo(prog, i, g)
  {
    if i < n { StopsForGood(prog, i, n - 1, g); }
  }
}

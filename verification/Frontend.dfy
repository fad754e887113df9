/** The frontend's two ways to run a batch: batch_send on a batch object, and batch on an array of dicts. */
module BatchFrontend {
  import opened Wrappers
  import opened Schema
  import opened GuestMemory
  import opened Columns
  import opened Execution
  import opened Refinement
  import opened FurnaceEngine
  import opened BatchSource
  import opened BatchMeaning
  import opened BatchObject

  /** batch_send.  What goes out is the current request, never an earlier serialisation.  Not ok: it raises, or, where
    the VMI partition's run is undefined, no reply comes. */
  method BatchSend(bo: BatchObj, vmi: Furnace) returns (ok: bool)
    requires bo.Valid()
    modifies bo, vmi
    ensures bo.Valid() && bo.source == old(bo.source) && bo.program == old(bo.program)
    ensures old(bo.state) !in {Filling, Serialized} ==> !ok && vmi.guest == old(vmi.guest) && bo.state == old(bo.state)
    ensures old(bo.state) in {Filling, Serialized} ==>
              && vmi.guest == Process(bo.program, old(vmi.guest)).guest
              && (ok <==> !IsUndefined(Process(bo.program, old(vmi.guest))))
    ensures ok ==> bo.state == ResultsRaw && Answers(bo.rawIn, Process(bo.program, old(vmi.guest)))
  {
    if bo.state != Serialized {
      if bo.state != Filling { return false; }
      bo.Serialize();
    }
    var reply := vmi.ProcessProtobuf(bo.rawOut, bo.program);
    if reply.None? { return false; }
    bo.rawIn := reply.value;
    bo.state := ResultsRaw;
    return true;
  }

  /** parse() accepts the reply exactly when no call stopped the batch and it held at most 1000 messages. */
  lemma {:induction false} ParsedIffAllRan(prog: seq<Request>, g: Guest, reply: ReplyMessage)
    requires WellTypedBatch(prog) && Answers(reply, Process(prog, g))
    ensures (|reply.body.types| == |prog| && reply.error.None?)
            <==> Process(prog, g).stop.None? && |prog| <= MAX_MESSAGES
  {
    if |prog| <= MAX_MESSAGES { RunLogs(prog, |prog|, g); }
  }

  // ---------- batch ----------

  /** The four members of an item's link, indices already. */
  datatype ItemLink = ItemLink(prevMsg: int, prevItem: int, curItem: int, opr: int)

  /** One element of a batch array. */
  datatype BatchItem = BatchItem(call: Call, name: string, argv: seq<(string, int)>, link: Option<ItemLink>)

  /** The operator is in ACCEPT_OPR, and the indices fit uint32. */
  predicate ItemLinkOk(l: ItemLink) {
    && OperatorOf(l.opr).Some?
    && InRange(Uint32, l.prevMsg) && InRange(Uint32, l.prevItem) && InRange(Uint32, l.curItem)
  }

  function LinkOfItem(l: ItemLink): Link
    requires ItemLinkOk(l)
  {
    Link(l.prevMsg, l.prevItem, l.curItem, OperatorOf(l.opr).value)
  }

  predicate ItemOk(item: BatchItem) {
    && (forall i | 0 <= i < |item.argv| :: Settable(item.call, item.argv[i]))
    && (item.link.Some? ==> Linkable(item.call) && ItemLinkOk(item.link.value))
  }

  predicate AllOk(items: seq<BatchItem>) { forall i | 0 <= i < |items| :: ItemOk(items[i]) }

  function ItemRequest(item: BatchItem): (r: Request)
    requires ItemOk(item)
    ensures WellTyped(r)
  {
    SetArgsInRange(item.call, item.argv, |item.argv|);
    Request(item.call, SetArgs(item.call, item.argv, |item.argv|),
            if item.link.Some? then Some(LinkOfItem(item.link.value)) else None)
  }

  function ItemRequests(items: seq<BatchItem>): (prog: seq<Request>)
    requires AllOk(items)
    ensures WellTypedBatch(prog) && |prog| == |items|
  {
    seq(|items|, i requires 0 <= i < |items| => ItemRequest(items[i]))
  }

  function ItemNames(items: seq<BatchItem>): (names: seq<string>)
    ensures |names| == |items|
  {
    seq(|items|, i requires 0 <= i < |items| => items[i].name)
  }

  /** resdict: later records replace earlier ones of the same label. */
  function Dict(records: seq<Record>): map<string, map<string, Value>> {
    if records == [] then map[]
    else
      var r := records[|records| - 1];
      Dict(records[..|records| - 1])[r.name := r.fields]
  }

  lemma {:induction false} DictNext(records: seq<Record>, r: Record)
    ensures Dict(records + [r]) == Dict(records)[r.name := r.fields]
  {
    assert (records + [r])[..|records|] == records;
  }

  /** One message of prep_batch; not ok if anything in it raises. */
  method PrepItem(item: BatchItem) returns (submsg: Request, ok: bool)
    ensures ok <==> ItemOk(item)
    ensures ok ==> submsg == ItemRequest(item)
  {
    var link: Option<Link> := None;
    if item.link.Some? {
      if !ItemLinkOk(item.link.value) || !Linkable(item.call) {
        return Request(item.call, NoArgs(item.call), None), false;
      }
      link := Some(LinkOfItem(item.link.value));
    }
    var args;
    args, ok := BatchObj.SetAll(item.call, item.argv);
    submsg := Request(item.call, args, link);
  }

  lemma {:induction false} RequestsNext(items: seq<BatchItem>, i: nat)
    requires i < |items| && AllOk(items[..i]) && ItemOk(items[i])
    ensures AllOk(items[..i + 1]) && ItemRequests(items[..i + 1]) == ItemRequests(items[..i]) + [ItemRequest(items[i])]
  {
    hide ItemRequest;
    assert AllOk(items[..i + 1]) by { AllOkNext(items, i); }
    var more := ItemRequests(items[..i + 1]);
    assert more[..i] == ItemRequests(items[..i]);
    assert more == more[..i] + [more[i]];
  }

  lemma {:induction false} AllOkNext(items: seq<BatchItem>, i: nat)
    requires i < |items| && AllOk(items[..i]) && ItemOk(items[i])
    ensures AllOk(items[..i + 1])
  {
    hide ItemOk;
    var before, more := items[..i], items[..i + 1];
    forall k | 0 <= k < |more|
      ensures ItemOk(more[k])
    {
      if k < i { assert more[k] == before[k]; }
    }
  }

  /** prep_batch: the same message that adds would have built. */
  method PrepBatch(items: seq<BatchItem>) returns (vmsg: Columnar<Request>, ok: bool)
    ensures ok <==> AllOk(items)
    ensures ok ==> IsMessage(vmsg, ItemRequests(items))
  {
    hide ItemOk, ItemRequest, IsMessage, ItemRequests;
    vmsg, ok := NO_REQUEST, true;
    assert IsMessage(vmsg, ItemRequests(items[..0])) by { NoItems(items[..0]); }
    var i := 0;
    while i < |items|
      invariant i <= |items| && AllOk(items[..i]) && IsMessage(vmsg, ItemRequests(items[..i]))
    {
      var submsg, itemOk := PrepItem(items[i]);
      if !itemOk { return vmsg, false; }
      RequestsNext(items, i);
      vmsg := AppendRequest(vmsg, submsg, ItemRequests(items[..i]));
      i := i + 1;
    }
    assert items[..i] == items;
  }

  lemma {:induction false} NoItems(items: seq<BatchItem>)
    requires items == []
    ensures IsMessage(NO_REQUEST, ItemRequests(items))
  {}

  /** process_batch_results.  Its length check compares a message with itself, so only an error raises. */
  method ProcessBatchResults(vmsg: ReplyMessage, items: seq<BatchItem>, ghost log: seq<Entry>)
    returns (resdict: map<string, map<string, Value>>, ok: bool)
    requires Encodes(vmsg.body, ReplyTags(log), log) && |log| <= |items|
    ensures ok <==> vmsg.error.None?
    ensures ok ==> resdict == Dict(Records(ItemNames(items), log))
  {
    resdict, ok := map[], true;
    if vmsg.error.Some? { return map[], false; }
    var typecount: map<nat, nat> := map[];
    var i := 0;
    while i < |vmsg.body.types|
      invariant i <= |log|
      invariant resdict == Dict(Records(ItemNames(items), log[..i]))
      invariant IsCounter(typecount, vmsg.body.types[..i])
    {
      var t := vmsg.body.types[i];
      CounterFinds(typecount, vmsg.body, log, i);
      RecordsNext(ItemNames(items), log, i);
      var ix := Seen(typecount, t);
      typecount := typecount[t := ix + 1];
      resdict := resdict[items[i].name := RecordFields(Slot(vmsg.body.cols, t)[ix])];
      DictNext(Records(ItemNames(items), log[..i]), Record(items[i].name, RecordFields(log[i])));
      i := i + 1;
    }
    assert log[..i] == log;
  }

  /** batch: the dict of all results, or an exception. */
  method Batch(items: seq<BatchItem>, vmi: Furnace) returns (resdict: map<string, map<string, Value>>, ok: bool)
    modifies vmi
    ensures !AllOk(items) ==> !ok && vmi.guest == old(vmi.guest)
    ensures AllOk(items) ==>
              var s := Process(ItemRequests(items), old(vmi.guest));
              && vmi.guest == s.guest && (ok <==> s.stop.None?) && |s.log| <= |items|
              && (ok ==> resdict == Dict(Records(ItemNames(items), s.log)))
  {
    resdict := map[];
    var vmsg;
    vmsg, ok := PrepBatch(items);
    if !ok { return; }
    ghost var prog := ItemRequests(items);
    ghost var s := Process(prog, vmi.guest);
    ProcessLogs(prog, vmi.guest);
    var reply := vmi.ProcessProtobuf(vmsg, prog);
    if reply.None? { return resdict, false; }
    resdict, ok := ProcessBatchResults(reply.value, items, s.log);
  }

  lemma {:induction false} ProcessLogs(prog: seq<Request>, g: Guest)
    requires WellTypedBatch(prog)
    ensures |Process(prog, g).log| <= |prog|
  {
    if |prog| <= MAX_MESSAGES { RunLogs(prog, |prog|, g); }
  }

  // ---------- the two agree ----------

  lemma {:induction false} DictOfDistinct(records: seq<Record>)
    requires forall i, j | 0 <= i < j < |records| :: records[i].name != records[j].name
    ensures forall i | 0 <= i < |records| ::
              records[i].name in Dict(records) && Dict(records)[records[i].name] == records[i].fields
    ensures forall name :: name in Dict(records) ==> exists i :: 0 <= i < |records| && records[i].name == name
  {
    if records != [] {
      var last := |records| - 1;
      DictOfDistinct(records[..last]);
      forall name | name in Dict(records)
        ensures exists i :: 0 <= i < |records| && records[i].name == name
      {
        if name in Dict(records[..last]) {
          var i :| 0 <= i < last && records[..last][i].name == name;
          assert records[i].name == name;
        } else {
          assert records[last].name == name;
        }
      }
    }
  }

  /** With distinct names, the dict holds each record under its name, and nothing else. */
  lemma {:induction false} DictIsTheRecords(names: seq<string>, log: seq<Entry>)
    requires |log| == |names| && forall i, j | 0 <= i < j < |names| :: names[i] != names[j]
    ensures var records, dict := Records(names, log), Dict(Records(names, log));
            && (forall i | 0 <= i < |names| :: records[i].name == names[i] && names[i] in dict
                                               && dict[names[i]] == records[i].fields)
            && (forall name :: name in dict <==> name in names)
  {
    var records := Records(names, log);
    DictOfDistinct(records);
    forall name | name in Dict(records)
      ensures name in names
    {
      var i :| 0 <= i < |records| && records[i].name == name;
    }
  }

  /** Labels and requests of an object and of an array are the same. */
  ghost predicate SameBatch(bo: BatchObj, items: seq<BatchItem>)
    reads bo
  {
    && bo.Valid() && AllOk(items) && DistinctNames(bo.source)
    && Names(bo.source) == ItemNames(items) && bo.program == ItemRequests(items)
  }

  /** results() after batch_send, and batch(), each on a VMI partition over the same guest, for calls under distinct
    labels. They leave the same guest.  For up to 1000 calls one succeeds if and only if the other does, and the dict
    is precisely the map of the records, of which there is one per call in order.  Longer ones part them. */
  method BothApis(bo: BatchObj, items: seq<BatchItem>, vmi: Furnace, other: Furnace)
    returns (records: seq<Record>, recordsOk: bool, dict: map<string, map<string, Value>>, dictOk: bool)
    requires SameBatch(bo, items) && bo.state in {Filling, Serialized}
    requires vmi != other && vmi.guest == other.guest
    modifies bo, vmi, other
    ensures vmi.guest == other.guest
    ensures recordsOk <==> dictOk && |items| <= 1000
    ensures |items| > 1000 ==> dictOk && dict == map[] && vmi.guest == old(vmi.guest)
    ensures recordsOk ==> |records| == |items| && forall i | 0 <= i < |items| :: records[i].name == items[i].name
    ensures recordsOk ==> forall i | 0 <= i < |records| ::
                            records[i].name in dict && dict[records[i].name] == records[i].fields
    ensures recordsOk ==> forall name :: name in dict <==> name in ItemNames(items)
  {
    ghost var prog, s := bo.program, Process(bo.program, vmi.guest);
    records, recordsOk := SendAndCollect(bo, vmi);
    dict, dictOk := Batch(items, other);
    if recordsOk {
      RunLogs(prog, |prog|, old(vmi.guest));
      DictIsTheRecords(ItemNames(items), s.log);
    }
  }

  /** batch_send, and then all of results(). */
  method SendAndCollect(bo: BatchObj, vmi: Furnace) returns (records: seq<Record>, ok: bool)
    requires bo.Valid() && bo.state in {Filling, Serialized}
    modifies bo, vmi
    ensures bo.Valid() && bo.source == old(bo.source) && bo.program == old(bo.program)
    ensures var s := Process(bo.program, old(vmi.guest));
            && vmi.guest == s.guest
            && (ok <==> s.stop.None? && |bo.program| <= MAX_MESSAGES)
            && (ok ==> |s.log| == |bo.source| && records == Records(Names(bo.source), s.log))
  {
    records := [];
    ghost var g, prog := vmi.guest, bo.program;
    ok := BatchSend(bo, vmi);
    if !ok { return; }
    ParsedIffAllRan(prog, g, bo.rawIn);
    records, ok := bo.Results(Process(prog, g).log);
  }

  /** For an aligned program under distinct labels, all of it together - columns out, cursors and cache, columns back -
    yields the records that its names mean, leaves the guest that they mean, and raises exactly where they stop. */
  method RunProgram(bo: BatchObj, vmi: Furnace) returns (records: seq<Record>, ok: bool)
    requires bo.Valid() && bo.state in {Filling, Serialized} && |bo.source| <= MAX_MESSAGES
    requires DistinctNames(bo.source) && TargetsArguments(bo.source) && Aligned(bo.program)
    modifies bo, vmi
    ensures var m := MeaningTo(bo.source, |bo.source|, old(vmi.guest));
            && vmi.guest == m.guest && (ok <==> m.stop.None?) && (ok ==> records == m.records)
    ensures bo.source == old(bo.source)
  {
    ghost var src, prog, g := bo.source, bo.program, vmi.guest;
    records, ok := SendAndCollect(bo, vmi);
    AlignedBatchComputesItsMeaning(src, prog, g);
  }

  /** The same calls with the same arguments are the same requests if and only if their links are. */
  lemma {:induction false} SameRequestsIffSameLinks(src: seq<Added>, prog: seq<Request>, items: seq<BatchItem>)
    requires CompilesTo(src, prog) && AllOk(items) && |items| == |src|
    requires forall k | 0 <= k < |src| :: items[k].call == src[k].call && items[k].argv == src[k].argv
    ensures prog == ItemRequests(items) <==> forall k | 0 <= k < |src| :: prog[k].link == ItemRequest(items[k]).link
  {
    forall k | 0 <= k < |src|
      ensures prog[k] == ItemRequest(items[k]) <==> prog[k].link == ItemRequest(items[k]).link
    {
      assert Builds(src, k, prog[k]);
    }
    if forall k | 0 <= k < |src| :: prog[k].link == ItemRequest(items[k]).link {
      assert forall k | 0 <= k < |src| :: prog[k] == ItemRequests(items)[k];
    }
  }

  /** And with distinct labels a compiled link is an item's link if and only if the item's indices are those of the
    call, the result field and the argument that the add names. */
  lemma {:induction false} LinkIsItemsIff(src: seq<Added>, prog: seq<Request>, k: nat, item: ItemLink)
    requires CompilesTo(src, prog) && DistinctNames(src) && Linked(prog, k) && ItemLinkOk(item)
    requires src[k].link.target != "link"
    ensures var l := src[k].link;
            prog[k].link.value == LinkOfItem(item)
            <==> && item.prevMsg < |src| && src[item.prevMsg].name == l.name
                 && item.prevItem < |ReplyNames(src[item.prevMsg].call)|
                 && ReplyNames(src[item.prevMsg].call)[item.prevItem] == l.field
                 && item.curItem < |ArgNames(src[k].call)| && ArgNames(src[k].call)[item.curItem] == l.target
                 && OperatorOf(item.opr) == OperatorOf(l.opr)
  {
    LinksMeanWhatTheySay(src, prog, k);
    CompiledIsWellTyped(src, prog);
    hide CompilesTo, WellTypedBatch, HasLink;
    var link := prog[k].link.value;
    assert src[link.prevMsg].name == src[k].link.name;
    assert "result"[0] != "status"[0];
    if item.curItem < |ArgNames(src[k].call)| {
      PositionOfArg(src[k].call, item.curItem);
      PositionOfArg(src[k].call, link.curItem);
    }
  }

  /** They part on batches of more than 1000 messages, whatever they hold: the reply is empty, which parse() refuses and
    batch() takes for an empty result. */
  method ClientApisPartOnLongBatches(bo: BatchObj, items: seq<BatchItem>, vmi: Furnace, other: Furnace)
    returns (recordsOk: bool, dict: map<string, map<string, Value>>, dictOk: bool)
    requires bo.Valid() && bo.state in {Filling, Serialized} && |bo.program| > 1000
    requires AllOk(items) && |items| > 1000 && vmi != other
    modifies bo, vmi, other
    ensures !recordsOk && dictOk && dict == map[]
    ensures vmi.guest == old(vmi.guest) && other.guest == old(other.guest)
  {
    var _, ok := SendAndCollect(bo, vmi);
    recordsOk := ok;
    dict, dictOk := Batch(items, other);
  }
}

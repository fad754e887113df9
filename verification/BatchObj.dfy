/** app_partition/batch_obj.py: the object a tenant fills, sends and reads back. */
module BatchObject {
  import opened Wrappers
  import opened Schema
  import opened Columns
  import opened Execution
  import opened FurnaceEngine
  import opened BatchSource
  import opened BatchMeaning

  datatype BatchState = Empty | Filling | Serialized | ResultsRaw | ResultsParsed

  const NO_REQUEST: Columnar<Request> := Columnar([], map[])
  const NO_REPLY: ReplyMessage := ReplyMessage(Columnar([], map[]), None)

  // ---------- decoding ----------

  /** typecount as results() keeps it: the number of elements of each type seen so far. */
  ghost predicate IsCounter(typecount: map<nat, nat>, tags: seq<nat>) {
    forall t :: Count(tags, t) == if t in typecount then typecount[t] else 0
  }

  function Seen(typecount: map<nat, nat>, t: nat): nat { if t in typecount then typecount[t] else 0 }

  /** The counter leads to element i of a message that lays out `log`, and then moves on. */
  lemma {:induction false} CounterFinds(typecount: map<nat, nat>, body: Columnar<Entry>, log: seq<Entry>, i: nat)
    requires Encodes(body, ReplyTags(log), log) && i < |log| && IsCounter(typecount, body.types[..i])
    ensures Seen(typecount, body.types[i]) < |Slot(body.cols, body.types[i])|
    ensures Slot(body.cols, body.types[i])[Seen(typecount, body.types[i])] == log[i]
    ensures IsCounter(typecount[body.types[i] := Seen(typecount, body.types[i]) + 1], body.types[..i + 1])
  {
    ColumnAt(body.types, log, i);
    assert body.types[..i + 1][..i] == body.types[..i];
  }

  lemma {:induction false} RecordsNext(names: seq<string>, log: seq<Entry>, i: nat)
    requires i < |log| && i < |names|
    ensures Records(names, log[..i + 1]) == Records(names, log[..i]) + [Record(names[i], RecordFields(log[i]))]
  {}

  /** The loop of results(): walk the reply's types, counting each, and name each element.  Raises past the names. */
  method Decode(body: Columnar<Entry>, names: seq<string>, ghost log: seq<Entry>)
    returns (records: seq<Record>, raised: bool)
    requires Encodes(body, ReplyTags(log), log)
    ensures raised <==> |log| > |names|
    ensures records == Records(names, if raised then log[..|names|] else log)
  {
    records, raised := [], false;
    var typecount: map<nat, nat> := map[];
    var i := 0;
    while i < |body.types|
      invariant i <= |log| && i <= |names|
      invariant records == Records(names, log[..i])
      invariant IsCounter(typecount, body.types[..i])
    {
      if i == |names| { return records, true; }
      var t := body.types[i];
      CounterFinds(typecount, body, log, i);
      RecordsNext(names, log, i);
      var ix := Seen(typecount, t);
      typecount := typecount[t := ix + 1];
      records := records + [Record(names[i], RecordFields(Slot(body.cols, t)[ix]))];
      i := i + 1;
    }
    assert log[..i] == log;
  }

  // ---------- encoding ----------

  ghost predicate IsMessage(m: Columnar<Request>, prog: seq<Request>) { Encodes(m, RequestTags(prog), prog) }

  /** request.type.append(msgnum), and add() on the repeated field of that number */
  method AppendRequest(m: Columnar<Request>, r: Request, ghost prog: seq<Request>) returns (m': Columnar<Request>)
    requires IsMessage(m, prog)
    ensures IsMessage(m', prog + [r]) && m'.types == m.types + [Tag(r.call)]
  {
    AppendEncodes(m, RequestTags(prog), prog, Tag(r.call), r);
    assert RequestTags(prog + [r]) == RequestTags(prog) + [Tag(r.call)];
    m' := Append(m, Tag(r.call), r);
  }

  /** The bookkeeping of the adds in `src`, which built `prog`. */
  ghost predicate Describes(src: seq<Added>, prog: seq<Request>, names: seq<string>, namemap: map<string, Call>) {
    && CompilesTo(src, prog) && WellTypedBatch(prog)
    && names == Names(src) && namemap == NameMap(src)
  }

  lemma {:induction false} DescribesNext(src: seq<Added>, prog: seq<Request>, names: seq<string>,
                                         namemap: map<string, Call>,
                                         a: Added, r: Request)
    requires Describes(src, prog, names, namemap) && CompileAdd(names, namemap, a) == Some(r)
    ensures Describes(src + [a], prog + [r], names + [a.name], namemap[a.name := a.call])
  {
    CompileExtends(src, prog, a, r);
    assert (src + [a])[..|src|] == src;
  }

  lemma {:induction false} CompileExtends(src: seq<Added>, prog: seq<Request>, a: Added, r: Request)
    requires CompilesTo(src, prog) && WellTypedBatch(prog) && CompileAdd(Names(src), NameMap(src), a) == Some(r)
    ensures CompilesTo(src + [a], prog + [r]) && WellTypedBatch(prog + [r])
  {
    var src', prog' := src + [a], prog + [r];
    assert src'[..|src|] == src;
    forall k | 0 <= k < |src'|
      ensures Builds(src', k, prog'[k])
    {
      if k < |src| {
        assert src'[..k] == src[..k];
        assert Builds(src, k, prog[k]);
      }
    }
  }

  class BatchObj {
    var request: Columnar<Request>
    var reply: ReplyMessage
    var namemap: map<string, Call>
    var order: seq<nat>
    var namestack: seq<string>
    var rawOut: Columnar<Request>
    var rawIn: ReplyMessage
    var state: BatchState
    // the adds since the last reset, and the requests they built
    ghost var source: seq<Added>
    ghost var program: seq<Request>

    /** The invariant over every sequence of calls that return normally.  Serialising and parsing a message are inverse,
      so a raw message is represented by the message. */
    ghost predicate Valid()
      reads this
    {
      && Describes(source, program, namestack, namemap)
      && IsMessage(request, program)
      && order == request.types
      && (state in {Serialized, ResultsRaw} ==> rawOut == request)
    }

    constructor ()
      ensures Valid() && source == [] && state == Empty
    {
      request, reply, rawOut, rawIn := NO_REQUEST, NO_REPLY, NO_REQUEST, NO_REPLY;
      namemap, order, namestack, state := map[], [], [], Empty;
      source, program := [], [];
    }

    method Reset()
      modifies this
      ensures Valid() && source == [] && state == Empty
      ensures rawOut == NO_REQUEST && rawIn == reply == NO_REPLY
    {
      request, reply, rawOut, rawIn := NO_REQUEST, NO_REPLY, NO_REQUEST, NO_REPLY;
      namemap, order, namestack, state := map[], [], [], Empty;
      source, program := [], [];
    }

    /** Sets the arguments one by one; the first that protobuf refuses raises. */
    static method SetAll(c: Call, argv: seq<(string, int)>) returns (args: seq<Option<int>>, ok: bool)
      ensures ok <==> forall i | 0 <= i < |argv| :: Settable(c, argv[i])
      ensures ok ==> args == SetArgs(c, argv, |argv|)
      ensures |args| == |ArgTypes(c)|
    {
      args, ok := NoArgs(c), true;
      var i := 0;
      while i < |argv|
        invariant i <= |argv| && forall k | 0 <= k < i :: Settable(c, argv[k])
        invariant args == SetArgs(c, argv, i)
      {
        if !Settable(c, argv[i]) { return args, false; }
        args := SetArg(c, args, argv[i]);
        i := i + 1;
      }
    }

    /** The message that an add builds; not ok if anything in it raises. */
    method Build(a: Added) returns (submsg: Request, ok: bool)
      ensures ok <==> CompileAdd(namestack, namemap, a).Some?
      ensures ok ==> submsg == CompileAdd(namestack, namemap, a).value
      ensures submsg.call == a.call
    {
      var args;
      args, ok := SetAll(a.call, a.argv);
      submsg := Request(a.call, args, None);
      if ok && HasLink(a.link) {
        var link := CompileLink(namestack, namemap, a.call, a.link);
        ok := link.Some?;
        submsg := submsg.(link := link);
      }
    }

    /** Adds a call, or raises.  An add that raises has already put its type, and a message, into the request; the
      object is then unusable until reset. */
    method Add(a: Added) returns (ok: bool)
      requires Valid()
      modifies this
      ensures ok <==> CompileAdd(old(namestack), old(namemap), a).Some?
      ensures ok ==> Valid() && source == old(source) + [a] && state == Filling
                     && program == old(program) + [CompileAdd(old(namestack), old(namemap), a).value]
      ensures !ok ==> request.types == old(request.types) + [Tag(a.call)] && state == old(state)
                      && namestack == old(namestack) && order == old(order) && namemap == old(namemap)
      ensures rawOut == old(rawOut) && rawIn == old(rawIn) && reply == old(reply)
    {
      var submsg;
      submsg, ok := Build(a);
      request := AppendRequest(request, submsg, program);
      if ok { Remember(a, submsg); }
    }

    /** The last lines of add. */
    method Remember(a: Added, submsg: Request)
      requires Describes(source, program, namestack, namemap)
      requires CompileAdd(namestack, namemap, a) == Some(submsg)
      requires IsMessage(request, program + [submsg]) && request.types == order + [Tag(a.call)]
      modifies this`source, this`program, this`namemap, this`namestack, this`order, this`state
      ensures Valid() && source == old(source) + [a] && program == old(program) + [submsg] && state == Filling
    {
      DescribesNext(source, program, namestack, namemap, a, submsg);
      source, program := source + [a], program + [submsg];
      namemap := namemap[a.name := a.call];
      namestack := namestack + [a.name];
      order := order + [Tag(a.call)];
      state := Filling;
    }

    method Serialize()
      requires Valid()
      modifies this`state, this`rawOut
      ensures Valid() && state == Serialized && rawOut == request
    {
      state := Serialized;
      rawOut := request;
    }

    /** Raises unless every request was answered and no error came back. */
    method Parse() returns (ok: bool)
      requires Valid()
      modifies this`state, this`reply
      ensures Valid() && reply == rawIn
      ensures ok <==> |rawIn.body.types| == |source| && rawIn.error.None?
      ensures state == if ok then ResultsParsed else old(state)
    {
      reply := rawIn;
      if |request.types| != |reply.body.types| { return false; }
      if reply.error.Some? { return false; }
      state := ResultsParsed;
      return true;
    }

    /** The records in call order.  `log` is the replies as the VMI partition produced them. */
    method Results(ghost log: seq<Entry>) returns (records: seq<Record>, ok: bool)
      requires Valid()
      requires Encodes((if state == ResultsRaw then rawIn else reply).body, ReplyTags(log), log)
      modifies this`state, this`reply
      ensures Valid()
      ensures old(state) == ResultsRaw ==> (ok <==> |log| == |source| && rawIn.error.None?)
      ensures ok ==> |log| <= |source| && records == Records(Names(source), log)
      ensures old(state) == ResultsRaw && ok ==> state == ResultsParsed
    {
      records, ok := [], true;
      if state == ResultsRaw {
        ok := Parse();
        if !ok { return; }
      }
      var raised;
      records, raised := Decode(reply.body, namestack, log);
      ok := !raised;
    }

    /** The number of replies. */
    method ResultsSize() returns (n: nat, ok: bool)
      requires Valid()
      modifies this`state, this`reply
      ensures Valid()
      ensures old(state) != ResultsRaw ==> ok && n == |old(reply).body.types|
                                               && reply == old(reply) && state == old(state)
      ensures old(state) == ResultsRaw ==> (ok <==> |rawIn.body.types| == |source| && rawIn.error.None?)
      ensures old(state) == ResultsRaw && ok ==> n == |source| && state == ResultsParsed
    {
      n, ok := 0, true;
      if state == ResultsRaw { ok := Parse(); }
      if ok { n := |reply.body.types|; }
    }
  }
}

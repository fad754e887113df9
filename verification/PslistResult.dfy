/** What the process-list pipeline returns, at every length and for every guest memory. */
module PslistResult {
  import opened Wrappers
  import opened Schema
  import opened GuestMemory
  import opened Execution
  import opened FurnaceEngine
  import opened BatchSource
  import opened BatchMeaning
  import opened BatchObject
  import opened BatchFrontend
  import opened CallMeaning
  import opened Pslist

  // ---------- the list in guest memory ----------

  /** The pointer stored at an address of the kernel. */
  function Next(g: Guest, at: int): (v: Option<nat>)
    ensures v.Some? ==> v.value < UINT64
  {
    assert Pow256(8) == UINT64;
    ReadBytes(g, Va, 0, at, at + 8)
  }

  /** The list entry i pointers on from `head`; a pointer that cannot be read counts as 0. */
  function Walk(g: Guest, head: int, i: nat): (at: int)
    requires InRange(Uint64, head)
    ensures InRange(Uint64, at)
  {
    if i == 0 then head
    else
      match Next(g, Walk(g, head, i - 1))
      case Some(v) => v
      case None => 0
  }

  /** The address of one part of a list entry's process. */
  function Where(l: Lookups, node: int, part: nat): int
    requires part < 3
  {
    (node + Offset(l, part)) % UINT64
  }

  /** The name, the pid, or the next pointer, read at an address. */
  function PartReply(g: Guest, part: nat, at: int): Reply
    requires part < 3
  {
    if part == 0 then
      match ReadText(g, Va, 0, at)
      case Some(s) => Reply(Some(Bytes(s)), 0)
      case None => Reply(None, 1)
    else if part == 1 then ReadReply(ReadBytes(g, Va, 0, at, at + 4))
    else ReadReply(Next(g, at))
  }

  function HopRecord(l: Lookups, g: Guest, i: nat, part: nat): Record
    requires InRange(Uint64, Head(l)) && part < 3
  {
    Record(Label(i, PartChar(part)),
           RecordFields(Entry(PartCall(part), PartReply(g, part, Where(l, Walk(g, Head(l), i), part)))))
  }

  function RecordAt(l: Lookups, g: Guest, n: nat, k: nat): Record
    requires InRange(Uint64, Head(l)) && k < 3 * n + 2
  {
    if k == 0 then Record("000", map["status" := Num(0)])
    else if k == 3 * n + 1 then Record("001", map["status" := Num(0)])
    else HopRecord(l, g, (k - 1) / 3, (k - 1) % 3)
  }

  /** The first k records. */
  function ExpectedRecords(l: Lookups, g: Guest, n: nat, k: nat): (records: seq<Record>)
    requires InRange(Uint64, Head(l)) && k <= 3 * n + 2
    ensures |records| == k
  {
    seq(k, j requires 0 <= j < k => RecordAt(l, g, n, j))
  }

  // ---------- the meaning of each call ----------

  lemma {:induction false} HopDict(v: int)
    ensures var argv := [("vaddr", v), ("pid", 0)];
            ArgDict(argv, |argv|) == map["vaddr" := v, "pid" := 0]
    ensures Position(["vaddr", "pid"], "vaddr") == Some(0)
  {
    var argv := [("vaddr", v), ("pid", 0)];
    assert ArgDict(argv, 2) == ArgDict(argv, 1)["pid" := 0];
    assert ArgDict(argv, 1) == ArgDict(argv, 0)["vaddr" := v];
  }

  /** The pointer record of a hop holds the next hop's entry. */
  lemma {:induction false} PointerRecord(l: Lookups, g: Guest, i: nat)
    requires InRange(Uint64, Head(l))
    ensures var fields := HopRecord(l, g, i, 2).fields;
            "result" in fields && fields["result"] == Num(Walk(g, Head(l), i + 1))
  {
    assert Where(l, Walk(g, Head(l), i), 2) == Walk(g, Head(l), i);
  }

  /** F_ADD of a 64-bit result into `vaddr` */
  lemma {:induction false} AddPointer(part: nat, off: int, node: int, link: LinkArgs,
                                      env: map<string, map<string, Value>>)
    requires part < 3 && InRange(Uint64, off) && InRange(Uint64, node)
    requires link.field == "result" && link.target == "vaddr" && link.opr == 1
    requires link.name in env && "result" in env[link.name] && env[link.name]["result"] == Num(node)
    ensures ApplyLink(PartCall(part), map["vaddr" := off, "pid" := 0], link, env)
         == Ok(map["vaddr" := (off + node) % UINT64, "pid" := 0])
  {
    assert ArgNames(PartCall(part)) == ["vaddr", "pid"];
    assert Position(["vaddr", "pid"], "vaddr") == Some(0);
    assert Operate(Add, ToU64(off), ToU64(node)) == Ok((off + node) % UINT64);
    assert map["vaddr" := off, "pid" := 0]["vaddr" := (off + node) % UINT64]
        == map["vaddr" := (off + node) % UINT64, "pid" := 0];
  }

  /** The arguments of a part: hop 0 reads in place, later hops add the pointer to the offset. */
  lemma {:induction false} HopArgs(l: Lookups, g: Guest, i: nat, part: nat, env: map<string, map<string, Value>>)
    requires Usable(l) && part < 3
    requires i > 0 ==> Label(i - 1, '3') in env && env[Label(i - 1, '3')] == HopRecord(l, g, i - 1, 2).fields
    ensures var a := HopAdd(l, i, part);
            var dict := ArgDict(a.argv, |a.argv|);
            (if HasLink(a.link) then ApplyLink(a.call, dict, a.link, env) else Ok(dict))
            == Ok(map["vaddr" := Where(l, Walk(g, Head(l), i), part), "pid" := 0])
  {
    var a := HopAdd(l, i, part);
    HopDict(a.argv[0].1);
    if i > 0 {
      PointerRecord(l, g, i - 1);
      AddPointer(part, Offset(l, part), Walk(g, Head(l), i), a.link, env);
    }
  }

  lemma {:induction false} HopExecutes(g: Guest, p: int, part: nat, at: int)
    requires part < 3
    ensures Execute(PartCall(part), ArgList(PartCall(part), map["vaddr" := at, "pid" := 0]), g.(pauses := p))
         == (Ok(PartReply(g, part, at)), g.(pauses := p))
  {
    var args := ArgList(PartCall(part), map["vaddr" := at, "pid" := 0]);
    assert args == [Some(at), Some(0)];
    TextIgnoresPauses(g, p, Va, 0, at);
    ReadsIgnorePauses(g, p, Va, 0, at, at + 4);
    ReadsIgnorePauses(g, p, Va, 0, at, at + 8);
  }

  lemma {:induction false} HopStep(l: Lookups, g: Guest, i: nat, part: nat, m: Meaning)
    requires Usable(l) && part < 3
    requires m.stop.None? && m.guest == g.(pauses := g.pauses + 1)
    requires i > 0 ==> Label(i - 1, '3') in m.env && m.env[Label(i - 1, '3')] == HopRecord(l, g, i - 1, 2).fields
    ensures var r := HopRecord(l, g, i, part);
            MeaningStep(HopAdd(l, i, part), m) == Meaning(m.env[r.name := r.fields], m.records + [r], m.guest, None)
  {
    HopArgs(l, g, i, part, m.env);
    HopExecutes(g, g.pauses + 1, part, Where(l, Walk(g, Head(l), i), part));
  }

  lemma {:induction false} EndStep(a: Added, m: Meaning)
    requires a in {PAUSE, RESUME} && m.stop.None?
    ensures var fields: map<string, Value> := map["status" := Num(0)];
            var change := if a == PAUSE then 1 else -1;
            MeaningStep(a, m) == Meaning(m.env[a.name := fields], m.records + [Record(a.name, fields)],
                                         m.guest.(pauses := m.guest.pauses + change), None)
  {
    assert |NoArgs(a.call)| == 1;
  }

  // ---------- the whole batch ----------

  /** After k messages: the expected records, all to be found under their labels, and a guest paused in between. */
  ghost predicate Reached(l: Lookups, g: Guest, n: nat, k: nat, m: Meaning)
    requires InRange(Uint64, Head(l)) && k <= 3 * n + 2
  {
    && m.stop.None?
    && m.records == ExpectedRecords(l, g, n, k)
    && m.guest == (if 0 < k < 3 * n + 2 then g.(pauses := g.pauses + 1) else g)
    && forall j | 0 <= j < k :: RecordAt(l, g, n, j).name in m.env
                                && m.env[RecordAt(l, g, n, j).name] == RecordAt(l, g, n, j).fields
  }

  lemma {:induction false} RecordName(l: Lookups, g: Guest, n: nat, k: nat)
    requires InRange(Uint64, Head(l)) && k < 3 * n + 2
    ensures RecordAt(l, g, n, k).name == Source(l, n)[k].name
  {}

  lemma {:induction false} RecordNamesDiffer(l: Lookups, g: Guest, n: nat, j: nat, k: nat)
    requires InRange(Uint64, Head(l)) && j < k < 3 * n + 2
    ensures RecordAt(l, g, n, j).name != RecordAt(l, g, n, k).name
  {
    NamesAreDistinct(l, n);
    RecordName(l, g, n, j);
    RecordName(l, g, n, k);
    assert Source(l, n)[j].name != Source(l, n)[k].name;
  }

  /** m' is m with one more record. */
  ghost predicate Extends(m: Meaning, r: Record, guest: Guest, m': Meaning) {
    m' == Meaning(m.env[r.name := r.fields], m.records + [r], guest, None)
  }

  lemma {:induction false} ReachedNext(l: Lookups, g: Guest, n: nat, k: nat, m: Meaning, r: Record, m': Meaning)
    requires InRange(Uint64, Head(l)) && k < 3 * n + 2 && Reached(l, g, n, k, m) && r == RecordAt(l, g, n, k)
    requires Extends(m, r, if k < 3 * n + 1 then g.(pauses := g.pauses + 1) else g, m')
    ensures Reached(l, g, n, k + 1, m')
  {
    forall j | 0 <= j < k + 1
      ensures var q := RecordAt(l, g, n, j); q.name in m'.env && m'.env[q.name] == q.fields
    {
      if j < k { RecordNamesDiffer(l, g, n, j, k); }
    }
    assert m'.records == ExpectedRecords(l, g, n, k + 1);
  }

  lemma {:induction false} FirstExtends(l: Lookups, g: Guest, n: nat, m: Meaning)
    requires InRange(Uint64, Head(l)) && Reached(l, g, n, 0, m)
    ensures Extends(m, RecordAt(l, g, n, 0), g.(pauses := g.pauses + 1), MeaningStep(PAUSE, m))
  {
    EndStep(PAUSE, m);
  }

  lemma {:induction false} LastExtends(l: Lookups, g: Guest, n: nat, m: Meaning)
    requires InRange(Uint64, Head(l)) && Reached(l, g, n, 3 * n + 1, m)
    ensures Extends(m, RecordAt(l, g, n, 3 * n + 1), g, MeaningStep(RESUME, m))
  {
    EndStep(RESUME, m);
    assert g.(pauses := g.pauses + 1).(pauses := g.pauses) == g;
  }

  lemma {:induction false} HopExtends(l: Lookups, g: Guest, n: nat, i: nat, part: nat, m: Meaning)
    requires Usable(l) && i < n && part < 3 && Reached(l, g, n, 3 * i + 1 + part, m)
    ensures Extends(m, HopRecord(l, g, i, part), g.(pauses := g.pauses + 1), MeaningStep(HopAdd(l, i, part), m))
  {
    if i > 0 {
      assert RecordAt(l, g, n, 3 * i) == HopRecord(l, g, i - 1, 2);
    }
    HopStep(l, g, i, part, m);
  }

  lemma {:induction false} StepExtends(l: Lookups, g: Guest, n: nat, k: nat, m: Meaning)
    requires Usable(l) && k < 3 * n + 2 && Reached(l, g, n, k, m)
    ensures Extends(m, RecordAt(l, g, n, k), if k < 3 * n + 1 then g.(pauses := g.pauses + 1) else g,
                    MeaningStep(AddAt(l, n, k), m))
  {
    if k == 0 {
      FirstExtends(l, g, n, m);
    } else if k == 3 * n + 1 {
      LastExtends(l, g, n, m);
    } else {
      HopExtends(l, g, n, (k - 1) / 3, (k - 1) % 3, m);
    }
  }

  lemma {:induction false} ReachedStep(l: Lookups, g: Guest, n: nat, k: nat, m: Meaning)
    requires Usable(l) && k < 3 * n + 2 && Reached(l, g, n, k, m)
    ensures Reached(l, g, n, k + 1, MeaningStep(AddAt(l, n, k), m))
  {
    StepExtends(l, g, n, k, m);
    ReachedNext(l, g, n, k, m, RecordAt(l, g, n, k), MeaningStep(AddAt(l, n, k), m));
  }

  lemma {:induction false} PslistMeans(l: Lookups, g: Guest, n: nat, k: nat)
    requires Usable(l) && k <= 3 * n + 2
    ensures Reached(l, g, n, k, MeaningTo(Source(l, n), k, g))
    decreases k
  {
    if k > 0 {
      PslistMeans(l, g, n, k - 1);
      ReachedStep(l, g, n, k - 1, MeaningTo(Source(l, n), k - 1, g));
    }
  }

  /** At every length up to 1000 messages and on every guest, the batch runs to its end, leaves the guest as it was, and
    decodes to the name, the pid and the next pointer of the list entry at each hop, in order, under the labels of the
    program. */
  lemma {:induction false} PslistReturnsTheList(l: Lookups, n: nat, prog: seq<Request>, g: Guest)
    requires Usable(l) && 3 * n + 2 <= MAX_MESSAGES && IsPslist(l, n, prog)
    ensures var s := Process(prog, g);
            && s.stop.None? && s.guest == g && |s.log| == 3 * n + 2
            && Records(Names(Source(l, n)), s.log) == ExpectedRecords(l, g, n, 3 * n + 2)
  {
    NamesAreDistinct(l, n);
    TargetsAreArguments(l, n);
    PslistShape(l, n, prog);
    PslistIsAligned(n, prog);
    AlignedBatchComputesItsMeaning(Source(l, n), prog, g);
    PslistMeans(l, g, n, 3 * n + 2);
  }

  // ---------- what the records say of guest memory ----------

  /** The text at a place of the guest, or status 1. */
  ghost predicate ShowsText(g: Guest, at: int, fields: map<string, Value>) {
    && "result" in fields && "status" in fields
    && if Breaks(g, Place(Va, 0, at)) then fields["status"] == Num(1) && fields["result"] == Bytes([])
       else fields["status"] == Num(0) && exists s :: fields["result"] == Bytes(s) && HoldsText(g, Va, 0, at, s)
  }

  /** The number in the n bytes there, or status 1. */
  ghost predicate ShowsNumber(g: Guest, at: int, n: nat, fields: map<string, Value>) {
    && "result" in fields && "status" in fields
    && if AllMapped(g, Va, 0, at, at + n)
       then fields["status"] == Num(0) && exists v :: fields["result"] == Num(v) && HoldsNumber(g, Va, 0, at, n, v)
       else fields["status"] == Num(1) && fields["result"] == Num(0)
  }

  /** Three records: of the list entry at `node`, the name, the pid and the pointer, which is the entry `next`. */
  ghost predicate ShowsHop(g: Guest, l: Lookups, node: int, next: int, name: Record, pid: Record, pointer: Record) {
    && ShowsText(g, (node + l.name - l.tasks) % 0x1_0000_0000_0000_0000, name.fields)
    && ShowsNumber(g, (node + l.pid - l.tasks) % 0x1_0000_0000_0000_0000, 4, pid.fields)
    && ShowsNumber(g, node, 8, pointer.fields)
    && pointer.fields["result"] == Num(next)
  }

  lemma {:induction false} NameShows(g: Guest, at: int)
    ensures ShowsText(g, at, RecordFields(Entry(PartCall(0), PartReply(g, 0, at))))
  {
    hide ReadText, Breaks, HoldsText;
    TextIsReplied(g, Place(Va, 0, at));
    assert "result"[0] != "status"[0];
  }

  lemma {:induction false} PidShows(g: Guest, at: int)
    ensures ShowsNumber(g, at, 4, RecordFields(Entry(PartCall(1), PartReply(g, 1, at))))
  {
    hide ReadBytes, AllMapped, HoldsNumber;
    NumberIsReplied(g, Place(Va, 0, at), 4);
    assert "result"[0] != "status"[0];
  }

  lemma {:induction false} PointerShows(g: Guest, at: int)
    ensures ShowsNumber(g, at, 8, RecordFields(Entry(PartCall(2), PartReply(g, 2, at))))
  {
    hide ReadBytes, AllMapped, HoldsNumber;
    NumberIsReplied(g, Place(Va, 0, at), 8);
    assert "result"[0] != "status"[0];
  }

  lemma {:induction false} HopShows(l: Lookups, g: Guest, i: nat)
    requires InRange(Uint64, Head(l))
    ensures ShowsHop(g, l, Walk(g, Head(l), i), Walk(g, Head(l), i + 1),
                     HopRecord(l, g, i, 0), HopRecord(l, g, i, 1), HopRecord(l, g, i, 2))
  {
    hide RecordFields, PartReply, Walk, ShowsText, ShowsNumber;
    var node := Walk(g, Head(l), i);
    PointerRecord(l, g, i);
    assert Where(l, node, 2) == node && node + (l.name - l.tasks) == node + l.name - l.tasks;
    NameShows(g, Where(l, node, 0));
    PidShows(g, Where(l, node, 1));
    PointerShows(g, Where(l, node, 2));
  }

  /** The records of the n hops, under their labels, for list entries that begin at the head and follow the pointers. */
  ghost predicate ShowsList(g: Guest, l: Lookups, n: nat, nodes: seq<int>, records: seq<Record>) {
    && |records| == 3 * n + 2 && |nodes| == n + 1 && nodes[0] == l.initTask + l.tasks
    && (forall i | 0 <= i < n :: ShowsHopAt(g, l, n, i, nodes, records))
  }

  ghost predicate ShowsHopAt(g: Guest, l: Lookups, n: nat, i: nat, nodes: seq<int>, records: seq<Record>)
    requires i < n && |records| == 3 * n + 2 && |nodes| == n + 1
  {
    && records[3 * i + 1].name == Label(i, '1')
    && records[3 * i + 2].name == Label(i, '2')
    && records[3 * i + 3].name == Label(i, '3')
    && ShowsHop(g, l, nodes[i], nodes[i + 1], records[3 * i + 1], records[3 * i + 2], records[3 * i + 3])
  }

  lemma {:induction false} ExpectedShowsHop(l: Lookups, g: Guest, n: nat, i: nat, nodes: seq<int>)
    requires InRange(Uint64, Head(l)) && i < n && |nodes| == n + 1
    requires nodes[i] == Walk(g, Head(l), i) && nodes[i + 1] == Walk(g, Head(l), i + 1)
    ensures ShowsHopAt(g, l, n, i, nodes, ExpectedRecords(l, g, n, 3 * n + 2))
  {
    hide ShowsHop, Walk, Label, HopRecord, RecordAt;
    HopShows(l, g, i);
    HopNames(l, g, i);
    HopRecordsAt(l, g, n, i);
  }

  lemma {:induction false} ExpectedShowsList(l: Lookups, g: Guest, n: nat) returns (nodes: seq<int>)
    requires InRange(Uint64, Head(l))
    ensures ShowsList(g, l, n, nodes, ExpectedRecords(l, g, n, 3 * n + 2))
  {
    hide ShowsHopAt, Walk, RecordAt;
    nodes := seq(n + 1, i requires 0 <= i => Walk(g, Head(l), i));
    WalkStarts(g, Head(l));
    var records := ExpectedRecords(l, g, n, 3 * n + 2);
    forall i | 0 <= i < n
      ensures ShowsHopAt(g, l, n, i, nodes, records)
    {
      ExpectedShowsHop(l, g, n, i, nodes);
    }
  }

  /** So, in terms of guest memory alone: the records of each hop are the text of the name, the four bytes of the pid
    and the eight bytes of the pointer, at the entry that the pointer before says, beginning at the head. */
  lemma {:induction false} PslistRecordsHold(l: Lookups, n: nat, prog: seq<Request>, g: Guest)
    returns (nodes: seq<int>)
    requires Usable(l) && 3 * n + 2 <= 1000 && IsPslist(l, n, prog)
    ensures |Process(prog, g).log| == 3 * n + 2
    ensures ShowsList(g, l, n, nodes, Records(Names(Source(l, n)), Process(prog, g).log))
  {
    hide Process, ShowsList, ExpectedRecords, Records, IsPslist;
    PslistReturnsTheList(l, n, prog, g);
    nodes := ExpectedShowsList(l, g, n);
  }

  lemma {:induction false} WalkStarts(g: Guest, head: int)
    requires InRange(Uint64, head)
    ensures Walk(g, head, 0) == head
  {}

  lemma {:induction false} HopNames(l: Lookups, g: Guest, i: nat)
    requires InRange(Uint64, Head(l))
    ensures HopRecord(l, g, i, 0).name == Label(i, '1') && HopRecord(l, g, i, 1).name == Label(i, '2')
    ensures HopRecord(l, g, i, 2).name == Label(i, '3')
  {}

  lemma {:induction false} HopRecordsAt(l: Lookups, g: Guest, n: nat, i: nat)
    requires InRange(Uint64, Head(l)) && i < n
    ensures RecordAt(l, g, n, 3 * i + 1) == HopRecord(l, g, i, 0)
    ensures RecordAt(l, g, n, 3 * i + 2) == HopRecord(l, g, i, 1)
    ensures RecordAt(l, g, n, 3 * i + 3) == HopRecord(l, g, i, 2)
  {
    hide HopRecord;
  }

  // ---------- the app ----------

  lemma {:induction false} HopIsSettable(l: Lookups, i: nat, part: nat)
    requires Usable(l) && part < 3
    ensures var a := HopAdd(l, i, part); forall j | 0 <= j < |a.argv| :: Settable(a.call, a.argv[j])
  {
    assert Position(["vaddr", "pid"], "vaddr") == Some(0);
    assert "vaddr"[0] != "pid"[0] && ["vaddr", "pid"][1..] == ["pid"];
    assert Position(["vaddr", "pid"], "pid") == Some(1);
  }

  lemma {:induction false} PointerAdd(l: Lookups, i: nat)
    ensures HopAdd(l, i, 2).name == Label(i, '3') && HopAdd(l, i, 2).call == ReadAddr(Va)
  {
    hide Label;
  }

  /** The pointer of the hop before is among the names so far. */
  lemma {:induction false} PointerIsNamed(l: Lookups, n: nat, i: nat, part: nat)
    requires 0 < i < n && part < 3
    ensures var name, before := Label(i - 1, '3'), Source(l, n)[..3 * i + 1 + part];
            && name in Names(before) && name in NameMap(before) && NameMap(before)[name] == ReadAddr(Va)
  {
    hide *;
    HopAt(l, n, i - 1, 2);
    PointerAdd(l, i - 1);
    NamesAreDistinct(l, n);
    NamedBefore(Source(l, n), 3 * i + 1 + part, 3 * i);
  }

  lemma {:induction false} PointerLinkCompiles(names: seq<string>, namemap: map<string, Call>, part: nat,
                                               link: LinkArgs)
    requires part < 3 && link.name in names && link.name in namemap && namemap[link.name] == ReadAddr(Va)
    requires link.field == "result" && link.target == "vaddr" && link.opr == 1
    ensures CompileLink(names, namemap, PartCall(part), link).Some?
  {
    assert Position(["result", "status"], "result") == Some(0) && Position(["vaddr", "pid"], "vaddr") == Some(0);
    assert "vaddr"[0] != "link"[0];
  }

  lemma {:induction false} EndIsLegal(a: Added, names: seq<string>, namemap: map<string, Call>)
    requires a in {PAUSE, RESUME}
    ensures CompileAdd(names, namemap, a).Some?
  {
    assert Position(["status"], "status") == Some(0);
  }

  lemma {:induction false} HopIsLegal(l: Lookups, n: nat, i: nat, part: nat)
    requires Usable(l) && i < n && part < 3
    ensures var before := Source(l, n)[..3 * i + 1 + part];
            CompileAdd(Names(before), NameMap(before), HopAdd(l, i, part)).Some?
  {
    hide CompileLink, CompileAdd, Settable, Label, Source, Names, NameMap;
    var a, before := HopAdd(l, i, part), Source(l, n)[..3 * i + 1 + part];
    HopIsSettable(l, i, part);
    if i > 0 {
      PointerIsNamed(l, n, i, part);
      PointerLinkCompiles(Names(before), NameMap(before), part, a.link);
    }
    AddIsLegal(Names(before), NameMap(before), a);
  }

  /** `o` holds the first k adds. */
  ghost predicate Holds(o: BatchObj, src: seq<Added>, k: nat)
    requires k <= |src|
    reads o
  {
    o.Valid() && o.source == src[..k]
  }

  /** o.add of add k; not ok if it raises. */
  method AddNext(o: BatchObj, a: Added, ghost src: seq<Added>, ghost k: nat) returns (ok: bool)
    requires k < |src| && src[k] == a && Holds(o, src, k)
    modifies o
    ensures ok <==> CompileAdd(Names(src[..k]), NameMap(src[..k]), a).Some?
    ensures ok ==> Holds(o, src, k + 1)
  {
    ok := o.Add(a);
    assert src[..k + 1] == src[..k] + [a];
  }

  /** One add of a hop. */
  method AddPart(o: BatchObj, l: Lookups, n: nat, i: nat, part: nat) returns (ok: bool)
    requires i < n && part < 3 && Holds(o, Source(l, n), 3 * i + 1 + part)
    modifies o
    ensures Usable(l) ==> ok
    ensures ok ==> Holds(o, Source(l, n), 3 * i + 2 + part)
  {
    HopAt(l, n, i, part);
    ok := AddNext(o, HopAdd(l, i, part), Source(l, n), 3 * i + 1 + part);
    assert Usable(l) ==> ok by {
      if Usable(l) { HopIsLegal(l, n, i, part); }
    }
  }

  /** The first or the last add. */
  method AddEnd(o: BatchObj, l: Lookups, n: nat, k: nat, a: Added) returns (ok: bool)
    requires k < 3 * n + 2 && a == AddAt(l, n, k) && a in {PAUSE, RESUME} && Holds(o, Source(l, n), k)
    modifies o
    ensures ok && Holds(o, Source(l, n), k + 1)
  {
    EndIsLegal(a, Names(Source(l, n)[..k]), NameMap(Source(l, n)[..k]));
    ok := AddNext(o, a, Source(l, n), k);
  }

  /** From two hops on, the adds are accepted only if all addresses are 64-bit. */
  lemma {:induction false} OnlyUsableCompile(l: Lookups, n: nat, prog: seq<Request>)
    requires n >= 2 && CompilesTo(Source(l, n), prog)
    ensures Usable(l)
  {
    forall part | 0 <= part < 3
      ensures InRange(Uint64, Head(l) + Offset(l, part)) && InRange(Uint64, Offset(l, part))
    {
      HopFits(l, n, prog, 0, part);
      HopFits(l, n, prog, 1, part);
    }
    assert Offset(l, 2) == 0;
  }

  lemma {:induction false} HopFits(l: Lookups, n: nat, prog: seq<Request>, i: nat, part: nat)
    requires i < n && part < 3 && CompilesTo(Source(l, n), prog)
    ensures InRange(Uint64, if i == 0 then Head(l) + Offset(l, part) else Offset(l, part))
  {
    hide *;
    HopAt(l, n, i, part);
    BuiltIsSettable(Source(l, n), prog, 3 * i + 1 + part);
    HopArgFits(l, i, part);
  }

  lemma {:induction false} HopArgFits(l: Lookups, i: nat, part: nat)
    requires part < 3 && forall j | 0 <= j < |HopAdd(l, i, part).argv| ::
                            Settable(HopAdd(l, i, part).call, HopAdd(l, i, part).argv[j])
    ensures InRange(Uint64, if i == 0 then Head(l) + Offset(l, part) else Offset(l, part))
  {
    hide Label;
    assert Settable(HopAdd(l, i, part).call, HopAdd(l, i, part).argv[0]);
  }

  lemma {:induction false} HeldIsUsable(o: BatchObj, l: Lookups, n: nat)
    requires n >= 2 && Holds(o, Source(l, n), 3 * n + 2)
    ensures Usable(l)
  {
    hide Usable;
    assert Source(l, n)[..3 * n + 2] == Source(l, n);
    OnlyUsableCompile(l, n, o.program);
  }

  /** The last add, and serialize. */
  method Complete(o: BatchObj, l: Lookups, n: nat)
    requires Holds(o, Source(l, n), 3 * n + 1)
    modifies o
    ensures o.Valid() && o.source == Source(l, n) && o.state == Serialized
    ensures n >= 2 ==> Usable(l)
  {
    hide Usable;
    var _ := AddEnd(o, l, n, 3 * n + 1, RESUME);
    if n >= 2 { HeldIsUsable(o, l, n); }
    assert Source(l, n)[..3 * n + 2] == Source(l, n);
    o.Serialize();
  }

  /** prep_batch_pslist_self, for n hops.  Not ok: an add raised. */
  method PrepBatchPslistSelf(l: Lookups, n: nat) returns (o: BatchObj, ok: bool)
    ensures fresh(o)
    ensures Usable(l) ==> ok
    ensures ok && n >= 2 ==> Usable(l)
    ensures ok ==> o.Valid() && o.source == Source(l, n) && o.state == Serialized
  {
    o := new BatchObj();
    ok := AddEnd(o, l, n, 0, PAUSE);
    var i := 0;
    while i < n
      invariant i <= n && fresh(o) && Holds(o, Source(l, n), 3 * i + 1)
    {
      var part := 0;
      while part < 3
        invariant part <= 3 && fresh(o) && Holds(o, Source(l, n), 3 * i + 1 + part)
      {
        ok := AddPart(o, l, n, i, part);
        if !ok { return; }
        part := part + 1;
      }
      i := i + 1;
    }
    Complete(o, l, n);
  }

  /** The usage that batch_obj.py documents: build the batch, serialize and send it, and take all of results().
    (do_batch_pslist_new raises before it takes any, as it names an object that it does not have.) */
  method PslistBatch(l: Lookups, n: nat, vmi: Furnace) returns (records: seq<Record>, ok: bool)
    requires 3 * n + 2 <= MAX_MESSAGES
    modifies vmi
    ensures Usable(l) ==> ok && records == ExpectedRecords(l, old(vmi.guest), n, 3 * n + 2)
                          && vmi.guest == old(vmi.guest)
    ensures Usable(l) ==> exists nodes :: ShowsList(old(vmi.guest), l, n, nodes, records)
  {
    records := [];
    hide ShowsList;
    if Usable(l) { var _ := ExpectedShowsList(l, vmi.guest, n); }
    var o;
    o, ok := PrepBatchPslistSelf(l, n);
    if !ok { return; }
    ghost var g, prog := vmi.guest, o.program;
    ok := BatchSend(o, vmi);
    if !ok {
      if Usable(l) { PslistReturnsTheList(l, n, prog, g); }
      return;
    }
    records, ok := o.Results(Process(prog, g).log);
    if Usable(l) { PslistReturnsTheList(l, n, prog, g); }
  }
}

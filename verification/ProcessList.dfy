/** The two other ways to list processes: the built-in of the VMI partition, and the app that makes one call at a time.
  Both walk the list that the pipeline walks. */
module ProcessList {
  import opened Wrappers
  import opened Schema
  import opened GuestMemory
  import opened Execution
  import opened BatchMeaning
  import opened CallMeaning
  import opened Pslist
  import opened PslistResult

  // ---------- the built-in ----------

  datatype Process = Process(pid: int, name: seq<Byte>, block: int)

  /** message Process_list_ret */
  datatype ProcessListRet = ProcessListRet(processes: seq<Process>, status: int)

  /** The walk stops at entry i: it cannot go on, or it is back at the head. */
  predicate StopsAt(g: Guest, head: int, i: nat)
    requires InRange(Uint64, head)
  {
    Next(g, Walk(g, head, i)).None? || (i > 0 && Walk(g, head, i) == head)
  }

  /** `len` entries are listed: the walk first stops after that many. */
  ghost predicate Ends(g: Guest, head: int, len: nat)
    requires InRange(Uint64, head)
  {
    StopsAt(g, head, len) && forall i | 0 <= i < len :: !StopsAt(g, head, i)
  }

  /** The task_struct around a list entry, and the address of one of its members, computed in 64 bits. */
  function Block(l: Lookups, entry: int): int { (entry - l.tasks) % UINT64 }

  function Member(l: Lookups, entry: int, offset: int): int { (Block(l, entry) + offset) % UINT64 }

  /** The `pid` variable after an entry: a read that fails leaves what it held before. */
  function PidAfter(g: Guest, l: Lookups, entry: int, before: int): int {
    var at := Member(l, entry, l.pid);
    match ReadBytes(g, Va, 0, at, at + 4)
    case Some(v) => ToInt32(v)
    case None => before
  }

  /** The `pid` variable before entry i. */
  function PidBefore(g: Guest, l: Lookups, head: int, i: nat): int
    requires InRange(Uint64, head)
  {
    if i == 0 then 0 else PidAfter(g, l, Walk(g, head, i - 1), PidBefore(g, l, head, i - 1))
  }

  function NameAt(g: Guest, l: Lookups, head: int, i: nat): Option<seq<Byte>>
    requires InRange(Uint64, head)
  {
    ReadText(g, Va, 0, Member(l, Walk(g, head, i), l.name))
  }

  function ProcessAt(g: Guest, l: Lookups, head: int, i: nat): Process
    requires InRange(Uint64, head) && NameAt(g, l, head, i).Some?
  {
    Process(PidBefore(g, l, head, i + 1), NameAt(g, l, head, i).value, Block(l, Walk(g, head, i)))
  }

  /** The processes of the first i entries. */
  ghost predicate Listed(g: Guest, l: Lookups, head: int, i: nat, processes: seq<Process>)
    requires InRange(Uint64, head)
  {
    |processes| == i
    && forall k | 0 <= k < i :: NameAt(g, l, head, k).Some? && processes[k] == ProcessAt(g, l, head, k)
  }

  /** Where process_process_list is after some rounds of its loop; `NoName` is set_name(NULL), which is undefined. */
  datatype Outcome = Returned(ret: ProcessListRet) | NoName | Running(processes: seq<Process>)

  /** process_process_list, watched for at most `rounds` rounds, of which it makes n. */
  method ProcessProcessList(g: Guest, l: Lookups, rounds: nat) returns (outcome: Outcome, n: nat)
    ensures n <= rounds && InRange(Uint64, Head(l) % UINT64)
    ensures outcome.Returned? ==> Lists(g, l, Head(l) % UINT64, n, outcome.ret)
    ensures outcome.Returned? ==>
              var last := Walk(g, Head(l) % UINT64, n);
              outcome.ret.status == if AllMapped(g, Va, 0, last, last + 8) then 0 else 1
    ensures outcome.NoName? ==> n < rounds && Fails(g, l, Head(l) % UINT64, n)
    ensures outcome.Running? ==> n == rounds && Runs(g, l, Head(l) % UINT64, n, outcome.processes)
  {
    hide Walk, Ends, Listed, Fails, Runs, AllMapped;
    outcome, n := ListFrom(g, l, (l.initTask + l.tasks) % UINT64, rounds);
    PointerIsThere(g, Walk(g, Head(l) % UINT64, n));
  }

  lemma {:induction false} PointerIsThere(g: Guest, at: int)
    ensures Next(g, at).Some? <==> AllMapped(g, Va, 0, at, at + 8)
  {
    hide ReadBytes, AllMapped, HoldsNumber;
    ReadBytesIff(g, Va, 0, at, 8);
  }

  /** It has returned the entries until the walk first stops, with the status of the last pointer read. */
  ghost predicate Lists(g: Guest, l: Lookups, head: int, n: nat, ret: ProcessListRet)
    requires InRange(Uint64, head)
  {
    && Ends(g, head, n) && Listed(g, l, head, n, ret.processes)
    && ret.status == if Next(g, Walk(g, head, n)).Some? then 0 else 1
  }

  /** The first entry without a readable name is entry n. */
  ghost predicate Fails(g: Guest, l: Lookups, head: int, n: nat)
    requires InRange(Uint64, head)
  {
    (forall i | 0 <= i <= n :: !StopsAt(g, head, i)) && NameAt(g, l, head, n).None?
    && forall i | 0 <= i < n :: NameAt(g, l, head, i).Some?
  }

  /** It goes on, n entries having been listed. */
  ghost predicate Runs(g: Guest, l: Lookups, head: int, n: nat, processes: seq<Process>)
    requires InRange(Uint64, head)
  {
    (forall i | 0 <= i <= n :: !StopsAt(g, head, i)) && Listed(g, l, head, n, processes)
  }

  method ListFrom(g: Guest, l: Lookups, listHead: int, rounds: nat) returns (outcome: Outcome, n: nat)
    requires InRange(Uint64, listHead)
    ensures n <= rounds
    ensures outcome.Returned? ==> Lists(g, l, listHead, n, outcome.ret)
    ensures outcome.NoName? ==> n < rounds && Fails(g, l, listHead, n)
    ensures outcome.Running? ==> n == rounds && Runs(g, l, listHead, n, outcome.processes)
  {
    hide Next, ReadText, Member, Block, PidAfter;
    var curListEntry := listHead;
    var nextListEntry := Next(g, curListEntry);
    var processes: seq<Process> := [];
    var pid := 0;
    n := 0;
    while nextListEntry.Some?
      invariant n <= rounds && Listed(g, l, listHead, n, processes)
      invariant curListEntry == Walk(g, listHead, n) && nextListEntry == Next(g, curListEntry)
      invariant pid == PidBefore(g, l, listHead, n)
      invariant forall i | 0 <= i < n :: !StopsAt(g, listHead, i)
      invariant n > 0 ==> curListEntry != listHead
      decreases rounds - n
    {
      assert !StopsAt(g, listHead, n);
      if n == rounds { return Running(processes), n; }
      pid := PidAfter(g, l, curListEntry, pid);
      var procname := ReadText(g, Va, 0, Member(l, curListEntry, l.name));
      assert procname == NameAt(g, l, listHead, n);
      if procname.None? { return NoName, n; }
      processes := processes + [Process(pid, procname.value, Block(l, curListEntry))];
      curListEntry := nextListEntry.value;
      nextListEntry := Next(g, curListEntry);
      n := n + 1;
      assert curListEntry == Walk(g, listHead, n);
      if curListEntry == listHead { break; }
    }
    assert StopsAt(g, listHead, n);
    outcome := Returned(ProcessListRet(processes, if nextListEntry.Some? then 0 else 1));
  }

  // ---------- what it lists ----------

  /** The address of a member of the process behind a list entry. */
  function MemberAddress(l: Lookups, entry: int, offset: int): int {
    (entry - l.tasks + offset) % 0x1_0000_0000_0000_0000
  }

  lemma {:induction false} MemberAddressIs(l: Lookups, entry: int, offset: int)
    ensures Member(l, entry, offset) == MemberAddress(l, entry, offset)
  {
    MemberIsWhere(l, entry, offset);
    assert entry + (offset - l.tasks) == entry - l.tasks + offset;
  }

  /** In terms of guest memory: the name is the text there; the pid is the four bytes there, read as a signed number,
    or, where they are not mapped, that of the process before, or 0. */
  ghost predicate IsProcess(g: Guest, l: Lookups, entry: int, before: int, p: Process) {
    && HoldsText(g, Va, 0, MemberAddress(l, entry, l.name), p.name)
    && p.block == (entry - l.tasks) % 0x1_0000_0000_0000_0000
    && var at := MemberAddress(l, entry, l.pid);
       if AllMapped(g, Va, 0, at, at + 4)
       then HoldsNumber(g, Va, 0, at, 4, p.pid % 0x1_0000_0000) && -0x8000_0000 <= p.pid < 0x8000_0000
       else p.pid == before
  }

  lemma {:induction false} SignedPid(v: int)
    requires 0 <= v < 0x1_0000_0000
    ensures ToInt32(v) % 0x1_0000_0000 == v && -0x8000_0000 <= ToInt32(v) < 0x8000_0000
  {}

  lemma {:induction false} PidIsRead(g: Guest, l: Lookups, entry: int, before: int)
    ensures var at, pid := MemberAddress(l, entry, l.pid), PidAfter(g, l, entry, before);
            if AllMapped(g, Va, 0, at, at + 4)
            then HoldsNumber(g, Va, 0, at, 4, pid % 0x1_0000_0000) && -0x8000_0000 <= pid < 0x8000_0000
            else pid == before
  {
    MemberAddressIs(l, entry, l.pid);
    hide Member, MemberAddress, ReadBytes, HoldsNumber, AllMapped, ToInt32;
    var at := Member(l, entry, l.pid);
    ReadBytesIff(g, Va, 0, at, 4);
    var v := ReadBytes(g, Va, 0, at, at + 4);
    assert Pow256(4) == 0x1_0000_0000;
    if v.Some? { SignedPid(v.value); }
  }

  lemma {:induction false} ProcessIsHeld(g: Guest, l: Lookups, head: int, i: nat)
    requires InRange(Uint64, head) && NameAt(g, l, head, i).Some?
    ensures IsProcess(g, l, Walk(g, head, i), PidBefore(g, l, head, i), ProcessAt(g, l, head, i))
  {
    var entry := Walk(g, head, i);
    PidIsRead(g, l, entry, PidBefore(g, l, head, i));
    MemberAddressIs(l, entry, l.name);
    hide ReadText, ReadBytes, HoldsNumber, AllMapped, HoldsText, PidAfter, Member, MemberAddress, Walk;
    ReadTextIff(g, Va, 0, Member(l, entry, l.name));
  }

  /** The processes listed are those of the entries walked, in order. */
  lemma {:induction false} ListedAreHeld(g: Guest, l: Lookups, head: int, n: nat, processes: seq<Process>)
    requires InRange(Uint64, head) && Listed(g, l, head, n, processes)
    ensures |processes| == n
    ensures forall k | 0 <= k < n ::
              IsProcess(g, l, Walk(g, head, k), if k == 0 then 0 else processes[k - 1].pid, processes[k])
  {
    hide IsProcess, NameAt, Walk, PidAfter;
    forall k | 0 <= k < n
      ensures IsProcess(g, l, Walk(g, head, k), if k == 0 then 0 else processes[k - 1].pid, processes[k])
    {
      assert processes[k] == ProcessAt(g, l, head, k);
      if k > 0 { assert processes[k - 1] == ProcessAt(g, l, head, k - 1); }
      ProcessIsHeld(g, l, head, k);
    }
  }

  /** It fails on a name exactly where the text of an entry breaks off before its zero. */
  lemma {:induction false} NameFailsIff(g: Guest, l: Lookups, head: int, i: nat)
    requires InRange(Uint64, head)
    ensures NameAt(g, l, head, i).None?
            <==> Breaks(g, Place(Va, 0, MemberAddress(l, Walk(g, head, i), l.name)))
  {
    hide Walk, ReadText, Breaks, Member, MemberAddress;
    MemberAddressIs(l, Walk(g, head, i), l.name);
    ReadTextIff(g, Va, 0, MemberAddress(l, Walk(g, head, i), l.name));
  }

  // ---------- when it returns ----------

  lemma {:induction false} WalkRepeats(g: Guest, head: int, i: nat, j: nat, m: nat)
    requires InRange(Uint64, head) && Walk(g, head, i) == Walk(g, head, j)
    ensures Walk(g, head, i + m) == Walk(g, head, j + m)
    decreases m
  {
    if m > 0 { WalkRepeats(g, head, i, j, m - 1); }
  }

  /** The entries listed are distinct: of a ring, every node once. */
  lemma {:induction false} EntriesAreDistinct(g: Guest, head: int, len: nat, i: nat, j: nat)
    requires InRange(Uint64, head) && Ends(g, head, len) && i < j < len
    ensures Walk(g, head, i) != Walk(g, head, j)
  {
    if Walk(g, head, i) == Walk(g, head, j) {
      WalkRepeats(g, head, i, j, len - j);
      assert StopsAt(g, head, i + (len - j));
    }
  }

  /** The page-table entries behind the first i entries. */
  function EntryPages(g: Guest, head: int, i: nat): set<(int, int)>
    requires InRange(Uint64, head)
  {
    if i == 0 then {} else EntryPages(g, head, i - 1) + {(0, Walk(g, head, i - 1))}
  }

  lemma {:induction false} EntryOf(g: Guest, head: int, i: nat, page: (int, int)) returns (j: nat)
    requires InRange(Uint64, head) && page in EntryPages(g, head, i)
    ensures j < i && page == (0, Walk(g, head, j))
  {
    if page == (0, Walk(g, head, i - 1)) { j := i - 1; } else { j := EntryOf(g, head, i - 1, page); }
  }

  lemma {:induction false} EntryIsMapped(g: Guest, head: int, i: nat)
    requires InRange(Uint64, head) && !StopsAt(g, head, i)
    ensures (0, Walk(g, head, i)) in g.pageTables
  {
    hide Walk;
  }

  lemma {:induction false} EntriesAreMapped(g: Guest, head: int, len: nat, i: nat)
    requires InRange(Uint64, head) && Ends(g, head, len) && i <= len
    ensures |EntryPages(g, head, i)| == i && EntryPages(g, head, i) <= g.pageTables.Keys
  {
    hide StopsAt, Walk;
    if i > 0 {
      EntriesAreMapped(g, head, len, i - 1);
      EntryIsMapped(g, head, i - 1);
      if (0, Walk(g, head, i - 1)) in EntryPages(g, head, i - 1) {
        var j := EntryOf(g, head, i - 1, (0, Walk(g, head, i - 1)));
        EntriesAreDistinct(g, head, len, j, i - 1);
      }
    }
  }

  lemma {:induction false} FirstStop(g: Guest, head: int, len: nat) returns (first: nat)
    requires InRange(Uint64, head) && StopsAt(g, head, len)
    ensures first <= len && Ends(g, head, first)
  {
    if i: nat :| i < len && StopsAt(g, head, i) {
      first := FirstStop(g, head, i);
    } else {
      first := len;
    }
  }

  /** The walk ends if and only if it stops within as many entries as there are mapped addresses: a chain that does
    not is walked for ever. */
  lemma {:induction false} WalkEndsIff(g: Guest, head: int)
    requires InRange(Uint64, head)
    ensures (exists len :: Ends(g, head, len)) <==> exists len | 0 <= len <= |g.pageTables| :: StopsAt(g, head, len)
  {
    if len :| Ends(g, head, len) {
      EntriesAreMapped(g, head, len, len);
      SubsetIsSmaller(EntryPages(g, head, len), g.pageTables.Keys);
    }
    if len :| 0 <= len <= |g.pageTables| && StopsAt(g, head, len) {
      var _ := FirstStop(g, head, len);
    }
  }

  /** So one that is still running after that many rounds never returns. */
  lemma {:induction false} StillRunningIsForEver(g: Guest, l: Lookups, head: int, processes: seq<Process>, n: nat,
                                                 m: nat)
    requires InRange(Uint64, head) && Runs(g, l, head, n, processes) && n >= |g.pageTables|
    ensures !Ends(g, head, m)
  {
    hide StopsAt;
    WalkEndsIff(g, head);
  }

  lemma {:induction false} LoopPointers()
    ensures Next(SmallGuest(8), 0) == Next(SmallGuest(8), 8) == Some(8)
  {
    hide SmallGuest, ReadBytes;
    SmallGuestReads(8, 0);
    SmallGuestReads(8, 8);
  }

  /** There are such guests: the head points to an entry that points to itself. */
  lemma {:induction false} LoopIsWalkedForEver(i: nat)
    ensures Walk(SmallGuest(8), 0, i) == if i == 0 then 0 else 8
    ensures !StopsAt(SmallGuest(8), 0, i)
  {
    hide SmallGuest, Next;
    if i > 0 { LoopIsWalkedForEver(i - 1); }
    LoopPointers();
  }

  const LOOPING := Lookups(0, 0, 0, 0)

  lemma {:induction false} ShortTextReads(at: int)
    requires at in {0, 8}
    ensures ReadText(SmallGuest(8), Va, 0, at).Some?
  {
    hide SmallGuest, Translate;
    SmallGuestHolds(8, at);
    SmallGuestHolds(8, at + 1);
    assert ReadText(SmallGuest(8), Va, 0, at + 1) == Some([]);
  }

  /** All the while every name is readable. */
  lemma {:induction false} LoopNamesAreReadable(i: nat)
    ensures NameAt(SmallGuest(8), LOOPING, 0, i).Some?
  {
    hide ReadText, SmallGuest, Walk;
    LoopIsWalkedForEver(i);
    ShortTextReads(Walk(SmallGuest(8), 0, i));
  }

  /** There the built-in goes on, however long it is watched, and lists another process in every round. */
  method LoopingBuiltIn(rounds: nat) returns (processes: seq<Process>)
    ensures Runs(SmallGuest(8), LOOPING, 0, rounds, processes) && |processes| == rounds
  {
    hide StopsAt, NameAt, Walk, SmallGuest;
    var outcome, n := ProcessProcessList(SmallGuest(8), LOOPING, rounds);
    assert Head(LOOPING) % UINT64 == 0;
    LoopIsWalkedForEver(n);
    LoopNamesAreReadable(n);
    processes := outcome.processes;
  }

  // ---------- the built-in and the pipeline ----------

  lemma MemberIsWhere(l: Lookups, entry: int, offset: int)
    ensures Member(l, entry, offset) == (entry + (offset - l.tasks)) % UINT64
  {
    var a := entry - l.tasks;
    assert a == (a / UINT64) * UINT64 + a % UINT64;
    SameModulo(a % UINT64 + offset, a + offset, -(a / UINT64));
  }

  lemma SameModulo(a: int, b: int, q: int)
    requires a == b + q * UINT64
    ensures a % UINT64 == b % UINT64
  {}

  /** The built-in's entry i is hop i of the pipeline: the same name and, read as a signed number, the same pid. */
  lemma {:induction false} BuiltInListsTheHops(g: Guest, l: Lookups, i: nat)
    requires Usable(l) && NameAt(g, l, Head(l), i).Some?
    ensures var p := ProcessAt(g, l, Head(l), i);
            var name, pid := HopRecord(l, g, i, 0).fields, HopRecord(l, g, i, 1).fields;
            && "result" in name && name["result"] == Bytes(p.name)
            && "status" in pid && "result" in pid && pid["result"].Num?
            && (pid["status"] == Num(0) ==> p.pid == ToInt32(pid["result"].n))
            && p.block == Block(l, Walk(g, Head(l), i))
  {
    hide *;
    BuiltInName(g, l, i);
    BuiltInPid(g, l, i);
  }

  lemma {:induction false} BuiltInName(g: Guest, l: Lookups, i: nat)
    requires Usable(l) && NameAt(g, l, Head(l), i).Some?
    ensures var p, name := ProcessAt(g, l, Head(l), i), HopRecord(l, g, i, 0).fields;
            && "result" in name && name["result"] == Bytes(p.name) && p.block == Block(l, Walk(g, Head(l), i))
  {
    hide Next, Walk, ReadText, ReadBytes, Label;
    MemberIsWhere(l, Walk(g, Head(l), i), l.name);
    assert "result"[0] != "status"[0];
  }

  lemma {:induction false} BuiltInPid(g: Guest, l: Lookups, i: nat)
    requires Usable(l) && NameAt(g, l, Head(l), i).Some?
    ensures var p, pid := ProcessAt(g, l, Head(l), i), HopRecord(l, g, i, 1).fields;
            && "status" in pid && "result" in pid && pid["result"].Num?
            && (pid["status"] == Num(0) ==> p.pid == ToInt32(pid["result"].n))
  {
    hide Next, Walk, ReadText, ReadBytes, Label;
    MemberIsWhere(l, Walk(g, Head(l), i), l.pid);
    assert "result"[0] != "status"[0];
  }

  // ---------- one call at a time ----------

  /** The bits of an address that the app compares. */
  const MASK48 := 0x1_0000_0000_0000

  const MAX_HOPS := 100

  /** The app's result: task_struct address to pid and name, as the calls return them (0 and "" where one fails). */
  function PslistDict(g: Guest, l: Lookups, n: nat): map<int, (Value, Value)>
    requires InRange(Uint64, Head(l))
  {
    if n == 0 then map[]
    else
      var i := n - 1;
      PslistDict(g, l, i)[Walk(g, Head(l), i) - l.tasks := (HopResult(g, l, i, 1), HopResult(g, l, i, 0))]
  }

  function HopResult(g: Guest, l: Lookups, i: nat, part: nat): Value
    requires InRange(Uint64, Head(l)) && part < 3
  {
    ResultValue(Entry(PartCall(part), PartReply(g, part, Where(l, Walk(g, Head(l), i), part))))
  }

  /** Where the app stops: at the first masked entry that equals the head, and after 101 entries at the latest. */
  ghost predicate StopsAfter(g: Guest, head: int, n: nat)
    requires InRange(Uint64, head)
  {
    && 1 <= n <= MAX_HOPS + 1
    && (forall i | 0 < i < n :: Walk(g, head, i) % MASK48 != head)
    && (n == MAX_HOPS + 1 || Walk(g, head, n) % MASK48 == head)
  }

  /** fe.read_addr_va */
  function ReadPointer(g: Guest, at: int): (v: int)
    ensures InRange(Uint64, v)
  {
    match Next(g, at)
    case Some(v) => v
    case None => 0
  }

  /** The two calls of a round; not ok if protobuf refuses an address. */
  method ReadProcess(g: Guest, l: Lookups, entry: int) returns (pid: Value, name: Value, ok: bool)
    requires InRange(Uint64, entry)
    ensures ok <==> InRange(Uint64, entry + Offset(l, 1)) && InRange(Uint64, entry + Offset(l, 0))
    ensures ok ==> pid == ResultValue(Entry(PartCall(1), PartReply(g, 1, Where(l, entry, 1))))
                   && name == ResultValue(Entry(PartCall(0), PartReply(g, 0, Where(l, entry, 0))))
  {
    var curProc := entry - l.tasks;
    var pidAt, nameAt := curProc + l.pid, curProc + l.name;
    ok := InRange(Uint64, pidAt) && InRange(Uint64, nameAt);
    pid := ResultValue(Entry(PartCall(1), PartReply(g, 1, pidAt)));
    name := ResultValue(Entry(PartCall(0), PartReply(g, 0, nameAt)));
  }

  /** Every address that the app passes in its first n rounds is a 64-bit number. */
  predicate Addressable(g: Guest, l: Lookups, n: nat)
    requires InRange(Uint64, Head(l))
  {
    forall i | 0 <= i < n ::
      InRange(Uint64, Walk(g, Head(l), i) + Offset(l, 1)) && InRange(Uint64, Walk(g, Head(l), i) + Offset(l, 0))
  }

  /** do_pslist.  `n` is the number of full rounds, the loop's `i`.  Not ok: protobuf refused an address, of the head or
    of round n. */
  method DoPslist(g: Guest, l: Lookups) returns (pslist: map<int, (Value, Value)>, ok: bool, n: nat)
    ensures ok ==> InRange(Uint64, Head(l)) && StopsAfter(g, Head(l), n) && pslist == PslistDict(g, l, n)
    ensures ok ==> Addressable(g, l, n)
    ensures !ok && InRange(Uint64, Head(l)) ==>
              n <= MAX_HOPS && Addressable(g, l, n) && !Addressable(g, l, n + 1)
              && (forall k | 0 < k <= n :: Walk(g, Head(l), k) % MASK48 != Head(l))
  {
    hide Next, ReadBytes, ReadText, ResultValue, PartReply, Where;
    pslist, ok, n := map[], false, 0;
    var listHead := l.initTask + l.tasks;
    if !InRange(Uint64, listHead) { return; }
    var curListEntry := listHead;
    var nextListEntry := ReadPointer(g, listHead);
    while n == 0 || (curListEntry % MASK48 != listHead && n <= MAX_HOPS)
      invariant n <= MAX_HOPS + 1
      invariant curListEntry == Walk(g, listHead, n) && nextListEntry == Walk(g, listHead, n + 1)
      invariant pslist == PslistDict(g, l, n) && Addressable(g, l, n)
      invariant forall k | 0 < k < n :: Walk(g, listHead, k) % MASK48 != listHead
      decreases MAX_HOPS + 1 - n
    {
      var pid, procname, sent := ReadProcess(g, l, curListEntry);
      if !sent { return; }
      pslist := pslist[curListEntry - l.tasks := (pid, procname)];
      curListEntry := nextListEntry;
      nextListEntry := ReadPointer(g, curListEntry);
      n := n + 1;
    }
    ok := true;
  }

  /** Where the walk has listed exactly the ring. */
  predicate StopsAtRing(g: Guest, head: int, len: nat)
    requires InRange(Uint64, head)
  {
    && len <= 101 && (len == 101 || head < 0x1_0000_0000_0000)
    && forall i | 0 < i < len :: Walk(g, head, i) % 0x1_0000_0000_0000 != head
  }

  /** The app lists a ring, each entry once, if and only if it has at most 101 entries, masking keeps the head, unless
    the limit ends the walk anyway, and masking takes no other entry to the head. */
  lemma {:induction false} MaskedWalkIsExactIff(g: Guest, head: int, len: nat, n: nat)
    requires InRange(Uint64, head) && Ends(g, head, len) && Walk(g, head, len) == head && len > 0
    requires StopsAfter(g, head, n)
    ensures n == len <==> StopsAtRing(g, head, len)
  {
    assert head < MASK48 <==> Walk(g, head, len) % MASK48 == head;
  }

  /** The app lists exactly a ring of up to 101 entries, if masking keeps the head and takes no other entry to it. */
  lemma {:induction false} MaskedWalkStopsAtRing(g: Guest, head: int, len: nat, n: nat)
    requires InRange(Uint64, head) && Ends(g, head, len) && Walk(g, head, len) == head && 0 < len <= MAX_HOPS + 1
    requires head < MASK48 && forall i | 0 < i < len :: Walk(g, head, i) % MASK48 != head
    requires StopsAfter(g, head, n)
    ensures n == len
  {
    MaskedWalkIsExactIff(g, head, len, n);
  }

  /** A head with a higher bit set, as kernel addresses have, is never recognised: the app always makes 101 rounds,
    and of a ring it lists exactly one of 101 entries. */
  lemma {:induction false} HighHeadIsNeverRecognised(g: Guest, head: int, n: nat)
    requires InRange(Uint64, head) && StopsAfter(g, head, n) && head >= 0x1_0000_0000_0000
    ensures n == 101
    ensures forall len | 0 < len && Ends(g, head, len) && Walk(g, head, len) == head ::
              n == len <==> len == 101
  {
    forall len | 0 < len && Ends(g, head, len) && Walk(g, head, len) == head
      ensures n == len <==> len == 101
    {
      MaskedWalkIsExactIff(g, head, len, n);
    }
  }
}

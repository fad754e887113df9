/** What a single call reads and writes, said byte by byte of guest memory and argument by argument by name, without the
  functions that compute it. */
module CallMeaning {
  import opened Wrappers
  import opened Schema
  import opened GuestMemory
  import opened Execution
  import opened Refinement
  import opened LinkPlan
  import opened BatchSource
  import opened BatchMeaning

  // ---------- guest memory, byte by byte ----------

  /** RAM at `cell` is what an access to address `a` touches: the address itself, or what the page tables of the process
    say. */
  predicate IsBehind(g: Guest, space: Space, pid: int, a: int, cell: int) {
    && cell in g.ram
    && match space
       case Pa => cell == a
       case Va => (pid, a) in g.pageTables && g.pageTables[(pid, a)] == cell
  }

  ghost predicate IsMapped(g: Guest, space: Space, pid: int, a: int) {
    exists cell :: IsBehind(g, space, pid, a, cell)
  }

  ghost predicate HoldsByte(g: Guest, space: Space, pid: int, a: int, b: int) {
    exists cell :: IsBehind(g, space, pid, a, cell) && g.ram[cell] as int == b
  }

  /** Byte i of a number, the lowest first, in two's complement. */
  function ByteOf(v: int, i: nat): int
    decreases i
  {
    if i == 0 then v % 256 else ByteOf(v / 256, i - 1)
  }

  /** The n bytes at an address are those of v. */
  ghost predicate HoldsNumber(g: Guest, space: Space, pid: int, addr: int, n: nat, v: int) {
    0 <= v < Pow256(n) && forall i | 0 <= i < n :: HoldsByte(g, space, pid, addr + i, ByteOf(v, i))
  }

  ghost predicate AllMapped(g: Guest, space: Space, pid: int, addr: int, end: int) {
    forall a | addr <= a < end :: IsMapped(g, space, pid, a)
  }

  ghost predicate HoldsChars(g: Guest, space: Space, pid: int, addr: int, s: seq<Byte>) {
    forall i | 0 <= i < |s| :: s[i] != 0 && HoldsByte(g, space, pid, addr + i, s[i] as int)
  }

  /** A text of no zero bytes, and then a zero, below 2 to the 64. */
  ghost predicate HoldsText(g: Guest, space: Space, pid: int, addr: int, s: seq<Byte>) {
    && HoldsChars(g, space, pid, addr, s)
    && HoldsByte(g, space, pid, addr + |s|, 0)
    && addr + |s| < 0x1_0000_0000_0000_0000
  }

  /** After some bytes that are not zero comes an address that is not mapped, or that is none. */
  ghost predicate TextBreaks(g: Guest, space: Space, pid: int, addr: int, before: seq<Byte>) {
    && HoldsChars(g, space, pid, addr, before)
    && (!IsMapped(g, space, pid, addr + |before|) || addr + |before| >= 0x1_0000_0000_0000_0000)
  }

  /** g' is g once byte i of v has been stored at address addr + i for each i below n, in that order. */
  ghost predicate Stores(g: Guest, space: Space, pid: int, addr: int, n: nat, v: int, g': Guest) {
    && g'.pageTables == g.pageTables && g'.pauses == g.pauses && g'.ram.Keys == g.ram.Keys
    && (forall cell | cell in g.ram && Untouched(g, space, pid, addr, addr + n, cell) :: g'.ram[cell] == g.ram[cell])
    && (forall a, cell | addr <= a < addr + n && IsBehind(g, space, pid, a, cell)
                         && Untouched(g, space, pid, a + 1, addr + n, cell) ::
         g'.ram[cell] as int == ByteOf(v, a - addr))
  }

  /** None of the addresses from `addr` up to `end` is that RAM. */
  ghost predicate Untouched(g: Guest, space: Space, pid: int, addr: int, end: int, cell: int) {
    forall a | addr <= a < end :: !IsBehind(g, space, pid, a, cell)
  }

  lemma {:induction false} TranslateFinds(g: Guest, space: Space, pid: int, a: int)
    ensures forall cell :: IsBehind(g, space, pid, a, cell) <==> Translate(g, space, pid, a) == Some(cell)
    ensures IsMapped(g, space, pid, a) <==> Translate(g, space, pid, a).Some?
    ensures Translate(g, space, pid, a).Some? ==> Translate(g, space, pid, a).value in g.ram
    ensures forall b :: HoldsByte(g, space, pid, a, b)
                        <==> Translate(g, space, pid, a).Some? && g.ram[Translate(g, space, pid, a).value] as int == b
  {
    var t := Translate(g, space, pid, a);
    if t.Some? { assert IsBehind(g, space, pid, a, t.value); }
  }

  // ---------- reads ----------

  lemma {:induction false} NumberSplits(g: Guest, space: Space, pid: int, addr: int, n: nat, v: int)
    requires n > 0
    ensures HoldsNumber(g, space, pid, addr, n, v)
            <==> HoldsByte(g, space, pid, addr, v % 256) && HoldsNumber(g, space, pid, addr + 1, n - 1, v / 256)
  {
    hide HoldsByte;
    assert 0 <= v < Pow256(n) <==> 0 <= v / 256 < Pow256(n - 1);
    assert forall i | 0 < i < n :: ByteOf(v, i) == ByteOf(v / 256, i - 1);
    if HoldsNumber(g, space, pid, addr, n, v) {
      assert HoldsByte(g, space, pid, addr + 0, ByteOf(v, 0));
      forall i | 0 <= i < n - 1
        ensures HoldsByte(g, space, pid, addr + 1 + i, ByteOf(v / 256, i))
      {
        assert HoldsByte(g, space, pid, addr + (i + 1), ByteOf(v, i + 1));
      }
    }
    if HoldsByte(g, space, pid, addr, v % 256) && HoldsNumber(g, space, pid, addr + 1, n - 1, v / 256) {
      forall i | 0 <= i < n
        ensures HoldsByte(g, space, pid, addr + i, ByteOf(v, i))
      {
        if i > 0 { assert HoldsByte(g, space, pid, addr + 1 + (i - 1), ByteOf(v / 256, i - 1)); }
      }
    }
  }

  /** A read returns v if and only if the bytes at the address are those of v, and fails if and only if one of them is
    not mapped. */
  lemma {:induction false} ReadBytesIff(g: Guest, space: Space, pid: int, addr: int, n: nat)
    ensures forall v :: ReadBytes(g, space, pid, addr, addr + n) == Some(v) <==> HoldsNumber(g, space, pid, addr, n, v)
    ensures ReadBytes(g, space, pid, addr, addr + n).None? <==> !AllMapped(g, space, pid, addr, addr + n)
    decreases n
  {
    hide HoldsNumber, AllMapped, ReadBytes;
    if n == 0 {
      NothingToRead(g, space, pid, addr);
    } else {
      ReadBytesIff(g, space, pid, addr + 1, n - 1);
      ReadBytesNext(g, space, pid, addr, n);
      ReadFails(g, space, pid, addr, n);
    }
  }

  lemma {:induction false} NothingToRead(g: Guest, space: Space, pid: int, addr: int)
    ensures forall v :: ReadBytes(g, space, pid, addr, addr + 0) == Some(v) <==> HoldsNumber(g, space, pid, addr, 0, v)
    ensures ReadBytes(g, space, pid, addr, addr + 0).Some? && AllMapped(g, space, pid, addr, addr + 0)
  {}

  lemma {:induction false} ReadFails(g: Guest, space: Space, pid: int, addr: int, n: nat)
    requires n > 0
    requires ReadBytes(g, space, pid, addr + 1, addr + n).None? <==> !AllMapped(g, space, pid, addr + 1, addr + n)
    ensures ReadBytes(g, space, pid, addr, addr + n).None? <==> !AllMapped(g, space, pid, addr, addr + n)
  {
    TranslateFinds(g, space, pid, addr);
    hide Translate, HoldsByte, IsBehind, IsMapped;
    assert AllMapped(g, space, pid, addr, addr + n)
           <==> IsMapped(g, space, pid, addr) && AllMapped(g, space, pid, addr + 1, addr + n);
  }

  lemma {:induction false} ReadBytesNext(g: Guest, space: Space, pid: int, addr: int, n: nat)
    requires n > 0
    requires forall v :: ReadBytes(g, space, pid, addr + 1, addr + n) == Some(v)
                         <==> HoldsNumber(g, space, pid, addr + 1, n - 1, v)
    ensures forall v :: ReadBytes(g, space, pid, addr, addr + n) == Some(v) <==> HoldsNumber(g, space, pid, addr, n, v)
  {
    TranslateFinds(g, space, pid, addr);
    hide Translate, HoldsByte, HoldsNumber, IsBehind, IsMapped;
    var rest := ReadBytes(g, space, pid, addr + 1, addr + n);
    forall v
      ensures ReadBytes(g, space, pid, addr, addr + n) == Some(v) <==> HoldsNumber(g, space, pid, addr, n, v)
    {
      NumberSplits(g, space, pid, addr, n, v);
      assert rest == Some(v / 256) <==> HoldsNumber(g, space, pid, addr + 1, n - 1, v / 256);
    }
  }

  lemma {:induction false} CharsSplit(g: Guest, space: Space, pid: int, addr: int, s: seq<Byte>)
    requires s != []
    ensures HoldsChars(g, space, pid, addr, s)
            <==> s[0] != 0 && HoldsByte(g, space, pid, addr, s[0] as int) && HoldsChars(g, space, pid, addr + 1, s[1..])
  {
    hide HoldsByte;
    if HoldsChars(g, space, pid, addr, s) {
      assert HoldsByte(g, space, pid, addr + 0, s[0] as int);
      forall i | 0 <= i < |s[1..]|
        ensures s[1..][i] != 0 && HoldsByte(g, space, pid, addr + 1 + i, s[1..][i] as int)
      {
        assert s[i + 1] != 0 && HoldsByte(g, space, pid, addr + (i + 1), s[i + 1] as int);
      }
    }
    if s[0] != 0 && HoldsByte(g, space, pid, addr, s[0] as int) && HoldsChars(g, space, pid, addr + 1, s[1..]) {
      forall i | 0 <= i < |s|
        ensures s[i] != 0 && HoldsByte(g, space, pid, addr + i, s[i] as int)
      {
        if i > 0 { assert HoldsByte(g, space, pid, addr + 1 + (i - 1), s[1..][i - 1] as int); }
      }
    }
  }

  lemma {:induction false} OneByteHeld(g: Guest, space: Space, pid: int, a: int, b: int, b': int)
    requires HoldsByte(g, space, pid, a, b)
    ensures IsMapped(g, space, pid, a) && (HoldsByte(g, space, pid, a, b') <==> b' == b)
  {
    TranslateFinds(g, space, pid, a);
  }

  /** At a zero byte a text ends, and it is empty. */
  lemma {:induction false} ZeroEndsText(g: Guest, space: Space, pid: int, addr: int, s: seq<Byte>)
    requires HoldsByte(g, space, pid, addr, 0) && addr < 0x1_0000_0000_0000_0000
    ensures (HoldsText(g, space, pid, addr, s) <==> s == []) && !TextBreaks(g, space, pid, addr, s)
  {
    hide HoldsByte, IsMapped;
    OneByteHeld(g, space, pid, addr, 0, 0);
    if s != [] {
      CharsSplit(g, space, pid, addr, s);
      OneByteHeld(g, space, pid, addr, 0, s[0] as int);
    }
  }

  /** Where nothing can be read there is no text, and it breaks at once. */
  lemma {:induction false} NothingHeld(g: Guest, space: Space, pid: int, addr: int, s: seq<Byte>)
    requires !IsMapped(g, space, pid, addr) || addr >= 0x1_0000_0000_0000_0000
    ensures !HoldsText(g, space, pid, addr, s) && TextBreaks(g, space, pid, addr, [])
  {
    hide Translate;
    TranslateFinds(g, space, pid, addr);
    if s != [] { CharsSplit(g, space, pid, addr, s); }
  }

  lemma {:induction false} TextSplits(g: Guest, space: Space, pid: int, addr: int, c: Byte, s: seq<Byte>)
    requires HoldsByte(g, space, pid, addr, c as int) && c != 0 && addr < 0x1_0000_0000_0000_0000
    ensures HoldsText(g, space, pid, addr, s) <==> s != [] && s[0] == c && HoldsText(g, space, pid, addr + 1, s[1..])
    ensures TextBreaks(g, space, pid, addr, s) <==> s != [] && s[0] == c && TextBreaks(g, space, pid, addr + 1, s[1..])
  {
    hide HoldsByte, IsMapped;
    if s == [] {
      OneByteHeld(g, space, pid, addr, c as int, 0);
    } else {
      CharsSplit(g, space, pid, addr, s);
      OneByteHeld(g, space, pid, addr, c as int, s[0] as int);
      assert addr + 1 + |s[1..]| == addr + |s|;
    }
  }

  /** What a read of text returns is the text there, all of it and in order; and it fails if and only if the text breaks
    off before its zero. */
  lemma {:induction false} ReadTextIff(g: Guest, space: Space, pid: int, addr: int)
    ensures forall s :: ReadText(g, space, pid, addr) == Some(s) <==> HoldsText(g, space, pid, addr, s)
    ensures ReadText(g, space, pid, addr).None? <==> Breaks(g, Place(space, pid, addr))
    decreases 0x1_0000_0000_0000_0000 - addr
  {
    hide HoldsText, TextBreaks, HoldsByte, IsMapped, Translate, IsBehind;
    TranslateFinds(g, space, pid, addr);
    var t := Translate(g, space, pid, addr);
    if addr >= 0x1_0000_0000_0000_0000 || t.None? {
      forall s ensures !HoldsText(g, space, pid, addr, s) { NothingHeld(g, space, pid, addr, s); }
      NothingHeld(g, space, pid, addr, []);
    } else if g.ram[t.value] == 0 {
      forall s
        ensures (HoldsText(g, space, pid, addr, s) <==> s == []) && !TextBreaks(g, space, pid, addr, s)
      {
        ZeroEndsText(g, space, pid, addr, s);
      }
    } else {
      ReadTextIff(g, space, pid, addr + 1);
      TextGoesOn(g, space, pid, addr, g.ram[t.value]);
    }
  }

  lemma {:induction false} TextGoesOn(g: Guest, space: Space, pid: int, addr: int, c: Byte)
    requires HoldsByte(g, space, pid, addr, c as int) && c != 0 && addr < 0x1_0000_0000_0000_0000
    requires forall s :: ReadText(g, space, pid, addr + 1) == Some(s) <==> HoldsText(g, space, pid, addr + 1, s)
    requires ReadText(g, space, pid, addr + 1).None? <==> Breaks(g, Place(space, pid, addr + 1))
    ensures forall s :: ReadText(g, space, pid, addr) == Some(s) <==> HoldsText(g, space, pid, addr, s)
    ensures ReadText(g, space, pid, addr).None? <==> Breaks(g, Place(space, pid, addr))
  {
    hide HoldsText, TextBreaks, HoldsByte, IsMapped, Translate, IsBehind;
    TranslateFinds(g, space, pid, addr);
    var rest := ReadText(g, space, pid, addr + 1);
    assert ReadText(g, space, pid, addr) == if rest.None? then None else Some([c] + rest.value);
    forall s
      ensures ReadText(g, space, pid, addr) == Some(s) <==> HoldsText(g, space, pid, addr, s)
      ensures TextBreaks(g, space, pid, addr, s) ==> rest.None?
    {
      TextSplits(g, space, pid, addr, c, s);
      if s != [] {
        assert rest == Some(s[1..]) <==> HoldsText(g, space, pid, addr + 1, s[1..]);
        assert s == [s[0]] + s[1..];
      }
    }
    if rest.None? {
      var before :| TextBreaks(g, space, pid, addr + 1, before);
      assert ([c] + before)[1..] == before;
      TextSplits(g, space, pid, addr, c, [c] + before);
    }
  }

  // ---------- writes ----------

  lemma {:induction false} SameCells(g: Guest, g': Guest, space: Space, pid: int)
    requires g'.pageTables == g.pageTables && g'.ram.Keys == g.ram.Keys
    ensures forall a, cell :: IsBehind(g', space, pid, a, cell) <==> IsBehind(g, space, pid, a, cell)
  {}

  /** The first byte, and then the others. */
  lemma {:induction false} StoresInOrder(g: Guest, space: Space, pid: int, addr: int, n: nat, v: int, first: int,
                                         b: Byte, g': Guest)
    requires n > 0 && IsBehind(g, space, pid, addr, first) && b as int == v % 256
    requires Stores(g.(ram := g.ram[first := b]), space, pid, addr + 1, n - 1, v / 256, g')
    ensures Stores(g, space, pid, addr, n, v, g')
  {
    var g1 := g.(ram := g.ram[first := b]);
    SameCells(g, g1, space, pid);
    hide IsBehind;
    forall a, cell | addr <= a < addr + n && IsBehind(g, space, pid, a, cell)
                     && Untouched(g, space, pid, a + 1, addr + n, cell)
      ensures cell in g'.ram && g'.ram[cell] as int == ByteOf(v, a - addr)
    {
      assert Untouched(g1, space, pid, a + 1, addr + 1 + (n - 1), cell);
      if a == addr { assert IsBehind(g, space, pid, addr, cell) && cell == first by { OneCell(g, space, pid, addr); } }
    }
    forall cell | cell in g.ram && Untouched(g, space, pid, addr, addr + n, cell)
      ensures g'.ram[cell] == g.ram[cell]
    {
      assert Untouched(g1, space, pid, addr + 1, addr + 1 + (n - 1), cell);
    }
  }

  lemma {:induction false} OneCell(g: Guest, space: Space, pid: int, a: int)
    ensures forall c, d | IsBehind(g, space, pid, a, c) && IsBehind(g, space, pid, a, d) :: c == d
  {}

  /** A write succeeds if and only if all its bytes are mapped, and then stores the bytes of its value. */
  lemma {:induction false} WriteBytesIff(g: Guest, space: Space, pid: int, addr: int, n: nat, v: int)
    ensures WriteBytes(g, space, pid, addr, addr + n, v).Some? <==> AllMapped(g, space, pid, addr, addr + n)
    ensures WriteBytes(g, space, pid, addr, addr + n, v).Some? ==>
              Stores(g, space, pid, addr, n, v, WriteBytes(g, space, pid, addr, addr + n, v).value)
    decreases n
  {
    hide Stores, Translate, AllMapped, IsMapped;
    if n == 0 {
      NothingStored(g, space, pid, addr, v);
    } else {
      TranslateFinds(g, space, pid, addr);
      FirstMapped(g, space, pid, addr, n);
      if Translate(g, space, pid, addr).Some? {
        var first := Translate(g, space, pid, addr).value;
        var b := (v % 256) as Byte;
        var g1 := g.(ram := g.ram[first := b]);
        WriteBytesIff(g1, space, pid, addr + 1, n - 1, v / 256);
        SameMapped(g, g1, space, pid, addr + 1, addr + n);
        var w := WriteBytes(g1, space, pid, addr + 1, addr + n, v / 256);
        if w.Some? { StoresInOrder(g, space, pid, addr, n, v, first, b, w.value); }
      }
    }
  }

  lemma {:induction false} NothingStored(g: Guest, space: Space, pid: int, addr: int, v: int)
    ensures Stores(g, space, pid, addr, 0, v, g) && AllMapped(g, space, pid, addr, addr + 0)
  {}

  lemma {:induction false} FirstMapped(g: Guest, space: Space, pid: int, addr: int, n: nat)
    requires n > 0
    ensures AllMapped(g, space, pid, addr, addr + n)
            <==> IsMapped(g, space, pid, addr) && AllMapped(g, space, pid, addr + 1, addr + n)
  {
    hide IsMapped;
  }

  lemma {:induction false} SameMapped(g: Guest, g': Guest, space: Space, pid: int, addr: int, end: int)
    requires g'.pageTables == g.pageTables && g'.ram.Keys == g.ram.Keys
    ensures AllMapped(g', space, pid, addr, end) <==> AllMapped(g, space, pid, addr, end)
  {
    SameCells(g, g', space, pid);
    hide IsBehind;
    assert forall a :: IsMapped(g', space, pid, a) <==> IsMapped(g, space, pid, a);
  }

  // ---------- calls ----------

  /** How many bytes a call reads or writes. */
  function Width(c: Call): nat
    requires c.ReadInt? || c.ReadAddr? || c.WriteInt?
  {
    match c
    case ReadInt(B8, _) => 1
    case ReadInt(B16, _) => 2
    case ReadInt(B32, _) => 4
    case ReadInt(B64, _) => 8
    case ReadAddr(_) => 8
    case WriteInt(B8, _) => 1
    case WriteInt(B16, _) => 2
    case WriteInt(B32, _) => 4
    case WriteInt(B64, _) => 8
  }

  function AddressName(space: Space): string { if space.Pa? then "paddr" else "vaddr" }

  /** An argument has not been given. */
  predicate Lacks(c: Call, dict: map<string, int>)
    requires Linkable(c)
  {
    || AddressName(c.space) !in dict
    || (c.space.Va? && "pid" !in dict)
    || (c.WriteInt? && "value" !in dict)
  }

  /** Where a call reads or writes. */
  datatype Place = Place(space: Space, pid: int, addr: int)

  function PlaceOf(c: Call, dict: map<string, int>): Place
    requires Linkable(c) && !Lacks(c, dict)
  {
    Place(c.space, if c.space.Va? then dict["pid"] else 0, dict[AddressName(c.space)])
  }

  ghost predicate RepliesNumber(g: Guest, at: Place, n: nat, reply: Reply) {
    if AllMapped(g, at.space, at.pid, at.addr, at.addr + n)
    then reply.status == 0
         && exists v :: reply.result == Some(Num(v)) && HoldsNumber(g, at.space, at.pid, at.addr, n, v)
    else reply == Reply(Some(Num(0)), 1)
  }

  /** Some text breaks off there before its zero. */
  ghost predicate Breaks(g: Guest, at: Place) {
    exists before :: TextBreaks(g, at.space, at.pid, at.addr, before)
  }

  ghost predicate RepliesText(g: Guest, at: Place, reply: Reply) {
    if Breaks(g, at) then reply == Reply(None, 1)
    else reply.status == 0
         && exists s :: reply.result == Some(Bytes(s)) && HoldsText(g, at.space, at.pid, at.addr, s)
  }

  ghost predicate RepliesToWrite(g: Guest, at: Place, n: nat, value: int, reply: Reply, g': Guest) {
    if AllMapped(g, at.space, at.pid, at.addr, at.addr + n)
    then reply == Reply(None, 0) && Stores(g, at.space, at.pid, at.addr, n, value, g')
    else reply == Reply(None, 1) && g' == g
  }

  /** What a call with these arguments replies, and what it leaves. */
  ghost predicate Does(c: Call, dict: map<string, int>, g: Guest, reply: Reply, g': Guest) {
    match c
    case PauseVm => reply == Reply(None, 0) && g' == g.(pauses := g.pauses + 1)
    case ResumeVm => reply == Reply(None, 0) && g' == g.(pauses := g.pauses - 1)
    case _ =>
      if Lacks(c, dict) then reply == Reply(None, 1) && g' == g else Accesses(c, dict, g, reply, g')
  }

  ghost predicate Accesses(c: Call, dict: map<string, int>, g: Guest, reply: Reply, g': Guest)
    requires Linkable(c) && !Lacks(c, dict)
  {
    var at := PlaceOf(c, dict);
    match c
    case ReadInt(_, _) => g' == g && RepliesNumber(g, at, Width(c), reply)
    case ReadAddr(_) => g' == g && RepliesNumber(g, at, Width(c), reply)
    case ReadStr(_) => g' == g && RepliesText(g, at, reply)
    case WriteInt(_, _) => RepliesToWrite(g, at, Width(c), dict["value"], reply, g')
  }

  /** The one call that may not reply: READ_STR_PA of a text that breaks off. */
  ghost predicate NoReply(c: Call, dict: map<string, int>, g: Guest) {
    c == ReadStr(Pa) && "paddr" in dict && Breaks(g, Place(Pa, 0, dict["paddr"]))
  }

  lemma {:induction false} NumberIsReplied(g: Guest, at: Place, n: nat)
    ensures RepliesNumber(g, at, n, ReadReply(ReadBytes(g, at.space, at.pid, at.addr, at.addr + n)))
  {
    hide HoldsNumber, AllMapped, ReadBytes;
    ReadBytesIff(g, at.space, at.pid, at.addr, n);
  }

  lemma {:induction false} TextIsReplied(g: Guest, at: Place)
    ensures var text := ReadText(g, at.space, at.pid, at.addr);
            RepliesText(g, at, if text.Some? then Reply(Some(Bytes(text.value)), 0) else Reply(None, 1))
            && (text.None? <==> Breaks(g, at))
  {
    hide HoldsText, TextBreaks, ReadText;
    ReadTextIff(g, at.space, at.pid, at.addr);
  }

  /** The arguments by position are those by name. */
  lemma {:induction false} ArgsAreNamed(c: Call, dict: map<string, int>)
    requires Linkable(c)
    ensures var args := ArgList(c, dict);
            && ((exists k | 0 <= k < |args| :: args[k].None?) <==> Lacks(c, dict))
            && (!Lacks(c, dict) ==>
                  && args[0] == Some(dict[AddressName(c.space)])
                  && (c.space.Va? ==> args[1] == Some(dict["pid"]))
                  && (c.WriteInt? ==> args[|args| - 1] == Some(dict["value"])))
  {
    var args := ArgList(c, dict);
    assert args[0].None? <==> AddressName(c.space) !in dict;
    assert c.space.Va? ==> (args[1].None? <==> "pid" !in dict);
    assert c.WriteInt? ==> (args[|args| - 1].None? <==> "value" !in dict);
  }

  lemma {:induction false} AccessDoes(c: Call, dict: map<string, int>, g: Guest)
    requires Linkable(c) && !Lacks(c, dict) && forall k | 0 <= k < |ArgTypes(c)| :: ArgList(c, dict)[k].Some?
    ensures var (reply, g') := Access(c, ArgList(c, dict), g);
            && (reply.Ok? ==> Accesses(c, dict, g, reply.value, g'))
            && (reply.Err? ==> g' == g && reply.error == Undefined)
            && (reply.Err? <==> NoReply(c, dict, g))
  {
    hide RepliesNumber, RepliesText, Stores, AllMapped, Breaks, ReadBytes, ReadText, WriteBytes;
    ArgsAreNamed(c, dict);
    var at := PlaceOf(c, dict);
    match c
    case ReadInt(_, _) => NumberIsReplied(g, at, Width(c));
    case ReadAddr(_) => NumberIsReplied(g, at, Width(c));
    case ReadStr(_) => TextIsReplied(g, at);
    case WriteInt(_, _) => WriteBytesIff(g, at.space, at.pid, at.addr, Width(c), dict["value"]);
  }

  /** Every call does what this module says, for every guest and all arguments, given or missing. */
  lemma {:induction false} CallDoes(c: Call, dict: map<string, int>, g: Guest)
    ensures var (reply, g') := Execute(c, ArgList(c, dict), g);
            && (reply.Ok? ==> Does(c, dict, g, reply.value, g'))
            && (reply.Err? ==> g' == g && reply.error == Undefined)
            && (reply.Err? <==> NoReply(c, dict, g))
  {
    hide Access, Accesses, ArgList, Breaks;
    if Linkable(c) {
      ArgsAreNamed(c, dict);
      if !Lacks(c, dict) { AccessDoes(c, dict, g); }
    }
  }

  /** Where no two of its addresses are the same RAM, every byte of a value that has been written is there. */
  lemma {:induction false} StoredBytesAreHeld(g: Guest, at: Place, n: nat, v: int, g': Guest, i: nat)
    requires Stores(g, at.space, at.pid, at.addr, n, v, g') && AllMapped(g, at.space, at.pid, at.addr, at.addr + n)
    requires forall a, b, cell | at.addr <= a < b < at.addr + n && IsBehind(g, at.space, at.pid, a, cell) ::
               !IsBehind(g, at.space, at.pid, b, cell)
    requires i < n
    ensures HoldsByte(g', at.space, at.pid, at.addr + i, ByteOf(v, i))
  {
    SameCells(g, g', at.space, at.pid);
    hide IsBehind;
    var a := at.addr + i;
    assert IsMapped(g, at.space, at.pid, a);
    var cell :| IsBehind(g, at.space, at.pid, a, cell);
    assert Untouched(g, at.space, at.pid, a + 1, at.addr + n, cell);
    assert IsBehind(g', at.space, at.pid, a, cell) && g'.ram[cell] as int == ByteOf(v, i);
  }

  // ---------- runs ----------

  /** A request's arguments by name. */
  function Named(c: Call, args: seq<Option<int>>): map<string, int>
    requires |args| == |ArgTypes(c)|
  {
    map k | 0 <= k < |args| && args[k].Some? :: ArgNames(c)[k] := args[k].value
  }

  lemma {:induction false} NamedArgs(c: Call, args: seq<Option<int>>)
    requires |args| == |ArgTypes(c)|
    ensures ArgList(c, Named(c, args)) == args
  {
    hide ArgNames;
    forall i, j | 0 <= i < j < |args|
      ensures ArgNames(c)[i] != ArgNames(c)[j]
    {
      ArgNamesAreDistinct(c, i, j);
    }
    assert forall k | 0 <= k < |args| :: ArgList(c, Named(c, args))[k] == args[k];
  }

  lemma {:induction false} FinishDoes(c: Call, index: nat, args: Result<seq<Option<int>>, Fault>, s: State)
    requires args.Ok? ==> |args.value| == |ArgTypes(c)|
    requires s.stop.None? && Finish(c, index, args, s).stop.None?
    ensures var s' := Finish(c, index, args, s);
            && args.Ok? && |s'.log| == |s.log| + 1
            && Does(c, Named(c, args.value), s.guest, s'.log[|s.log|].reply, s'.guest)
  {
    hide Execute, Does, Named;
    NamedArgs(c, args.value);
    CallDoes(c, Named(c, args.value), s.guest);
  }

  lemma {:induction false} PlannedRuns(prog: seq<Request>, k: nat, g: Guest)
    requires WellTypedBatch(prog) && k < |prog| && RunTo(prog, k + 1, g).stop.None?
    ensures var s, s', t := RunTo(prog, k, g), RunTo(prog, k + 1, g), PlannedTo(prog, k, g);
            && |s.log| == k && SameRun(s, t) && t.stop.None?
            && SameRun(s', Finish(prog[k].call, RankOf(prog, k), PlannedArgs(prog, k, s.log), t))
  {
    hide Step, PlannedArgs, Finish, WellTyped, LinkPlan.Matches;
    RunFollowsPlan(prog, k, g);
    RunFollowsPlan(prog, k + 1, g);
  }

  /** Call k of a batch, aligned or not, does this to the guest that the calls before it have left, with the arguments
    that its link, if any, gives it. */
  lemma {:induction false} RunDoes(prog: seq<Request>, k: nat, g: Guest)
    requires WellTypedBatch(prog) && k < |prog| && RunTo(prog, k + 1, g).stop.None?
    ensures var s, s' := RunTo(prog, k, g), RunTo(prog, k + 1, g);
            var args := PlannedArgs(prog, k, s.log);
            && |s.log| == k && |s'.log| == k + 1 && args.Ok?
            && Does(prog[k].call, Named(prog[k].call, args.value), s.guest, s'.log[k].reply, s'.guest)
  {
    hide RunTo, PlannedTo, PlannedArgs, Finish, Does, Named;
    PlannedRuns(prog, k, g);
    var t := PlannedTo(prog, k, g);
    FinishDoes(prog[k].call, RankOf(prog, k), PlannedArgs(prog, k, t.log), t);
  }

  // ---------- records ----------

  /** The record of a reply: its status, and the result if the call has one. */
  ghost predicate Shows(c: Call, reply: Reply, fields: map<string, Value>) {
    && (forall name :: name in fields <==> name == "status" || (name == "result" && !c.WriteInt? && Linkable(c)))
    && fields["status"] == Num(reply.status)
    && (!c.WriteInt? && Linkable(c) ==>
          fields["result"] == if reply.result.Some? then reply.result.value
                              else if c.ReadStr? then Bytes([]) else Num(0))
  }

  /** Likewise by names alone: record k of a program is what its call does, with the arguments that the add gives it, or
    those that its link makes of them. */
  lemma {:induction false} MeaningDoes(src: seq<Added>, k: nat, g: Guest)
    requires k < |src| && MeaningTo(src, k + 1, g).stop.None?
    ensures var a, m, m' := src[k], MeaningTo(src, k, g), MeaningTo(src, k + 1, g);
            var dict := ArgDict(a.argv, |a.argv|);
            var linked := if HasLink(a.link) then ApplyLink(a.call, dict, a.link, m.env) else Ok(dict);
            && linked.Ok? && |m'.records| == |m.records| + 1 && m'.records[|m.records|].name == a.name
            && exists reply ::
                 && Does(a.call, linked.value, m.guest, reply, m'.guest)
                 && Shows(a.call, reply, m'.records[|m.records|].fields)
  {
    hide Execute, Does, ApplyLink, ArgDict, RecordFields, Shows;
    var a, m := src[k], MeaningTo(src, k, g);
    assert m.stop.None?;
    var dict := ArgDict(a.argv, |a.argv|);
    var linked := if HasLink(a.link) then ApplyLink(a.call, dict, a.link, m.env) else Ok(dict);
    CallDoes(a.call, linked.value, m.guest);
    var reply := Execute(a.call, ArgList(a.call, linked.value), m.guest).0.value;
    ShowsRecord(a.call, linked.value, m.guest, reply, MeaningTo(src, k + 1, g).guest);
  }

  lemma {:induction false} ShowsRecord(c: Call, dict: map<string, int>, g: Guest, reply: Reply, g': Guest)
    requires Does(c, dict, g, reply, g')
    ensures Shows(c, reply, RecordFields(Entry(c, reply)))
  {
    hide Stores, AllMapped, Breaks, HoldsText, HoldsNumber;
    assert "result"[0] != "status"[0];
  }
}

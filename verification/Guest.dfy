/** Guest memory as LibVMI shows it: RAM bytes, one translation per process, and DRAKVUF's nesting pause counter.

  Reads and writes are total: they fail on an address that is not mapped. */
module GuestMemory {
  import opened Wrappers
  import opened Schema

  newtype Byte = b: int | 0 <= b < 256

  datatype Guest = Guest(ram: map<int, Byte>, pageTables: map<(int, int), int>, pauses: int)

  /** The RAM address behind an address of a space; `pid` matters for virtual addresses only. */
  function Translate(g: Guest, space: Space, pid: int, addr: int): Option<int> {
    var a := if space.Pa? then Some(addr)
             else if (pid, addr) in g.pageTables then Some(g.pageTables[(pid, addr)])
             else None;
    if a.Some? && a.value in g.ram then a else None
  }

  function Pow256(n: nat): (p: nat)
    ensures p > 0
  {
    if n == 0 then 1 else 256 * Pow256(n - 1)
  }

  /** The little-endian integer in the bytes from `addr` up to `end`. */
  function ReadBytes(g: Guest, space: Space, pid: int, addr: int, end: int): (v: Option<nat>)
    requires addr <= end
    ensures v.Some? ==> v.value < Pow256(end - addr)
    decreases end - addr
  {
    if addr == end then Some(0)
    else
      match Translate(g, space, pid, addr)
      case None => None
      case Some(a) =>
        match ReadBytes(g, space, pid, addr + 1, end)
        case None => None
        case Some(rest) => Some(g.ram[a] as int + 256 * rest)
  }

  /** The bytes up to the first zero. */
  function ReadText(g: Guest, space: Space, pid: int, addr: int): Option<seq<Byte>>
    decreases UINT64 - addr
  {
    if addr >= UINT64 then None
    else
      match Translate(g, space, pid, addr)
      case None => None
      case Some(a) =>
        if g.ram[a] == 0 then Some([])
        else
          match ReadText(g, space, pid, addr + 1)
          case None => None
          case Some(rest) => Some([g.ram[a]] + rest)
  }

  /** Stores the low bytes of `v` from `addr` up to `end`, or fails and stores nothing. */
  function WriteBytes(g: Guest, space: Space, pid: int, addr: int, end: int, v: int): Option<Guest>
    requires addr <= end
    decreases end - addr
  {
    if addr == end then Some(g)
    else
      match Translate(g, space, pid, addr)
      case None => None
      case Some(a) => WriteBytes(g.(ram := g.ram[a := (v % 256) as Byte]), space, pid, addr + 1, end, v / 256)
  }

  /** What is read does not depend on whether the guest is paused. */
  lemma {:induction false} ReadsIgnorePauses(g: Guest, p: int, space: Space, pid: int, addr: int, end: int)
    requires addr <= end
    ensures ReadBytes(g.(pauses := p), space, pid, addr, end) == ReadBytes(g, space, pid, addr, end)
    decreases end - addr
  {
    if addr < end { ReadsIgnorePauses(g, p, space, pid, addr + 1, end); }
  }

  lemma {:induction false} TextIgnoresPauses(g: Guest, p: int, space: Space, pid: int, addr: int)
    ensures ReadText(g.(pauses := p), space, pid, addr) == ReadText(g, space, pid, addr)
    decreases UINT64 - addr
  {
    if addr < UINT64 { TextIgnoresPauses(g, p, space, pid, addr + 1); }
  }

  // ---------- what is written reads back ----------

  lemma {:induction false} ModIsUnique(v: int, m: nat, q: int, r: int)
    requires 0 <= r < m && v == m * q + r
    ensures v % m == r
  {
    var d := v / m - q;
    assert m * d == r - v % m;
    assert (d > 0 ==> m * d >= m) && (d < 0 ==> m * d <= 0 - m);
  }

  /** The value of the n low bytes of v, in two's complement. */
  function Low(v: int, n: nat): nat
    decreases n
  {
    if n == 0 then 0 else v % 256 + 256 * Low(v / 256, n - 1)
  }

  lemma {:induction false} LowByteAndRest(v: int, p: nat)
    requires p > 0
    ensures v % (256 * p) == v % 256 + 256 * (v / 256 % p)
  {
    var q := v / 256;
    var low := v % 256 + 256 * (q % p);
    assert q == p * (q / p) + q % p;
    assert v == (256 * p) * (q / p) + low;
    ModIsUnique(v, 256 * p, q / p, low);
  }

  lemma {:induction false} LowIsModulo(v: int, n: nat)
    ensures Low(v, n) == v % Pow256(n)
    decreases n
  {
    if n > 0 {
      LowIsModulo(v / 256, n - 1);
      LowByteAndRest(v, Pow256(n - 1));
    }
  }

  /** Two addresses between `addr` and `end` are never the same RAM. */
  predicate NoAlias(g: Guest, space: Space, pid: int, addr: int, end: int) {
    forall i, j | addr <= i < j < end :: Translate(g, space, pid, i) != Translate(g, space, pid, j)
  }

  /** A write leaves the mapping, the pauses, and all RAM outside its addresses. */
  lemma {:induction false} WriteKeepsTheRest(g: Guest, space: Space, pid: int, addr: int, end: int, v: int)
    requires addr <= end && WriteBytes(g, space, pid, addr, end, v).Some?
    ensures var g' := WriteBytes(g, space, pid, addr, end, v).value;
            && g'.pageTables == g.pageTables && g'.pauses == g.pauses && g'.ram.Keys == g.ram.Keys
            && forall a | a in g.ram && (forall i | addr <= i < end :: Translate(g, space, pid, i) != Some(a)) ::
                 g'.ram[a] == g.ram[a]
    decreases end - addr
  {
    if addr < end {
      var a := Translate(g, space, pid, addr).value;
      var g1 := g.(ram := g.ram[a := (v % 256) as Byte]);
      assert forall i :: Translate(g1, space, pid, i) == Translate(g, space, pid, i);
      WriteKeepsTheRest(g1, space, pid, addr + 1, end, v / 256);
    }
  }

  lemma {:induction false} SameTranslation(g: Guest, g': Guest, space: Space, pid: int)
    requires g'.pageTables == g.pageTables && g'.ram.Keys == g.ram.Keys
    ensures forall i :: Translate(g', space, pid, i) == Translate(g, space, pid, i)
  {}

  /** The byte written first is still there when the rest is written. */
  lemma {:induction false} FirstByteStays(g: Guest, space: Space, pid: int, addr: int, end: int, v: int)
    requires addr < end && WriteBytes(g, space, pid, addr, end, v).Some? && NoAlias(g, space, pid, addr, end)
    ensures var g' := WriteBytes(g, space, pid, addr, end, v).value;
            var a := Translate(g', space, pid, addr);
            a.Some? && g'.ram[a.value] as int == v % 256
  {
    var a := Translate(g, space, pid, addr).value;
    var g1 := g.(ram := g.ram[a := (v % 256) as Byte]);
    SameTranslation(g, g1, space, pid);
    WriteKeepsTheRest(g1, space, pid, addr + 1, end, v / 256);
    SameTranslation(g, WriteBytes(g, space, pid, addr, end, v).value, space, pid);
  }

  lemma {:induction false} WriteReadsLow(g: Guest, space: Space, pid: int, addr: int, end: int, v: int)
    requires addr <= end && WriteBytes(g, space, pid, addr, end, v).Some? && NoAlias(g, space, pid, addr, end)
    ensures ReadBytes(WriteBytes(g, space, pid, addr, end, v).value, space, pid, addr, end) == Some(Low(v, end - addr))
    decreases end - addr
  {
    if addr < end {
      FirstByteStays(g, space, pid, addr, end, v);
      var g1 := g.(ram := g.ram[Translate(g, space, pid, addr).value := (v % 256) as Byte]);
      SameTranslation(g, g1, space, pid);
      hide Translate, Pow256;
      assert NoAlias(g1, space, pid, addr + 1, end);
      WriteReadsLow(g1, space, pid, addr + 1, end, v / 256);
    }
  }

  /** A write that succeeds reads back as its value modulo the size. */
  lemma {:induction false} WriteReadsBack(g: Guest, space: Space, pid: int, addr: int, end: int, v: int)
    requires addr <= end && WriteBytes(g, space, pid, addr, end, v).Some? && NoAlias(g, space, pid, addr, end)
    ensures ReadBytes(WriteBytes(g, space, pid, addr, end, v).value, space, pid, addr, end)
            == Some(v % Pow256(end - addr))
  {
    WriteReadsLow(g, space, pid, addr, end, v);
    LowIsModulo(v, end - addr);
  }

  // ---------- a small guest ----------

  function Cell(value: Byte, i: int): Byte { if i == 0 then 8 else if i == 8 then value else 0 }

  /** A guest whose kernel has the number 8 at address 0, and another at address 8. */
  function SmallGuest(value: Byte): Guest {
    Guest(map i | 0 <= i < 16 :: Cell(value, i), map i | 0 <= i < 16 :: (0, i) := i, 0)
  }

  lemma {:induction false} SmallGuestHolds(value: Byte, i: int)
    requires 0 <= i < 16
    ensures Translate(SmallGuest(value), Va, 0, i) == Some(i)
    ensures i in SmallGuest(value).ram && SmallGuest(value).ram[i] == Cell(value, i)
  {
    assert (0, i) in SmallGuest(value).pageTables;
  }

  lemma {:induction false} ZerosRead(g: Guest, space: Space, pid: int, addr: int, end: int)
    requires addr <= end && forall i | addr <= i < end :: Translate(g, space, pid, i) == Some(i) && g.ram[i] == 0
    ensures ReadBytes(g, space, pid, addr, end) == Some(0)
    decreases end - addr
  {
    if addr < end { ZerosRead(g, space, pid, addr + 1, end); }
  }

  lemma {:induction false} OneByteReads(g: Guest, space: Space, pid: int, addr: int, end: int)
    requires addr < end && Translate(g, space, pid, addr) == Some(addr)
    requires forall i | addr < i < end :: Translate(g, space, pid, i) == Some(i) && g.ram[i] == 0
    ensures ReadBytes(g, space, pid, addr, end) == Some(g.ram[addr] as int)
  {
    ZerosRead(g, space, pid, addr + 1, end);
  }

  lemma {:induction false} SmallGuestReads(value: Byte, at: int)
    requires at in {0, 8}
    ensures ReadBytes(SmallGuest(value), Va, 0, at, at + 8) == Some(if at == 0 then 8 else value as int)
  {
    hide SmallGuest, Translate, ReadBytes;
    forall i | at <= i < at + 8
      ensures Translate(SmallGuest(value), Va, 0, i) == Some(i)
      ensures i in SmallGuest(value).ram && SmallGuest(value).ram[i] == Cell(value, i)
    {
      SmallGuestHolds(value, i);
    }
    OneByteReads(SmallGuest(value), Va, 0, at, at + 8);
  }

  // ---------- guests for any answer ----------

  /** A guest that has nothing mapped. */
  const NO_MEMORY := Guest(map[], map[], 0)

  function HeldAt(first: Byte, addr: int, a: int): Byte { if a == addr then first else 0 }

  /** A guest that has eight bytes at an address, the first of them given and the others 0. */
  function Holding(first: Byte, pid: int, addr: int): Guest {
    Guest(map a | addr <= a < addr + 8 :: HeldAt(first, addr, a),
          map a | addr <= a < addr + 8 :: (pid, a) := a, 0)
  }

  lemma {:induction false} HoldingHolds(first: Byte, space: Space, pid: int, addr: int, i: int)
    requires addr <= i < addr + 8
    ensures var g := Holding(first, pid, addr);
            Translate(g, space, pid, i) == Some(i) && i in g.ram && g.ram[i] == HeldAt(first, addr, i)
  {
    assert (pid, i) in Holding(first, pid, addr).pageTables;
  }

  lemma {:induction false} HoldingReads(first: Byte, space: Space, pid: int, addr: int, n: nat)
    requires 0 < n <= 8
    ensures ReadBytes(Holding(first, pid, addr), space, pid, addr, addr + n) == Some(first as int)
  {
    hide Holding, Translate, ReadBytes;
    var g := Holding(first, pid, addr);
    forall i | addr <= i < addr + n
      ensures Translate(g, space, pid, i) == Some(i) && i in g.ram && g.ram[i] == HeldAt(first, addr, i)
    {
      HoldingHolds(first, space, pid, addr, i);
    }
    OneByteReads(g, space, pid, addr, addr + n);
  }

  /** A write fails only on an address that is not mapped. */
  lemma {:induction false} MappedIsWritten(g: Guest, space: Space, pid: int, addr: int, end: int, v: int)
    requires addr <= end && forall i | addr <= i < end :: Translate(g, space, pid, i).Some?
    ensures WriteBytes(g, space, pid, addr, end, v).Some?
    decreases end - addr
  {
    if addr < end {
      var g1 := g.(ram := g.ram[Translate(g, space, pid, addr).value := (v % 256) as Byte]);
      SameTranslation(g, g1, space, pid);
      MappedIsWritten(g1, space, pid, addr + 1, end, v / 256);
    }
  }

  lemma {:induction false} HoldingIsWritten(space: Space, pid: int, addr: int, n: nat, v: int)
    requires n <= 8
    ensures WriteBytes(Holding(0, pid, addr), space, pid, addr, addr + n, v).Some?
  {
    hide Holding, Translate, WriteBytes;
    forall i | addr <= i < addr + n
      ensures Translate(Holding(0, pid, addr), space, pid, i).Some?
    {
      HoldingHolds(0, space, pid, addr, i);
    }
    MappedIsWritten(Holding(0, pid, addr), space, pid, addr, addr + n, v);
  }
}

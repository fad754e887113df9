/** app_pslist_pipeline.py: the whole process list of a guest as one batch, for any number of hops. */
module Pslist {
  import opened Schema
  import opened Columns
  import opened Execution
  import opened Refinement
  import opened BatchSource

  // ---------- labels ----------

  function Digit(d: nat): char
    requires d < 10
  {
    '0' + d as char
  }

  /** f"{i}" */
  function Decimal(i: nat): (s: string)
    ensures |s| > 0
    ensures |s| > 1 ==> s[0] != '0'
    ensures i > 0 ==> s[0] != '0'
  {
    if i < 10 then [Digit(i)] else Decimal(i / 10) + [Digit(i % 10)]
  }

  /** f"{i}1", f"{i}2" or f"{i}3" */
  function Label(i: nat, part: char): string { Decimal(i) + [part] }

  lemma {:induction false} DecimalIsInjective(a: nat, b: nat)
    requires Decimal(a) == Decimal(b)
    ensures a == b
  {
    var s, t := Decimal(a), Decimal(b);
    if a >= 10 && b >= 10 {
      assert s[..|s| - 1] == Decimal(a / 10) && t[..|t| - 1] == Decimal(b / 10);
      DecimalIsInjective(a / 10, b / 10);
      assert s[|s| - 1] == Digit(a % 10) && t[|t| - 1] == Digit(b % 10);
    }
  }

  /** The number that a decimal numeral denotes. */
  function NumeralValue(s: string): int
    decreases |s|
  {
    if s == [] then 0 else 10 * NumeralValue(s[..|s| - 1]) + (s[|s| - 1] as int - '0' as int)
  }

  lemma {:induction false} DecimalDenotes(i: nat)
    ensures NumeralValue(Decimal(i)) == i
    ensures forall k | 0 <= k < |Decimal(i)| :: '0' <= Decimal(i)[k] <= '9'
  {
    if i >= 10 {
      DecimalDenotes(i / 10);
      assert Decimal(i)[..|Decimal(i)| - 1] == Decimal(i / 10);
    } else {
      assert NumeralValue([Digit(i)][..0]) == 0;
    }
  }

  lemma {:induction false} LabelsDiffer(i: nat, p: char, j: nat, q: char)
    requires i != j || p != q
    ensures Label(i, p) != Label(j, q)
  {
    if Label(i, p) == Label(j, q) {
      var s, t := Label(i, p), Label(j, q);
      assert s[|s| - 1] == p && t[|t| - 1] == q;
      assert s[..|s| - 1] == Decimal(i) && t[..|t| - 1] == Decimal(j);
      DecimalIsInjective(i, j);
    }
  }

  lemma {:induction false} EndLabelsDiffer(i: nat, p: char)
    requires p != '0'
    ensures Label(i, p) != "000" && Label(i, p) != "001"
  {
    var s := Label(i, p);
    assert s[|s| - 1] == p;
    assert "001"[..2] == "00";
  }

  // ---------- the program ----------

  /** What the app looks up: the address of init_task and three offsets in task_struct. */
  datatype Lookups = Lookups(initTask: int, tasks: int, pid: int, name: int)

  function Head(l: Lookups): int { l.initTask + l.tasks }

  /** Where a hop reads relative to its list entry. */
  function Offset(l: Lookups, part: nat): int
    requires part < 3
  {
    if part == 0 then l.name - l.tasks else if part == 1 then l.pid - l.tasks else 0
  }

  /** The arguments that the adds pass are 64-bit unsigned; otherwise protobuf refuses one of them. */
  predicate Usable(l: Lookups) {
    && InRange(Uint64, Head(l))
    && forall part | 0 <= part < 3 :: InRange(Uint64, Offset(l, part)) && InRange(Uint64, Head(l) + Offset(l, part))
  }

  function PartCall(part: nat): Call
    requires part < 3
  {
    if part == 0 then ReadStr(Va) else if part == 1 then ReadInt(B32, Va) else ReadAddr(Va)
  }

  function PartChar(part: nat): (c: char)
    requires part < 3
    ensures c != '0'
  {
    if part == 0 then '1' else if part == 1 then '2' else '3'
  }

  /** One of the three adds of hop i: in place for hop 0, linked to the pointer of the hop before otherwise. */
  function HopAdd(l: Lookups, i: nat, part: nat): Added
    requires part < 3
  {
    var link := if i == 0 then NO_LINK else LinkArgs(Label(i - 1, '3'), "result", "vaddr", 1);
    var vaddr := if i == 0 then Head(l) + Offset(l, part) else Offset(l, part);
    Added(Label(i, PartChar(part)), PartCall(part), [("vaddr", vaddr), ("pid", 0)], link)
  }

  const PAUSE := Added("000", PauseVm, [("status", 1)], NO_LINK)
  const RESUME := Added("001", ResumeVm, [("status", 1)], NO_LINK)

  /** Message k of the batch with n hops. */
  function AddAt(l: Lookups, n: nat, k: nat): Added
    requires k < 3 * n + 2
  {
    if k == 0 then PAUSE
    else if k == 3 * n + 1 then RESUME
    else HopAdd(l, (k - 1) / 3, (k - 1) % 3)
  }

  function Source(l: Lookups, n: nat): (src: seq<Added>)
    ensures |src| == 3 * n + 2
  {
    seq(3 * n + 2, k requires 0 <= k < 3 * n + 2 => AddAt(l, n, k))
  }

  /** Message 3 i + 1 + part is that part of hop i. */
  lemma HopAt(l: Lookups, n: nat, i: nat, part: nat)
    requires i < n && part < 3
    ensures 3 * i + 1 + part < 3 * n + 1
    ensures Source(l, n)[3 * i + 1 + part] == HopAdd(l, i, part)
  {}

  lemma {:induction false} NamesAreDistinct(l: Lookups, n: nat)
    ensures DistinctNames(Source(l, n))
  {
    var src := Source(l, n);
    forall a, b | 0 <= a < b < |src|
      ensures src[a].name != src[b].name
    {
      if a == 0 {
        assert "000"[2] != "001"[2];
        if b < 3 * n + 1 { EndLabelsDiffer((b - 1) / 3, PartChar((b - 1) % 3)); }
      } else if b == 3 * n + 1 {
        EndLabelsDiffer((a - 1) / 3, PartChar((a - 1) % 3));
      } else {
        LabelsDiffer((a - 1) / 3, PartChar((a - 1) % 3), (b - 1) / 3, PartChar((b - 1) % 3));
      }
    }
  }

  lemma {:induction false} TargetsAreArguments(l: Lookups, n: nat)
    ensures TargetsArguments(Source(l, n))
  {
    assert "vaddr"[0] != "link"[0];
  }

  // ---------- the batch is aligned at every length ----------

  ghost predicate IsPslist(l: Lookups, n: nat, prog: seq<Request>) {
    CompilesTo(Source(l, n), prog) && WellTypedBatch(prog)
  }

  /** A part of hop i: its call, and its link to message 3 i, the pointer of the hop before. */
  predicate HopShape(prog: seq<Request>, i: nat, part: nat) {
    var k := 3 * i + 1 + part;
    && part < 3 && k < |prog| && prog[k].call == PartCall(part)
    && (Linked(prog, k) <==> i > 0)
    && (i > 0 ==> Target(prog, k) == 3 * i && Item(prog, k) == 0)
  }

  /** Calls and links of the compiled batch. */
  predicate Shape(prog: seq<Request>, n: nat) {
    && |prog| == 3 * n + 2
    && prog[0].call == PauseVm && !Linked(prog, 0)
    && prog[3 * n + 1].call == ResumeVm && !Linked(prog, 3 * n + 1)
    && forall i, part | 0 <= i < n && 0 <= part < 3 :: HopShape(prog, i, part)
  }

  lemma {:induction false} HopCall(l: Lookups, n: nat, prog: seq<Request>, i: nat, part: nat)
    requires IsPslist(l, n, prog) && i < n && part < 3
    ensures 3 * i + 1 + part < |prog| && prog[3 * i + 1 + part].call == PartCall(part)
  {
    HopAt(l, n, i, part);
    assert Builds(Source(l, n), 3 * i + 1 + part, prog[3 * i + 1 + part]);
  }

  lemma {:induction false} HopLink(l: Lookups, n: nat, prog: seq<Request>, i: nat, part: nat)
    requires IsPslist(l, n, prog) && i < n && part < 3
    ensures HopShape(prog, i, part)
  {
    var src, k := Source(l, n), 3 * i + 1 + part;
    HopAt(l, n, i, part);
    HopCall(l, n, prog, i, part);
    if i > 0 {
      PointerLink(l, n, prog, i, part);
    } else {
      assert Builds(src, k, prog[k]);
    }
  }

  lemma {:induction false} PointerLink(l: Lookups, n: nat, prog: seq<Request>, i: nat, part: nat)
    requires IsPslist(l, n, prog) && 0 < i < n && part < 3
    ensures 3 * i + 1 + part < |prog| && Linked(prog, 3 * i + 1 + part)
    ensures Target(prog, 3 * i + 1 + part) == 3 * i && Item(prog, 3 * i + 1 + part) == 0
  {
    HopAt(l, n, i, part);
    HopAt(l, n, i - 1, 2);
    HopCall(l, n, prog, i - 1, 2);
    NamesAreDistinct(l, n);
    LinkGoesTo(Source(l, n), prog, 3 * i + 1 + part, 3 * i);
    assert "result"[0] != "status"[0];
  }

  lemma {:induction false} PslistShape(l: Lookups, n: nat, prog: seq<Request>)
    requires IsPslist(l, n, prog)
    ensures Shape(prog, n)
  {
    assert Builds(Source(l, n), 0, prog[0]) && Builds(Source(l, n), 3 * n + 1, prog[3 * n + 1]);
    forall i, part | 0 <= i < n && 0 <= part < 3
      ensures HopShape(prog, i, part)
    {
      HopLink(l, n, prog, i, part);
    }
  }

  lemma {:induction false} HopTag(n: nat, prog: seq<Request>, i: nat, part: nat)
    requires Shape(prog, n) && i < n && part < 3
    ensures 3 * i + 1 + part < |prog|
    ensures RequestTags(prog)[3 * i + 1 + part] == if part == 0 then 74 else if part == 1 then 46 else 64
  {
    assert HopShape(prog, i, part);
  }

  /** A hop adds one call of each kind. */
  lemma {:induction false} HopTags(n: nat, prog: seq<Request>, i: nat)
    requires Shape(prog, n) && i < n
    ensures var tags, k := RequestTags(prog), 3 * i + 1;
            forall tag ::
              && Count(tags[..k + 1], tag) == Count(tags[..k], tag) + (if tag == 74 then 1 else 0)
              && Count(tags[..k + 2], tag) == Count(tags[..k + 1], tag) + (if tag == 46 then 1 else 0)
              && Count(tags[..k + 3], tag) == Count(tags[..k + 2], tag) + (if tag == 64 then 1 else 0)
  {
    HopTag(n, prog, i, 0);
    HopTag(n, prog, i, 1);
    HopTag(n, prog, i, 2);
    CountNext(RequestTags(prog), 3 * i + 1);
    CountNext(RequestTags(prog), 3 * i + 2);
    CountNext(RequestTags(prog), 3 * i + 3);
  }

  lemma {:induction false} OneOfEach(n: nat, prog: seq<Request>, i: nat, tag: nat)
    requires Shape(prog, n) && i < n && tag in {74, 46, 64}
    ensures Count(RequestTags(prog)[..3 * i + 4], tag) == Count(RequestTags(prog)[..3 * i + 1], tag) + 1
  {
    hide Count, HopShape;
    var tags, k := RequestTags(prog), 3 * i + 1;
    HopTags(n, prog, i);
    assert Count(tags[..k + 1], tag) == Count(tags[..k], tag) + if tag == 74 then 1 else 0;
    assert Count(tags[..k + 2], tag) == Count(tags[..k + 1], tag) + if tag == 46 then 1 else 0;
    assert Count(tags[..k + 3], tag) == Count(tags[..k + 2], tag) + if tag == 64 then 1 else 0;
  }

  /** Before hop i each of the three calls has run i times. */
  lemma {:induction false} HopCounts(n: nat, prog: seq<Request>, i: nat)
    requires Shape(prog, n) && i <= n
    ensures var before := RequestTags(prog)[..3 * i + 1];
            Count(before, 74) == i && Count(before, 46) == i && Count(before, 64) == i
  {
    hide HopShape, Count;
    if i == 0 {
      NoHopCounts(n, prog);
    } else {
      HopCounts(n, prog, i - 1);
      OneOfEach(n, prog, i - 1, 74);
      OneOfEach(n, prog, i - 1, 46);
      OneOfEach(n, prog, i - 1, 64);
      assert 3 * (i - 1) + 4 == 3 * i + 1;
    }
  }

  /** Before the first hop there is only the pause. */
  lemma {:induction false} NoHopCounts(n: nat, prog: seq<Request>)
    requires Shape(prog, n)
    ensures |prog| > 0
    ensures var before := RequestTags(prog)[..3 * 0 + 1];
            Count(before, 74) == 0 && Count(before, 46) == 0 && Count(before, 64) == 0
  {
    CountNext(RequestTags(prog), 0);
  }

  lemma {:induction false} HopRank(n: nat, prog: seq<Request>, i: nat, part: nat)
    requires Shape(prog, n) && i < n && part < 3
    ensures RankOf(prog, 3 * i + 1 + part) == i
  {
    assert HopShape(prog, i, part);
    hide Shape, HopShape, Count;
    HopTag(n, prog, i, part);
    HopTags(n, prog, i);
    HopCounts(n, prog, i);
  }

  /** Of the reply fields filled before a hop, only READ_STR_VA_RET has a larger number than READ_ADDR_VA_RET. */
  lemma {:induction false} HopDepth(n: nat, prog: seq<Request>, i: nat)
    requires Shape(prog, n) && 0 < i < n
    ensures Depth(Answered(prog, 3 * i + 1), 65) == 1
  {
    var tags := Answered(prog, 3 * i + 1);
    assert HopShape(prog, 0, 0);
    assert tags[1] == 75;
    forall t | t in tags && t > 65
      ensures t == 75
    {
      var k :| 0 <= k < |tags| && tags[k] == t;
      if k > 0 { assert HopShape(prog, (k - 1) / 3, (k - 1) % 3); }
    }
    assert Above(tags, 65) == {75};
  }

  /** A miss can only be the first part of a hop: the others link to the same message. */
  lemma {:induction false} MissIsFirstPart(n: nat, prog: seq<Request>, k: nat) returns (i: nat)
    requires Shape(prog, n) && IsMiss(prog, k)
    ensures 0 < i < n && k == 3 * i + 1 && Target(prog, k) == 3 * i
  {
    i := (k - 1) / 3;
    assert HopShape(prog, i, (k - 1) % 3);
    if (k - 1) % 3 > 0 {
      assert HopShape(prog, i, 0);
      LinkHasTarget(prog, k, 3 * i + 1);
    }
  }

  /** The lookup of hop i lands on READ_ADDR_VA_RET[i - 1], and every later part of the hop hits the cache: the batch is
    aligned, however long it is. */
  lemma {:induction false} PslistIsAligned(n: nat, prog: seq<Request>)
    requires Shape(prog, n)
    ensures Aligned(prog)
  {
    forall k | 0 <= k < |prog|
      ensures AlignedAt(prog, k)
    {
      if Linked(prog, k) {
        var i := (k - 1) / 3;
        assert HopShape(prog, i, (k - 1) % 3);
        HopSameItem(n, prog, k);
        if IsMiss(prog, k) { HopAligned(n, prog, k); }
      }
    }
  }

  lemma {:induction false} HopSameItem(n: nat, prog: seq<Request>, k: nat)
    requires Shape(prog, n) && Linked(prog, k)
    ensures SameItem(prog, k)
  {
    forall h | 0 <= h <= k && Linked(prog, h)
      ensures Item(prog, h) == 0
    {
      assert HopShape(prog, (h - 1) / 3, (h - 1) % 3);
    }
  }

  lemma {:induction false} HopAligned(n: nat, prog: seq<Request>, k: nat)
    requires Shape(prog, n) && IsMiss(prog, k)
    ensures Target(prog, k) < k && SearchesRightPlace(prog, k) && NotPassed(prog, k)
  {
    var i := MissIsFirstPart(n, prog, k);
    assert HopShape(prog, i - 1, 2);
    HopRank(n, prog, i, 0);
    HopRank(n, prog, i - 1, 2);
    HopDepth(n, prog, i);
    HopNotPassed(n, prog, k, i);
  }

  lemma {:induction false} HopNotPassed(n: nat, prog: seq<Request>, k: nat, i: nat)
    requires Shape(prog, n) && IsMiss(prog, k) && 0 < i < n && k == 3 * i + 1 && Target(prog, k) == 3 * i
    ensures NotPassed(prog, k)
  {
    HopRank(n, prog, i - 1, 2);
    forall h | 0 <= h < k && IsMiss(prog, h)
      ensures Target(prog, h) <= Target(prog, k) && RankOf(prog, Target(prog, h)) <= RankOf(prog, Target(prog, k))
    {
      var j := MissIsFirstPart(n, prog, h);
      HopRank(n, prog, j - 1, 2);
    }
  }
}

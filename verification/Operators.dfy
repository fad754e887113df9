/** What a client's numbers and names mean: the operators 1, 2 and 3 in integer arithmetic, the values that an argument
  accepts, and exactly which adds and items are refused. */
module ClientMeaning {
  import opened Wrappers
  import opened Schema
  import opened Execution
  import opened Refinement
  import opened BatchSource
  import opened BatchMeaning
  import opened BatchFrontend

  const TWO32 := 0x1_0000_0000
  const TWO64 := 0x1_0000_0000_0000_0000

  // ---------- the operators ----------

  /** Arguments of 64 bits are unsigned, the others signed in 32 bits. */
  predicate FitsArg(wide: bool, v: int) { if wide then 0 <= v < TWO64 else -0x8000_0000 <= v < 0x8000_0000 }

  /** v is exact up to a multiple of 2 to the width. */
  predicate Congruent(wide: bool, v: int, exact: int) { (v - exact) % (if wide then TWO64 else TWO32) == 0 }

  /** A negative argument, as 64 bits. */
  function Unsigned64(current: int): int { if current < 0 then current + TWO64 else current }

  /** What a link makes of an argument: 1 adds, 2 subtracts or is refused with error 26, 3 overwrites. */
  predicate Gives(opr: int, wide: bool, current: int, referenced: int, r: Result<int, Fault>) {
    if opr == 2 && Unsigned64(current) < referenced then r == Err(BatchError(26))
    else
      && opr in {1, 2, 3} && r.Ok? && FitsArg(wide, r.value)
      && Congruent(wide, r.value,
                   if opr == 1 then current + referenced else if opr == 2 then current - referenced else referenced)
  }

  lemma {:induction false} OperatorsAre(opr: int)
    ensures OperatorOf(opr).Some? <==> opr in {1, 2, 3}
  {}

  lemma {:induction false} Congruence(wide: bool, v: int, exact: int, q: int)
    requires v - exact == q * if wide then TWO64 else TWO32
    ensures Congruent(wide, v, exact)
  {}

  /** Into 64 bits. */
  lemma {:induction false} WideGives(opr: int, current: int, referenced: int)
    requires OperatorOf(opr).Some? && FitsArg(true, current) && 0 <= referenced < TWO64
    ensures Gives(opr, true, current, referenced, Operate(OperatorOf(opr).value, ToU64(current), referenced))
  {
    if opr == 1 {
      Congruence(true, (current + referenced) % TWO64, current + referenced, -((current + referenced) / TWO64));
    }
  }

  lemma {:induction false} TruncationIsCongruent(v: int, exact: int, q: int)
    requires v - exact == q * TWO64
    ensures FitsArg(false, ToInt32(v)) && Congruent(false, ToInt32(v), exact)
  {
    var q' := if v % TWO32 <= 0x7fff_ffff then 0 else 1;
    Congruence(false, ToInt32(v), exact, q * TWO32 - v / TWO32 - q');
  }

  /** Into 32 bits: the operation is in 64, and what does not fit is cut off. */
  lemma {:induction false} NarrowGives(opr: int, current: int, referenced: int)
    requires OperatorOf(opr).Some? && FitsArg(false, current) && 0 <= referenced < TWO64
    ensures var r := Operate(OperatorOf(opr).value, ToU64(current), referenced);
            Gives(opr, false, current, referenced, if r.Ok? then Ok(ToInt32(r.value)) else r)
  {
    hide ToInt32;
    var sign := if current < 0 then 1 else 0;
    if opr == 1 {
      var sum := ToU64(current) + referenced;
      TruncationIsCongruent(sum % TWO64, current + referenced, sign - sum / TWO64);
    } else if opr == 2 {
      TruncationIsCongruent(ToU64(current) - referenced, current - referenced, sign);
    } else {
      TruncationIsCongruent(referenced, referenced, 0);
    }
  }

  // ---------- what a link makes of a request ----------

  /** The argument of a call that a name stands for, and the number of its place. */
  predicate IsArg(c: Call, name: string, j: nat) {
    match c
    case PauseVm => name == "status" && j == 0
    case ResumeVm => name == "status" && j == 0
    case _ =>
      || (j == 0 && name == if c.space.Pa? then "paddr" else "vaddr")
      || (j == 1 && name == "pid" && c.space.Va?)
      || (name == "value" && c.WriteInt? && j == if c.space.Pa? then 1 else 2)
  }

  /** Addresses are wide; a 64-bit value to write is an int64, which no link can fill. */
  predicate IsWide(name: string) { name == "paddr" || name == "vaddr" }

  predicate IsInt64(c: Call, name: string) { name == "value" && c.WriteInt? && c.size.B64? }

  /** A reply's field as a 64-bit number: negative ones wrap. */
  function Referenced(e: Entry, field: string): int {
    var n := if field == "status" then e.reply.status
             else if e.reply.result.Some? && e.reply.result.value.Num? then e.reply.result.value.n else 0;
    n % TWO64
  }

  function CurrentOf(args: seq<Option<int>>, j: nat): int {
    if j < |args| && args[j].Some? then args[j].value else 0
  }

  /** A request's arguments with its link applied, for a number from the field that is named, into argument j. */
  ghost predicate LinkGives(r: Request, opr: int, name: string, j: nat, referenced: int,
                            args: Result<seq<Option<int>>, Fault>)
  {
    if IsInt64(r.call, name) then args == Err(BatchError(25))
    else
      && j < |r.args|
      && (args.Err? ==> Gives(opr, IsWide(name), CurrentOf(r.args, j), referenced, Err(args.error)))
      && (args.Ok? ==>
            && |args.value| == |r.args| && args.value[j].Some?
            && Gives(opr, IsWide(name), CurrentOf(r.args, j), referenced, Ok(args.value[j].value))
            && forall k | 0 <= k < |r.args| && k != j :: args.value[k] == r.args[k])
  }

  lemma {:induction false} ArgIs(c: Call, name: string, j: nat)
    requires IsArg(c, name, j)
    ensures j < |ArgTypes(c)| && ArgNames(c)[j] == name
    ensures ArgTypes(c)[j] == if IsWide(name) then Uint64 else if IsInt64(c, name) then Int64 else Int32
  {
    assert "pid"[0] == 'p' && "pid"[1] == 'i' && "paddr"[1] == 'a' && "vaddr"[1] == 'a' && "value"[2] == 'l'
           && "vaddr"[2] == 'd' && "paddr"[0] == 'p' && "value"[0] == 'v' && "status"[0] == 's';
  }

  lemma {:induction false} CombineGives(r: Request, link: Link, opr: int, name: string, referenced: int)
    requires WellTyped(r) && Linkable(r.call) && IsArg(r.call, name, link.curItem)
    requires OperatorOf(opr) == Some(link.op) && 0 <= referenced < TWO64
    ensures LinkGives(r, opr, name, link.curItem, referenced, Combine(r, link, referenced))
  {
    hide Operate, ToU64, ToInt32, Gives, IsArg;
    var j := link.curItem;
    ArgIs(r.call, name, j);
    if !IsInt64(r.call, name) {
      var current := CurrentOf(r.args, j);
      if IsWide(name) { WideGives(opr, current, referenced); } else { NarrowGives(opr, current, referenced); }
    }
  }

  /** Every reply has a status, and that of a read a result. */
  predicate HasField(c: Call, field: string) {
    field == "status" || (field == "result" && (c.ReadInt? || c.ReadAddr? || c.ReadStr?))
  }

  /** The number of a reply's field. */
  predicate IsField(c: Call, field: string, item: nat) {
    HasField(c, field) && item == if field == "status" && HasField(c, "result") then 1 else 0
  }

  lemma {:induction false} FieldIs(c: Call, field: string, item: nat)
    ensures IsField(c, field, item) <==> item < |ReplyNames(c)| && ReplyNames(c)[item] == field
    ensures HasField(c, field) <==> field in ReplyNames(c)
  {
    assert "result"[0] != "status"[0];
    var names := ReplyNames(c);
    assert names[0] in names && names[|names| - 1] in names;
  }

  lemma {:induction false} FieldReads(e: Entry, field: string, item: nat)
    requires IsField(e.call, field, item)
    ensures ReplyField(e, item) == if field == "result" && e.call.ReadStr? then Err(BatchError(20))
                                   else Ok(Referenced(e, field))
  {
    assert "result"[0] != "status"[0];
  }

  /** What DirectArgs gives a request whose link reads a field of an entry. */
  ghost predicate LinkedArgs(r: Request, opr: int, name: string, j: nat, e: Entry, field: string,
                             args: Result<seq<Option<int>>, Fault>)
  {
    if field == "result" && e.call.ReadStr? then args == Err(BatchError(20))
    else LinkGives(r, opr, name, j, Referenced(e, field), args)
  }

  lemma {:induction false} DirectGives(log: seq<Entry>, r: Request, opr: int, name: string, field: string)
    requires WellTyped(r) && r.link.Some? && r.link.value.prevMsg < |log|
    requires IsField(log[r.link.value.prevMsg].call, field, r.link.value.prevItem)
    requires IsArg(r.call, name, r.link.value.curItem) && OperatorOf(opr) == Some(r.link.value.op)
    ensures LinkedArgs(r, opr, name, r.link.value.curItem, log[r.link.value.prevMsg], field, DirectArgs(log, r))
  {
    hide ReplyField, Combine, LinkGives, IsArg, IsField;
    var link := r.link.value;
    FieldReads(log[link.prevMsg], field, link.prevItem);
    CombineGives(r, link, opr, name, Referenced(log[link.prevMsg], field));
  }

  lemma {:induction false} ArgHasPlace(c: Call, name: string, j: nat)
    ensures IsArg(c, name, j) <==> j < |ArgNames(c)| && ArgNames(c)[j] == name
  {
    if j < |ArgNames(c)| && ArgNames(c)[j] == name { NameHasPlace(c, j); }
    if IsArg(c, name, j) { ArgIs(c, name, j); }
  }

  lemma {:induction false} NameHasPlace(c: Call, j: nat)
    requires j < |ArgNames(c)|
    ensures IsArg(c, ArgNames(c)[j], j)
  {}

  /** A link that add has compiled, with distinct labels: the call under its label, the field and the argument by
    name, and the operator by number. */
  lemma {:induction false} CompiledLinkGives(src: seq<Added>, prog: seq<Request>, k: nat, log: seq<Entry>)
    returns (p: nat, j: nat)
    requires CompilesTo(src, prog) && DistinctNames(src) && WellTypedBatch(prog)
    requires LogOf(prog, log) && |log| == k < |src|
    requires HasLink(src[k].link) && src[k].link.target != "link"
    ensures var a, l, dict := src[k], src[k].link, ArgDict(src[k].argv, |src[k].argv|);
            && p < k && src[p].name == l.name && l.opr in {1, 2, 3} && IsArg(a.call, l.target, j)
            && CurrentOf(prog[k].args, j) == (if l.target in dict then dict[l.target] else 0)
            && LinkedArgs(prog[k], l.opr, l.target, j, log[p], l.field, DirectArgs(log, prog[k]))
  {
    hide OperatorOf, IsArg, IsField, DirectArgs, ReplyNames, ArgNames, LinkedArgs, Referenced, WellTyped;
    var a := src[k];
    LinksMeanWhatTheySay(src, prog, k);
    CompiledIsWellTyped(src, prog);
    var link := prog[k].link.value;
    p, j := link.prevMsg, link.curItem;
    OperatorsAre(a.link.opr);
    FieldIs(log[p].call, a.link.field, link.prevItem);
    ArgHasPlace(a.call, a.link.target, j);
    DirectGives(log, prog[k], a.link.opr, a.link.target, a.link.field);
    CompiledArg(src, prog, k, j);
  }

  /** What the add gives for argument j. */
  lemma {:induction false} CompiledArg(src: seq<Added>, prog: seq<Request>, k: nat, j: nat)
    requires CompilesTo(src, prog) && k < |src| && j < |ArgNames(src[k].call)|
    ensures var dict, name := ArgDict(src[k].argv, |src[k].argv|), ArgNames(src[k].call)[j];
            CurrentOf(prog[k].args, j) == if name in dict then dict[name] else 0
  {
    var a := src[k];
    assert Builds(src, k, prog[k]);
    BuiltIsSettable(src, prog, k);
    hide CompilesTo, ArgNames, CompileLink, Settable;
    ArgsByName(a.call, a.argv, |a.argv|);
  }

  /** An item of a batch that prep_batch has accepted: message, field and argument by number. */
  lemma {:induction false} ItemLinkGives(item: BatchItem, log: seq<Entry>, field: string, name: string)
    requires ItemOk(item) && item.link.Some? && item.link.value.prevMsg < |log|
    requires IsField(log[item.link.value.prevMsg].call, field, item.link.value.prevItem)
    requires IsArg(item.call, name, item.link.value.curItem)
    ensures var l, r := item.link.value, ItemRequest(item);
            && l.opr in {1, 2, 3}
            && LinkedArgs(r, l.opr, name, l.curItem, log[l.prevMsg], field, DirectArgs(log, r))
  {
    hide IsArg, IsField, DirectArgs, LinkedArgs, Referenced;
    OperatorsAre(item.link.value.opr);
    DirectGives(log, ItemRequest(item), item.link.value.opr, name, field);
  }

  /** A link into `link` itself, which add accepts, always stops the batch: text cannot be carried, the number of the
    field is past the fields of a read of physical memory, and otherwise the field is no number. */
  lemma {:induction false} LinkIntoLinkStops(src: seq<Added>, prog: seq<Request>, k: nat, log: seq<Entry>)
    requires CompilesTo(src, prog) && DistinctNames(src) && WellTypedBatch(prog)
    requires LogOf(prog, log) && |log| == k < |src|
    requires HasLink(src[k].link) && src[k].link.target == "link"
    ensures Linkable(src[k].call) && Linked(prog, k) && Target(prog, k) < k
    ensures DirectArgs(log, prog[k])
         == Err(if src[k].link.field == "result" && log[Target(prog, k)].call.ReadStr? then BatchError(20)
                else if src[k].call.space.Pa? && !src[k].call.WriteInt? then Undefined else BatchError(25))
  {
    LinksMeanWhatTheySay(src, prog, k);
    assert Builds(src, k, prog[k]);
    var link := prog[k].link.value;
    hide CompilesTo;
    FieldIs(log[link.prevMsg].call, src[k].link.field, link.prevItem);
    FieldReads(log[link.prevMsg], src[k].link.field, link.prevItem);
  }

  /** How many fields a call's reply has, and its request, `link` included. */
  function ReplyFieldCount(c: Call): nat { if c.WriteInt? || c.PauseVm? || c.ResumeVm? then 1 else 2 }

  function RequestFieldCount(c: Call): nat
    requires Linkable(c)
  {
    (if c.space.Pa? then 2 else 3) + if c.WriteInt? then 1 else 0
  }

  /** A number that is no field of the reply is error 18, but for the first such number, which is undefined. */
  lemma {:induction false} FieldNumberFails(e: Entry, item: nat)
    requires item >= ReplyFieldCount(e.call)
    ensures ReplyField(e, item) == Err(if item == ReplyFieldCount(e.call) then Undefined else BatchError(18))
  {}

  /** A number that is no argument is error 25 for `link` itself and error 22 otherwise, but for the first past the
    fields. */
  lemma {:induction false} ArgNumberFails(r: Request, link: Link, prior: int)
    requires WellTyped(r) && Linkable(r.call) && link.curItem >= RequestFieldCount(r.call) - 1
    ensures Combine(r, link, prior)
         == Err(if link.curItem == RequestFieldCount(r.call) - 1 then BatchError(25)
                else if link.curItem == RequestFieldCount(r.call) then Undefined
                else BatchError(22))
  {}

  /** The last value that the first n entries give under a name. */
  function LastGiven(argv: seq<(string, int)>, n: nat, name: string): Option<int>
    requires n <= |argv|
  {
    if n == 0 then None else if argv[n - 1].0 == name then Some(argv[n - 1].1) else LastGiven(argv, n - 1, name)
  }

  /** A request holds under each name the value given for it, the last one, and nothing where none is given. */
  lemma {:induction false} GivenArgs(c: Call, argv: seq<(string, int)>, n: nat, name: string, j: nat)
    requires n <= |argv| && (forall i | 0 <= i < n :: Settable(c, argv[i])) && IsArg(c, name, j)
    ensures j < |ArgTypes(c)| && SetArgs(c, argv, n)[j] == LastGiven(argv, n, name)
    decreases n
  {
    hide ArgNames, ArgTypes, IsArg, Settable, SetArg;
    ArgHasPlace(c, name, j);
    if n > 0 {
      GivenArgs(c, argv, n - 1, name, j);
      OneArgIsSet(c, SetArgs(c, argv, n - 1), argv[n - 1], j);
    }
  }

  lemma {:induction false} OneArgIsSet(c: Call, args: seq<Option<int>>, arg: (string, int), j: nat)
    requires |args| == |ArgTypes(c)| && Settable(c, arg) && j < |args|
    ensures SetArg(c, args, arg)[j] == if ArgNames(c)[j] == arg.0 then Some(arg.1) else args[j]
  {
    hide ArgNames, ArgTypes;
    PositionOfArg(c, j);
  }

  // ---------- what is refused ----------

  /** A value that an argument accepts. */
  predicate Accepts(c: Call, name: string, v: int) {
    && (exists j | 0 <= j < 3 :: IsArg(c, name, j))
    && if IsWide(name) then 0 <= v < TWO64
       else if IsInt64(c, name) then -0x8000_0000_0000_0000 <= v < 0x8000_0000_0000_0000
       else -0x8000_0000 <= v < 0x8000_0000
  }

  /** setattr accepts exactly such values under the names of the call's arguments. */
  lemma {:induction false} SettableIff(c: Call, arg: (string, int))
    ensures Settable(c, arg) <==> Accepts(c, arg.0, arg.1)
  {
    hide IsArg;
    var names, p := ArgNames(c), Position(ArgNames(c), arg.0);
    if p.Some? {
      ArgHasPlace(c, arg.0, p.value);
      ArgIs(c, arg.0, p.value);
    }
    if j :| 0 <= j < 3 && IsArg(c, arg.0, j) { ArgHasPlace(c, arg.0, j); }
  }

  /** An item is accepted if and only if its values are, its call can be linked, its operator is 1, 2 or 3, and its
    indices have 32 bits. */
  lemma {:induction false} ItemOkIff(item: BatchItem)
    ensures ItemOk(item)
            <==> && (forall i | 0 <= i < |item.argv| :: Accepts(item.call, item.argv[i].0, item.argv[i].1))
                 && (item.link.Some? ==>
                       var l := item.link.value;
                       && !item.call.PauseVm? && !item.call.ResumeVm? && l.opr in {1, 2, 3}
                       && 0 <= l.prevMsg < TWO32 && 0 <= l.prevItem < TWO32 && 0 <= l.curItem < TWO32)
  {
    hide Settable, Accepts;
    forall i | 0 <= i < |item.argv|
      ensures Settable(item.call, item.argv[i]) <==> Accepts(item.call, item.argv[i].0, item.argv[i].1)
    {
      SettableIff(item.call, item.argv[i]);
    }
  }

  /** What add accepts of a link, after the adds of `src`. */
  predicate LinkAccepted(src: seq<Added>, c: Call, l: LinkArgs) {
    && !c.PauseVm? && !c.ResumeVm? && l.opr in {1, 2, 3}
    && l.name in Names(src) && HasField(src[LastUse(src, l.name)].call, l.field)
    && (l.target == "link" || exists j | 0 <= j < 3 :: IsArg(c, l.target, j))
  }

  lemma {:induction false} LinkAcceptedIff(src: seq<Added>, c: Call, l: LinkArgs)
    ensures CompileLink(Names(src), NameMap(src), c, l).Some? <==> LinkAccepted(src, c, l)
  {
    hide IsArg, HasField, LastUse, NameMap, ReplyNames, ArgNames;
    MapHasNames(src, l.name);
    if l.name in Names(src) {
      NameMapIsLastUse(src, l.name);
      FieldIs(src[LastUse(src, l.name)].call, l.field, 0);
    }
    var p := Position(ArgNames(c), l.target);
    if p.Some? {
      ArgHasPlace(c, l.target, p.value);
      assert p.value < 3 by { AtMostThree(c); }
    }
    if j :| 0 <= j < 3 && IsArg(c, l.target, j) { ArgHasPlace(c, l.target, j); }
  }

  lemma {:induction false} AtMostThree(c: Call)
    ensures |ArgNames(c)| <= 3
  {}

  lemma {:induction false} MapHasNames(src: seq<Added>, name: string)
    ensures name in NameMap(src) <==> name in Names(src)
  {
    if src != [] {
      MapHasNames(src[..|src| - 1], name);
      assert Names(src) == Names(src[..|src| - 1]) + [src[|src| - 1].name];
    }
  }

  /** An add does not raise if and only if its values are accepted, and so is its link, if it asks for one with all four
    linkage arguments. */
  lemma {:induction false} AddAcceptedIff(src: seq<Added>, a: Added)
    ensures CompileAdd(Names(src), NameMap(src), a).Some?
            <==> && (forall i | 0 <= i < |a.argv| :: Accepts(a.call, a.argv[i].0, a.argv[i].1))
                 && (a.link.name != "" && a.link.field != "" && a.link.target != "" && a.link.opr != 0 ==>
                       LinkAccepted(src, a.call, a.link))
  {
    hide Settable, Accepts, CompileLink, LinkAccepted, SetArgs;
    forall i | 0 <= i < |a.argv|
      ensures Settable(a.call, a.argv[i]) <==> Accepts(a.call, a.argv[i].0, a.argv[i].1)
    {
      SettableIff(a.call, a.argv[i]);
    }
    LinkAcceptedIff(src, a.call, a.link);
  }
}

/** The labelled program that a tenant writes with batch_obj.add, its compilation to requests, and its meaning. */
module BatchSource {
  import opened Wrappers
  import opened Schema
  import opened Execution
  import opened Refinement
  import opened Errors

  /** linkname, linkfield, linktgt and linkopr of one add; an empty string or a 0 stands for a falsy argument. */
  datatype LinkArgs = LinkArgs(name: string, field: string, target: string, opr: int)

  const NO_LINK := LinkArgs("", "", "", 0)

  /** The arguments of one add; `argv` is the argument dict in its order. */
  datatype Added = Added(name: string, call: Call, argv: seq<(string, int)>, link: LinkArgs)

  predicate HasLink(l: LinkArgs) { l.name != "" && l.field != "" && l.target != "" && l.opr != 0 }

  function Names(src: seq<Added>): (names: seq<string>)
    ensures |names| == |src|
    ensures forall i | 0 <= i < |src| :: names[i] == src[i].name
  {
    seq(|src|, i requires 0 <= i < |src| => src[i].name)
  }

  /** namemap: the latest call under each label */
  function NameMap(src: seq<Added>): map<string, Call> {
    if src == [] then map[]
    else
      var last := |src| - 1;
      NameMap(src[..last])[src[last].name := src[last].call]
  }

  // ---------- compilation ----------

  /** setattr(submsg, argname, argv) refuses unknown fields and values out of range. */
  predicate Settable(c: Call, arg: (string, int)) {
    match Position(ArgNames(c), arg.0)
    case None => false
    case Some(k) => InRange(ArgTypes(c)[k], arg.1)
  }

  function SetArg(c: Call, args: seq<Option<int>>, arg: (string, int)): (args': seq<Option<int>>)
    requires |args| == |ArgTypes(c)| && Settable(c, arg)
    ensures |args'| == |args|
  {
    args[Position(ArgNames(c), arg.0).value := Some(arg.1)]
  }

  function NoArgs(c: Call): (args: seq<Option<int>>)
    ensures |args| == |ArgTypes(c)|
  {
    seq(|ArgTypes(c)|, _ => None)
  }

  /** The arguments once the first n entries of the dict are set. */
  function SetArgs(c: Call, argv: seq<(string, int)>, n: nat): (args: seq<Option<int>>)
    requires n <= |argv| && forall i | 0 <= i < n :: Settable(c, argv[i])
    ensures |args| == |ArgTypes(c)|
  {
    if n == 0 then NoArgs(c) else SetArg(c, SetArgs(c, argv, n - 1), argv[n - 1])
  }

  lemma {:induction false} SetArgsInRange(c: Call, argv: seq<(string, int)>, n: nat)
    requires n <= |argv| && forall i | 0 <= i < n :: Settable(c, argv[i])
    ensures var args := SetArgs(c, argv, n);
            forall k | 0 <= k < |args| :: args[k].Some? ==> InRange(ArgTypes(c)[k], args[k].value)
  {
    if n > 0 { SetArgsInRange(c, argv, n - 1); }
  }

  /** The number of the `link` field, as vmi.proto declares it. */
  function LinkNumber(c: Call): nat { if c.WriteInt? && c.space.Va? then 4 else 3 }

  /** The number of a request field, minus one; by name. */
  function TargetIndex(c: Call, target: string): Option<nat> {
    if target == "link" && Linkable(c) then Some(LinkNumber(c) - 1) else Position(ArgNames(c), target)
  }

  function OperatorOf(opr: int): Option<Operator> {
    if opr == 1 then Some(Add) else if opr == 2 then Some(Sub) else if opr == 3 then Some(Overwrite) else None
  }

  /** The numeric link: the message by the first use of the label, its field by the latest. None if add raises. */
  function CompileLink(names: seq<string>, namemap: map<string, Call>, c: Call, l: LinkArgs): Option<Link> {
    if l.name !in namemap || l.name !in names || !Linkable(c) then None
    else
      var item := Position(ReplyNames(namemap[l.name]), l.field);
      var target := TargetIndex(c, l.target);
      var op := OperatorOf(l.opr);
      if item.None? || target.None? || op.None? then None
      else Some(Link(Position(names, l.name).value, item.value, target.value, op.value))
  }

  function CompileAdd(names: seq<string>, namemap: map<string, Call>, a: Added): (r: Option<Request>)
    ensures r.Some? ==> WellTyped(r.value) && r.value.call == a.call
    ensures r.Some? ==> r.value.link == if HasLink(a.link) then CompileLink(names, namemap, a.call, a.link) else None
  {
    if exists i | 0 <= i < |a.argv| :: !Settable(a.call, a.argv[i]) then None
    else
      var args := SetArgs(a.call, a.argv, |a.argv|);
      SetArgsInRange(a.call, a.argv, |a.argv|);
      if !HasLink(a.link) then Some(Request(a.call, args, None))
      else
        var link := CompileLink(names, namemap, a.call, a.link);
        if link.None? then None else Some(Request(a.call, args, link))
  }

  /** `prog` are the requests that the adds of `src` build, one after the other, none of them raising. */
  ghost predicate CompilesTo(src: seq<Added>, prog: seq<Request>) {
    && |prog| == |src|
    && forall k {:trigger Builds(src, k, prog[k])} | 0 <= k < |src| :: Builds(src, k, prog[k])
  }

  /** Add k, after the adds before it, builds this request. */
  ghost predicate Builds(src: seq<Added>, k: nat, r: Request)
    requires k < |src|
  {
    CompileAdd(Names(src[..k]), NameMap(src[..k]), src[k]) == Some(r)
  }

  lemma {:induction false} BuiltIsSettable(src: seq<Added>, prog: seq<Request>, k: nat)
    requires CompilesTo(src, prog) && k < |src|
    ensures forall j | 0 <= j < |src[k].argv| :: Settable(src[k].call, src[k].argv[j])
  {
    hide SetArgs, CompileLink, Settable;
    assert Builds(src, k, prog[k]);
  }

  lemma {:induction false} AddIsLegal(names: seq<string>, namemap: map<string, Call>, a: Added)
    requires forall j | 0 <= j < |a.argv| :: Settable(a.call, a.argv[j])
    requires HasLink(a.link) ==> CompileLink(names, namemap, a.call, a.link).Some?
    ensures CompileAdd(names, namemap, a).Some?
  {
    hide CompileLink, Settable, HasLink;
  }

  lemma {:induction false} CompiledIsWellTyped(src: seq<Added>, prog: seq<Request>)
    requires CompilesTo(src, prog)
    ensures WellTypedBatch(prog)
    ensures forall k | 0 <= k < |prog| :: prog[k].call == src[k].call
  {
    forall k | 0 <= k < |prog|
      ensures WellTyped(prog[k]) && prog[k].call == src[k].call
    {
      assert Builds(src, k, prog[k]);
    }
  }

  // ---------- link encoding ----------

  predicate DistinctNames(src: seq<Added>) {
    forall i, j | 0 <= i < j < |src| :: src[i].name != src[j].name
  }

  /** Every link goes into an argument, not into `link` itself. */
  predicate TargetsArguments(src: seq<Added>) {
    forall i | 0 <= i < |src| :: src[i].link.target != "link"
  }

  lemma {:induction false} NameMapAt(src: seq<Added>, i: nat)
    requires i < |src| && DistinctNames(src)
    ensures src[i].name in NameMap(src) && NameMap(src)[src[i].name] == src[i].call
  {
    var last := |src| - 1;
    if i < last {
      NameMapAt(src[..last], i);
      assert src[i].name != src[last].name;
    }
  }

  lemma {:induction false} NamedBefore(src: seq<Added>, k: nat, m: nat)
    requires m < k <= |src| && DistinctNames(src)
    ensures var before := src[..k];
            && src[m].name in Names(before) && src[m].name in NameMap(before)
            && NameMap(before)[src[m].name] == src[m].call
  {
    var before := src[..k];
    assert DistinctNames(before) && before[m] == src[m];
    NameMapAt(before, m);
    assert Names(before)[m] == src[m].name;
  }

  /** With distinct labels, a compiled link names, by numbers, the call, the result field and the argument that the add
    named by strings; and there is a link exactly when the add asked for one. */
  lemma {:induction false} LinksMeanWhatTheySay(src: seq<Added>, prog: seq<Request>, k: nat)
    requires CompilesTo(src, prog) && k < |src| && DistinctNames(src)
    ensures Linked(prog, k) <==> HasLink(src[k].link)
    ensures Linked(prog, k) ==>
              var l, link := src[k].link, prog[k].link.value;
              && link.prevMsg < k && src[link.prevMsg].name == l.name
              && link.prevItem < |ReplyNames(prog[link.prevMsg].call)|
              && ReplyNames(prog[link.prevMsg].call)[link.prevItem] == l.field
              && OperatorOf(l.opr) == Some(link.op)
              && (l.target != "link" ==>
                    link.curItem < |ArgNames(src[k].call)| && ArgNames(src[k].call)[link.curItem] == l.target)
  {
    assert Builds(src, k, prog[k]);
    if HasLink(src[k].link) {
      var p := Position(Names(src[..k]), src[k].link.name).value;
      assert DistinctNames(src[..k]);
      NameMapAt(src[..k], p);
      assert Builds(src, p, prog[p]);
    }
  }

  /** The message a link goes to is the one that carries the label. */
  lemma {:induction false} LinkGoesTo(src: seq<Added>, prog: seq<Request>, k: nat, p: nat)
    requires CompilesTo(src, prog) && DistinctNames(src) && k < |src| && p < |src|
    requires HasLink(src[k].link) && src[p].name == src[k].link.name
    ensures Linked(prog, k) && Target(prog, k) == p
    ensures Item(prog, k) < |ReplyNames(prog[p].call)| && ReplyNames(prog[p].call)[Item(prog, k)] == src[k].link.field
  {
    LinksMeanWhatTheySay(src, prog, k);
  }

  /** So a batch built by add meets the conditions under which only errors 20, 25 and 26 can stop it. */
  lemma {:induction false} CompiledIsLegal(src: seq<Added>, prog: seq<Request>)
    requires CompilesTo(src, prog) && DistinctNames(src) && TargetsArguments(src)
    ensures Legal(prog)
  {
    forall k | 0 <= k < |prog| && Linked(prog, k)
      ensures LegalLink(prog, k)
    {
      LinksMeanWhatTheySay(src, prog, k);
      assert Builds(src, k, prog[k]);
    }
  }

  // ---------- labels used more than once ----------

  predicate Uses(src: seq<Added>, i: nat, name: string) { i < |src| && src[i].name == name }

  /** The latest add under a label. */
  function LastUse(src: seq<Added>, name: string): (q: nat)
    requires name in Names(src)
    ensures Uses(src, q, name) && forall i | q < i < |src| :: !Uses(src, i, name)
  {
    var last := |src| - 1;
    if src[last].name == name then last
    else
      assert Names(src) == Names(src[..last]) + [src[last].name];
      assert forall i | 0 <= i < last :: Uses(src[..last], i, name) <==> Uses(src, i, name);
      LastUse(src[..last], name)
  }

  lemma {:induction false} NameMapIsLastUse(src: seq<Added>, name: string)
    requires name in Names(src)
    ensures name in NameMap(src) && NameMap(src)[name] == src[LastUse(src, name)].call
  {
    var last := |src| - 1;
    if src[last].name != name {
      assert Names(src) == Names(src[..last]) + [src[last].name];
      NameMapIsLastUse(src[..last], name);
    }
  }

  lemma {:induction false} FieldNamesAgreeIff(first: Call, latest: Call, field: string)
    requires field in ReplyNames(latest)
    ensures var item := Position(ReplyNames(latest), field).value;
            (item < |ReplyNames(first)| && ReplyNames(first)[item] == field)
            <==> |ReplyTypes(first)| == |ReplyTypes(latest)|
  {
    assert "result"[0] != "status"[0];
  }

  /** The message a link goes to is the first use of its label, and the field number is by the latest. */
  lemma {:induction false} LinkGoesToFirstUse(src: seq<Added>, prog: seq<Request>, k: nat)
    requires CompilesTo(src, prog) && Linked(prog, k)
    ensures var l, p := src[k].link, Target(prog, k);
            && l.name in Names(src[..k]) && p < k && prog[p].call == src[p].call
            && Uses(src, p, l.name) && (forall i | 0 <= i < p :: !Uses(src, i, l.name))
            && l.name in NameMap(src[..k]) && l.field in ReplyNames(NameMap(src[..k])[l.name])
            && Item(prog, k) == Position(ReplyNames(NameMap(src[..k])[l.name]), l.field).value
  {
    var names, p := Names(src[..k]), Target(prog, k);
    assert Builds(src, k, prog[k]);
    assert Builds(src, p, prog[p]);
    forall i | 0 <= i < p
      ensures !Uses(src, i, src[k].link.name)
    {
      assert names[..p][i] == src[i].name;
    }
  }

  /** A link goes to the first call under its label, but by the field number of the latest.  So it names the field that
    the add asked for if and only if the two calls have as many reply fields, and it goes to the latest call if and only
    if that is the only one. */
  lemma {:induction false} ReusedLabelIsRightIff(src: seq<Added>, prog: seq<Request>, k: nat)
    requires CompilesTo(src, prog) && Linked(prog, k)
    ensures var l, p := src[k].link, Target(prog, k);
            && l.name in Names(src[..k]) && p < k
            && Uses(src, p, l.name) && (forall i | 0 <= i < p :: !Uses(src, i, l.name))
            && var q := LastUse(src[..k], l.name);
               && (p == q <==> forall i | 0 <= i < k && Uses(src, i, l.name) :: i == p)
               && ((Item(prog, k) < |ReplyNames(prog[p].call)| && ReplyNames(prog[p].call)[Item(prog, k)] == l.field)
                   <==> |ReplyTypes(src[p].call)| == |ReplyTypes(src[q].call)|)
  {
    var before, name := src[..k], src[k].link.name;
    LinkGoesToFirstUse(src, prog, k);
    hide CompilesTo, ReplyNames, ReplyTypes, LastUse;
    NameMapIsLastUse(before, name);
    var q := LastUse(before, name);
    FieldNamesAgreeIff(src[Target(prog, k)].call, src[q].call, src[k].link.field);
    assert forall i | 0 <= i < k :: Uses(before, i, name) <==> Uses(src, i, name);
    assert Uses(src, q, name);
  }

  /** It does go wrong: when a label is used for a write and then for a read, a link to the read's status points at the
    write's reply, which has one field, but carries the field number of the read's. */
  lemma {:induction false} RepeatedLabelsMixUp(name: string)
    ensures var src := [Added(name, WriteInt(B8, Pa), [], NO_LINK), Added(name, ReadAddr(Pa), [], NO_LINK)];
            var link := CompileLink(Names(src), NameMap(src), ReadAddr(Pa), LinkArgs(name, "status", "paddr", 1));
            && link == Some(Link(0, 1, 0, Add))
            && forall r :: ReplyField(Entry(src[0].call, r), 1) == Err(Undefined)
  {
    var src := [Added(name, WriteInt(B8, Pa), [], NO_LINK), Added(name, ReadAddr(Pa), [], NO_LINK)];
    assert src[..1] == [src[0]];
    assert "result"[0] != "status"[0] && ["result", "status"][1..] == ["status"];
    assert Position(["result", "status"], "status") == Some(1);
  }
}

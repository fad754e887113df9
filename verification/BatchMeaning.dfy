/** The meaning of a labelled program by names alone: dictionaries of arguments, results looked up by label and field.
  The compiled batch, run through columns, cursors and cache, must compute it. */
module BatchMeaning {
  import opened Wrappers
  import opened Schema
  import opened GuestMemory
  import opened Execution
  import opened Refinement
  import opened BatchSource

  /** One result dict: the label, and the reply's fields by name. */
  datatype Record = Record(name: string, fields: map<string, Value>)

  function ResultValue(e: Entry): Value {
    if ReplyTypes(e.call)[0] == Text
    then if e.reply.result.Some? && e.reply.result.value.Bytes? then e.reply.result.value else Bytes([])
    else Num(NumberOf(e.reply))
  }

  /** getattr for each field of the reply's descriptor; an unset field reads as its default. */
  function RecordFields(e: Entry): map<string, Value> {
    if |ReplyTypes(e.call)| == 2 then map["result" := ResultValue(e), "status" := Num(e.reply.status)]
    else map["status" := Num(e.reply.status)]
  }

  function Records(names: seq<string>, log: seq<Entry>): (records: seq<Record>)
    requires |log| <= |names|
    ensures |records| == |log|
  {
    seq(|log|, i requires 0 <= i < |log| => Record(names[i], RecordFields(log[i])))
  }

  // ---------- the meaning ----------

  datatype Meaning =
    Meaning(env: map<string, map<string, Value>>, records: seq<Record>, guest: Guest, stop: Option<Fault>)

  function ArgDict(argv: seq<(string, int)>, n: nat): map<string, int>
    requires n <= |argv|
  {
    if n == 0 then map[] else ArgDict(argv, n - 1)[argv[n - 1].0 := argv[n - 1].1]
  }

  function ArgList(c: Call, dict: map<string, int>): (args: seq<Option<int>>)
    ensures |args| == |ArgTypes(c)|
  {
    seq(|ArgTypes(c)|, i requires 0 <= i < |ArgTypes(c)| =>
      if ArgNames(c)[i] in dict then Some(dict[ArgNames(c)[i]]) else None)
  }

  /** actual_arg = current_arg + referenced, or minus, or just referenced */
  function ApplyLink(c: Call, dict: map<string, int>, l: LinkArgs, env: map<string, map<string, Value>>)
    : Result<map<string, int>, Fault>
  {
    var target, op := Position(ArgNames(c), l.target), OperatorOf(l.opr);
    if l.name !in env || l.field !in env[l.name] || target.None? || op.None? then Err(Undefined)
    else
      var t := ArgTypes(c)[target.value];
      match env[l.name][l.field]
      case Bytes(_) => Err(BatchError(20))
      case Num(n) =>
        if t == Int64 then Err(BatchError(25))
        else
          var current := if l.target in dict then dict[l.target] else 0;
          match Operate(op.value, ToU64(current), ToU64(n))
          case Err(f) => Err(f)
          case Ok(v) => Ok(dict[l.target := if t == Uint64 then v else ToInt32(v)])
  }

  function MeaningStep(a: Added, m: Meaning): Meaning {
    var dict := ArgDict(a.argv, |a.argv|);
    var linked := if HasLink(a.link) then ApplyLink(a.call, dict, a.link, m.env) else Ok(dict);
    match linked
    case Err(f) => m.(stop := Some(f))
    case Ok(d) =>
      var (reply, g) := Execute(a.call, ArgList(a.call, d), m.guest);
      match reply
      case Err(f) => m.(stop := Some(f), guest := g)
      case Ok(r) =>
        var fields := RecordFields(Entry(a.call, r));
        Meaning(m.env[a.name := fields], m.records + [Record(a.name, fields)], g, None)
  }

  /** The first n calls, in order. */
  function MeaningTo(src: seq<Added>, n: nat, g: Guest): Meaning
    requires n <= |src|
  {
    if n == 0 then Meaning(map[], [], g, None)
    else
      var m := MeaningTo(src, n - 1, g);
      if m.stop.Some? then m else MeaningStep(src[n - 1], m)
  }

  // ---------- names and numbers agree ----------

  lemma {:induction false} ArgNamesAreDistinct(c: Call, i: nat, j: nat)
    requires i < j < |ArgNames(c)|
    ensures ArgNames(c)[i] != ArgNames(c)[j]
  {
    assert "paddr"[0] != "value"[0] && "vaddr"[1] == 'a' && "value"[2] == 'l' && "vaddr"[2] == 'd';
  }

  lemma {:induction false} PositionOfArg(c: Call, i: nat)
    requires i < |ArgNames(c)|
    ensures Position(ArgNames(c), ArgNames(c)[i]) == Some(i)
  {
    var p := Position(ArgNames(c), ArgNames(c)[i]).value;
    if p < i { ArgNamesAreDistinct(c, p, i); }
    if i < p { ArgNamesAreDistinct(c, i, p); }
  }

  lemma {:induction false} SetArgByName(c: Call, dict: map<string, int>, j: nat, v: int)
    requires j < |ArgNames(c)|
    ensures ArgList(c, dict[ArgNames(c)[j] := v]) == ArgList(c, dict)[j := Some(v)]
  {
    forall i | 0 <= i < |ArgNames(c)| && i != j
      ensures ArgNames(c)[i] != ArgNames(c)[j]
    {
      if i < j { ArgNamesAreDistinct(c, i, j); } else { ArgNamesAreDistinct(c, j, i); }
    }
  }

  lemma {:induction false} ArgsByName(c: Call, argv: seq<(string, int)>, n: nat)
    requires n <= |argv| && forall i | 0 <= i < n :: Settable(c, argv[i])
    ensures ArgList(c, ArgDict(argv, n)) == SetArgs(c, argv, n)
  {
    if n > 0 {
      ArgsByName(c, argv, n - 1);
      SetArgByName(c, ArgDict(argv, n - 1), Position(ArgNames(c), argv[n - 1].0).value, argv[n - 1].1);
    }
  }

  lemma FieldByName(e: Entry, item: nat)
    requires item < |ReplyNames(e.call)|
    ensures ReplyNames(e.call)[item] in RecordFields(e)
    ensures ReplyField(e, item) == match RecordFields(e)[ReplyNames(e.call)[item]]
                                   case Num(n) => Ok(ToU64(n))
                                   case Bytes(_) => Err(BatchError(20))
  {
    assert "result"[0] != "status"[0];
  }

  /** Combining by field and argument number is combining by name. */
  lemma {:induction false} CombineByName(r: Request, dict: map<string, int>, l: LinkArgs,
                                         env: map<string, map<string, Value>>, link: Link, e: Entry)
    requires r.args == ArgList(r.call, dict) && Linkable(r.call)
    requires l.name in env && env[l.name] == RecordFields(e)
    requires link.prevItem < |ReplyNames(e.call)| && ReplyNames(e.call)[link.prevItem] == l.field
    requires link.curItem < |ArgNames(r.call)| && ArgNames(r.call)[link.curItem] == l.target
    requires OperatorOf(l.opr) == Some(link.op)
    ensures var byNumber := match ReplyField(e, link.prevItem)
                            case Err(f) => Err(f)
                            case Ok(v) => Combine(r, link, v);
            byNumber == match ApplyLink(r.call, dict, l, env)
                        case Err(f) => Err(f)
                        case Ok(d) => Ok(ArgList(r.call, d))
  {
    FieldByName(e, link.prevItem);
    PositionOfArg(r.call, link.curItem);
    var t := ArgTypes(r.call)[link.curItem];
    assert t in {Uint64, Int32, Int64};
    if ReplyField(e, link.prevItem).Ok? && t != Int64 {
      var v := ReplyField(e, link.prevItem).value;
      var current := if l.target in dict then dict[l.target] else 0;
      var op := Operate(link.op, ToU64(current), v);
      if op.Ok? { SetArgByName(r.call, dict, link.curItem, if t == Uint64 then op.value else ToInt32(op.value)); }
    }
  }

  /** A state of the numeric run that stands for a meaning. */
  ghost predicate StandsFor(src: seq<Added>, s: State, m: Meaning) {
    && |s.log| <= |src|
    && m.records == Records(Names(src), s.log)
    && (forall i | 0 <= i < |s.log| :: src[i].name in m.env && m.env[src[i].name] == RecordFields(s.log[i]))
    && m.guest == s.guest
    && m.stop == if s.stop.None? then None else Some(s.stop.value.fault)
  }

  /** Call k gets the same arguments by number, from the log, and by name, from the results so far. */
  lemma {:induction false} ArgsMatch(src: seq<Added>, prog: seq<Request>, k: nat, s: State, m: Meaning)
    requires CompilesTo(src, prog) && WellTypedBatch(prog) && DistinctNames(src) && TargetsArguments(src)
    requires k < |src| && |s.log| == k && LogOf(prog, s.log) && StandsFor(src, s, m)
    ensures var a := src[k];
            var dict := ArgDict(a.argv, |a.argv|);
            DirectArgs(s.log, prog[k])
            == match (if HasLink(a.link) then ApplyLink(a.call, dict, a.link, m.env) else Ok(dict))
               case Err(f) => Err(f)
               case Ok(d) => Ok(ArgList(a.call, d))
  {
    var a := src[k];
    assert Builds(src, k, prog[k]);
    ArgsByName(a.call, a.argv, |a.argv|);
    LinksMeanWhatTheySay(src, prog, k);
    if HasLink(a.link) {
      var link := prog[k].link.value;
      CombineByName(Request(a.call, SetArgs(a.call, a.argv, |a.argv|), prog[k].link), ArgDict(a.argv, |a.argv|), a.link,
                    m.env, link, s.log[link.prevMsg]);
    }
  }

  lemma {:induction false} RecordStandsFor(src: seq<Added>, s: State, m: Meaning, r: Reply, g: Guest)
    requires DistinctNames(src) && StandsFor(src, s, m) && |s.log| < |src| && s.stop.None?
    ensures var a, e := src[|s.log|], Entry(src[|s.log|].call, r);
            StandsFor(src, s.(log := s.log + [e], guest := g),
                      Meaning(m.env[a.name := RecordFields(e)], m.records + [Record(a.name, RecordFields(e))], g, None))
  {
    var k, e := |s.log|, Entry(src[|s.log|].call, r);
    var env := m.env[src[k].name := RecordFields(e)];
    forall i | 0 <= i < k + 1
      ensures src[i].name in env && env[src[i].name] == RecordFields((s.log + [e])[i])
    {
      if i < k { assert src[i].name != src[k].name; }
    }
    assert Records(Names(src), s.log + [e]) == Records(Names(src), s.log) + [Record(src[k].name, RecordFields(e))];
  }

  lemma {:induction false} FinishMatches(src: seq<Added>, k: nat, index: nat, s: State, m: Meaning,
                                         linked: Result<map<string, int>, Fault>, args: Result<seq<Option<int>>, Fault>)
    requires DistinctNames(src) && k < |src| && |s.log| == k && StandsFor(src, s, m) && s.stop.None?
    requires var a := src[k];
             linked == if HasLink(a.link) then ApplyLink(a.call, ArgDict(a.argv, |a.argv|), a.link, m.env)
                       else Ok(ArgDict(a.argv, |a.argv|))
    requires args == match linked case Err(f) => Err(f) case Ok(d) => Ok(ArgList(src[k].call, d))
    ensures StandsFor(src, Finish(src[k].call, index, args, s), MeaningStep(src[k], m))
  {
    var a := src[k];
    if args.Ok? {
      var (reply, g) := Execute(a.call, args.value, s.guest);
      if reply.Ok? { RecordStandsFor(src, s, m, reply.value, g); }
    }
  }

  lemma {:induction false} DirectStepShape(prog: seq<Request>, k: nat, s: State)
    requires WellTypedBatch(prog) && k < |prog| && LogOf(prog, s.log) && |s.log| == k && s.stop.None?
    ensures var s' := DirectStep(prog, k, s); LogOf(prog, s'.log) && (s'.stop.None? ==> |s'.log| == k + 1)
  {
    FinishShape(prog[k].call, RankOf(prog, k), DirectArgs(s.log, prog[k]), s);
  }

  lemma {:induction false} StepMatches(src: seq<Added>, prog: seq<Request>, k: nat, s: State, m: Meaning)
    requires CompilesTo(src, prog) && WellTypedBatch(prog) && DistinctNames(src) && TargetsArguments(src)
    requires k < |src| && |s.log| == k && LogOf(prog, s.log) && StandsFor(src, s, m) && s.stop.None?
    ensures StandsFor(src, DirectStep(prog, k, s), MeaningStep(src[k], m))
  {
    var a := src[k];
    var dict := ArgDict(a.argv, |a.argv|);
    assert Builds(src, k, prog[k]);
    ArgsMatch(src, prog, k, s, m);
    FinishMatches(src, k, RankOf(prog, k), s, m,
                  if HasLink(a.link) then ApplyLink(a.call, dict, a.link, m.env) else Ok(dict),
                  DirectArgs(s.log, prog[k]));
  }

  ghost predicate Matches(src: seq<Added>, prog: seq<Request>, n: nat, s: State, m: Meaning) {
    LogOf(prog, s.log) && (s.stop.None? ==> |s.log| == n) && StandsFor(src, s, m)
  }

  lemma {:induction false} MatchesNext(src: seq<Added>, prog: seq<Request>, k: nat, s: State, m: Meaning)
    requires CompilesTo(src, prog) && WellTypedBatch(prog) && DistinctNames(src) && TargetsArguments(src) && k < |src|
    requires Matches(src, prog, k, s, m) && s.stop.None?
    ensures Matches(src, prog, k + 1, DirectStep(prog, k, s), MeaningStep(src[k], m))
  {
    DirectStepShape(prog, k, s);
    StepMatches(src, prog, k, s, m);
  }

  /** Matches, of the two runs of the first n calls. */
  ghost predicate RunsMatch(src: seq<Added>, prog: seq<Request>, n: nat, g: Guest)
    requires WellTypedBatch(prog) && n <= |prog| && n <= |src|
  {
    Matches(src, prog, n, DirectTo(prog, n, g), MeaningTo(src, n, g))
  }

  lemma {:induction false} RunsMatchNext(src: seq<Added>, prog: seq<Request>, k: nat, g: Guest)
    requires CompilesTo(src, prog) && WellTypedBatch(prog) && DistinctNames(src) && TargetsArguments(src) && k < |src|
    requires RunsMatch(src, prog, k, g)
    ensures RunsMatch(src, prog, k + 1, g)
  {
    var s, m := DirectTo(prog, k, g), MeaningTo(src, k, g);
    if s.stop.None? { MatchesNext(src, prog, k, s, m); }
  }

  /** Compilation preserves meaning: the simple interpreter, on numbers, does what the names say. */
  lemma {:induction false} CompilationPreservesMeaning(src: seq<Added>, prog: seq<Request>, n: nat, g: Guest)
    requires CompilesTo(src, prog) && WellTypedBatch(prog) && DistinctNames(src) && TargetsArguments(src) && n <= |src|
    ensures RunsMatch(src, prog, n, g)
    decreases n
  {
    if n > 0 {
      CompilationPreservesMeaning(src, prog, n - 1, g);
      RunsMatchNext(src, prog, n - 1, g);
    }
  }

  /** The whole pipeline: a labelled program that compiles to an aligned batch, run by the cached executor, yields the
    records, the guest memory and the stop that its names mean. */
  lemma {:induction false} AlignedBatchComputesItsMeaning(src: seq<Added>, prog: seq<Request>, g: Guest)
    requires CompilesTo(src, prog) && WellTypedBatch(prog) && DistinctNames(src) && TargetsArguments(src)
    requires Aligned(prog) && |prog| <= MAX_MESSAGES
    ensures StandsFor(src, Process(prog, g), MeaningTo(src, |src|, g))
  {
    CompilationPreservesMeaning(src, prog, |src|, g);
    AlignedRefinesDirect(prog, |prog|, g);
  }
}

/** The part of vmi.proto that a pipelined batch uses, as data.

  A call is named by the kind of access it makes.  Its request and reply are both `repeated` fields of VMIMessage;
  the number of the field is the number of the enum value, and the reply's number is the request's plus one. */
module Schema {
  import opened Wrappers

  const UINT64 := 0x1_0000_0000_0000_0000
  const UINT32 := 0x1_0000_0000
  const INT32_MAX := 0x7fff_ffff
  const INT64_MAX := 0x7fff_ffff_ffff_ffff

  datatype Size = B8 | B16 | B32 | B64 {
    function Bytes(): nat {
      match this case B8 => 1 case B16 => 2 case B32 => 4 case B64 => 8
    }
  }

  /** Physical addresses, or virtual ones that are qualified by a process. */
  datatype Space = Pa | Va

  datatype Call =
    | PauseVm
    | ResumeVm
    | ReadInt(size: Size, space: Space)
    | ReadAddr(space: Space)
    | ReadStr(space: Space)
    | WriteInt(size: Size, space: Space)

  function Tag(c: Call): (t: nat)
    ensures t > 0
  {
    match c
    case PauseVm => 34
    case ReadInt(B16, Pa) => 38
    case ReadInt(B16, Va) => 40
    case ReadInt(B32, Pa) => 44
    case ReadInt(B32, Va) => 46
    case ReadInt(B64, Pa) => 50
    case ReadInt(B64, Va) => 52
    case ReadInt(B8, Pa) => 56
    case ReadInt(B8, Va) => 58
    case ReadAddr(Pa) => 62
    case ReadAddr(Va) => 64
    case ReadStr(Pa) => 72
    case ReadStr(Va) => 74
    case ResumeVm => 78
    case WriteInt(B16, Pa) => 89
    case WriteInt(B16, Va) => 91
    case WriteInt(B32, Pa) => 95
    case WriteInt(B32, Va) => 97
    case WriteInt(B64, Pa) => 101
    case WriteInt(B64, Va) => 103
    case WriteInt(B8, Pa) => 107
    case WriteInt(B8, Va) => 109
  }

  function ReplyTag(c: Call): nat { Tag(c) + 1 }

  lemma TagIsInjective(a: Call, b: Call)
    requires Tag(a) == Tag(b)
    ensures a == b
  {}

  /** vmi.proto lists accesses by width - 16, 32, 64 and 8 bits, addresses, texts - and then by KSYM, PA and VA, each
    with its reply; READ_KSYM and READ_PA, with theirs, come between addresses and texts. */
  function WidthOrder(c: Call): nat
    requires !c.PauseVm? && !c.ResumeVm?
  {
    if c.ReadAddr? then 4
    else if c.ReadStr? then 5
    else match c.size case B16 => 0 case B32 => 1 case B64 => 2 case B8 => 3
  }

  lemma {:induction false} TagIsRegular(c: Call)
    ensures c.PauseVm? ==> Tag(c) == 34
    ensures c.ResumeVm? ==> Tag(c) == 78
    ensures !c.PauseVm? && !c.ResumeVm? ==>
              Tag(c) == (if c.WriteInt? then 87 else 36) + 6 * WidthOrder(c) + (if c.ReadStr? then 4 else 0)
                        + if c.space.Pa? then 2 else 4
  {}

  datatype FieldType = Uint64 | Int32 | Uint32 | Int64 | Text | Nested

  /** The range that protobuf accepts for a scalar of the given type. */
  predicate InRange(t: FieldType, v: int) {
    match t
    case Uint64 => 0 <= v < UINT64
    case Uint32 => 0 <= v < UINT32
    case Int32 => -INT32_MAX - 1 <= v <= INT32_MAX
    case Int64 => -INT64_MAX - 1 <= v <= INT64_MAX
    case Text => false
    case Nested => false
  }

  function ValueType(size: Size): FieldType { if size.B64? then Int64 else Int32 }

  /** The scalar arguments of a request, in the order of their field numbers 1, 2, ... */
  function ArgTypes(c: Call): seq<FieldType> {
    match c
    case PauseVm => [Int32]
    case ResumeVm => [Int32]
    case WriteInt(size, Pa) => [Uint64, ValueType(size)]
    case WriteInt(size, Va) => [Uint64, Int32, ValueType(size)]
    case _ => if c.space.Pa? then [Uint64] else [Uint64, Int32]
  }

  function ArgNames(c: Call): (names: seq<string>)
    ensures |names| == |ArgTypes(c)|
  {
    match c
    case PauseVm => ["status"]
    case ResumeVm => ["status"]
    case WriteInt(_, Pa) => ["paddr", "value"]
    case WriteInt(_, Va) => ["vaddr", "pid", "value"]
    case _ => if c.space.Pa? then ["paddr"] else ["vaddr", "pid"]
  }

  /** Only reads and writes have a `link` field. */
  predicate Linkable(c: Call) { !c.PauseVm? && !c.ResumeVm? }

  /** How many fields the request message declares, `link` included. */
  function FieldCount(c: Call): nat { |ArgTypes(c)| + if Linkable(c) then 1 else 0 }

  /** Descriptor::field(k): fields by position, `link` last. */
  function FieldAt(c: Call, k: nat): FieldType
    requires k < FieldCount(c)
  {
    if k < |ArgTypes(c)| then ArgTypes(c)[k] else Nested
  }

  /** The fields of the reply, in the order of their numbers. */
  function ReplyTypes(c: Call): (types: seq<FieldType>)
    ensures 1 <= |types| <= 2
    ensures types[|types| - 1] == Int32
  {
    match c
    case ReadInt(B64, _) => [Uint64, Int32]
    case ReadInt(_, _) => [Uint32, Int32]
    case ReadAddr(_) => [Uint64, Int32]
    case ReadStr(_) => [Text, Int32]
    case _ => [Int32]
  }

  function ReplyNames(c: Call): (names: seq<string>)
    ensures |names| == |ReplyTypes(c)|
  {
    if |ReplyTypes(c)| == 2 then ["result", "status"] else ["status"]
  }

  /** Where a name stands in a list of names. */
  function Position(names: seq<string>, name: string): (p: Option<nat>)
    ensures p.Some? <==> name in names
    ensures p.Some? ==> p.value < |names| && names[p.value] == name && name !in names[..p.value]
  {
    if names == [] then None
    else if names[0] == name then Some(0)
    else
      match Position(names[1..], name)
      case None => None
      case Some(p) => assert names[..p + 1] == [names[0]] + names[1..][..p]; Some(p + 1)
  }
}

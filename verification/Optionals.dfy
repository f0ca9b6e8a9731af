/** Optional values in encoding 1.1: their formats and length prefixes, and tagged members a reader may not know. */
module Optionals {
  import opened Prelude
  import opened Wire
  import opened WireProofs

  datatype Format = F1 | F2 | F4 | F8 | Size | VSize | FSize | Class

  function Code(f: Format): (n: byte)
    ensures n < 8 && FromCode(n) == f
  {
    match f
    case F1 => 0
    case F2 => 1
    case F4 => 2
    case F8 => 3
    case Size => 4
    case VSize => 5
    case FSize => 6
    case Class => 7
  }

  function FromCode(n: byte): Format {
    if n == 0 then F1 else if n == 1 then F2 else if n == 2 then F4 else if n == 3 then F8
    else if n == 4 then Size else if n == 5 then VSize else if n == 6 then FSize else Class
  }

  // --------------------------------------------------------------- the optional helpers

  function FixedFormat(w: nat): Format {
    if w == 1 then F1 else if w == 2 then F2 else if w == 4 then F4 else F8
  }

  /** StreamOptionalHelper::optionalFormat */
  function FormatOf(t: Type): Format {
    match t
    case TString => VSize
    case TEnum(_, _) => Size
    case TStruct(_) => if FixedLength(t) then VSize else FSize
    case TSeq(e) => if FixedLength(e) then VSize else FSize
    case TDict(e) => if FixedLength(e) then VSize else FSize
    case _ => FixedFormat(MinWireSize(t))
  }

  /** The element type of a container. */
  function Element(t: Type): Type
    requires t.TSeq? || t.TDict?
  {
    if t.TSeq? then t.elem else t.entry
  }

  /** Containers of one-byte elements are their own length prefix. */
  predicate OneByteElements(t: Type) {
    (t.TSeq? || t.TDict?) && FixedLength(Element(t)) && MinWireSize(Element(t)) == 1
  }

  /** Whether a length prefix stands before the encoding: in the two sized formats, but for self-sized types. */
  predicate Prefixed(t: Type) {
    (FormatOf(t).VSize? || FormatOf(t).FSize?) && !t.TString? && !OneByteElements(t)
  }

  /** The length that is written before a fixed-length struct or a container of n fixed-length elements. */
  function PrefixValue(t: Type, v: Value): int
    requires FormatOf(t).VSize? && Prefixed(t) && Fits(t, v)
  {
    if t.TStruct? then MinWireSize(t)
    else MinWireSize(Element(t)) * |v.elems| + if |v.elems| < 255 then 1 else 5
  }

  lemma {:induction false} ContainerPrefixExact(enc10: bool, t: Type, v: Value)
    requires (t.TSeq? || t.TDict?) && WellFormed(t) && Fits(t, v) && FixedLength(Element(t))
    ensures |Enc(enc10, t, v)| == MinWireSize(Element(t)) * |v.elems| + if |v.elems| < 255 then 1 else 5
  {
    SequenceSizes(enc10, Element(t), v.elems);
  }

  /** The length prefix computed before encoding is the number of bytes that follow it. */
  lemma {:induction false} PrefixExact(enc10: bool, t: Type, v: Value)
    requires WellFormed(t) && Fits(t, v) && FormatOf(t).VSize? && Prefixed(t)
    ensures PrefixValue(t, v) == |Enc(enc10, t, v)|
  {
    if t.TStruct? {
      MinWireSizeSound(enc10, t, v);
    } else {
      ContainerPrefixExact(enc10, t, v);
    }
  }

  /** A value that can be written as an optional: its encoding's length is an Int. */
  predicate FitsOptional(enc10: bool, t: Type, v: Value) {
    WellFormed(t) && Fits(t, v) && |Enc(enc10, t, v)| <= MAX_INT
  }

  /** StreamOptionalHelper::write(), in the stream's encoding. */
  function Payload(enc10: bool, t: Type, v: Value): seq<byte>
    requires FitsOptional(enc10, t, v)
  {
    if !Prefixed(t) then Enc(enc10, t, v)
    else if FormatOf(t).VSize? then PrefixExact(enc10, t, v); SizeBytes(PrefixValue(t, v)) + Enc(enc10, t, v)
    else IntFits(|Enc(enc10, t, v)|); IntBytes(|Enc(enc10, t, v)|, 4) + Enc(enc10, t, v)
  }

  function Skip(b: seq<byte>, c: Cursor, n: nat): Option<Cursor> {
    if c.i + n > |b| then None else Some(Advance(c, n))
  }

  function SkipSize(b: seq<byte>, c: Cursor): Option<Cursor> {
    var r := ReadByte(b, c);
    if r.IntThrown? then None else if r.n == 255 then Skip(b, r.at, 4) else Some(r.at)
  }

  /** StreamOptionalHelper::read() */
  function DecPayload(t: Type, b: seq<byte>, c: Cursor): Read
    requires WellFormed(t)
  {
    if !Prefixed(t) then Dec(false, t, b, c)
    else
      var at := if FormatOf(t).VSize? then SkipSize(b, c) else Skip(b, c, 4);
      if at == None then Thrown else Dec(false, t, b, at.value)
  }

  /** skipOpt(); classes, and negative lengths, are not part of this model. */
  function SkipOpt(f: Format, b: seq<byte>, c: Cursor): (r: Option<Cursor>)
    ensures r.Some? ==> r.value.i >= c.i && r.value.startSeq == c.startSeq && r.value.minSeqSize == c.minSeqSize
  {
    match f
    case F1 => Skip(b, c, 1)
    case F2 => Skip(b, c, 2)
    case F4 => Skip(b, c, 4)
    case F8 => Skip(b, c, 8)
    case Size => SkipSize(b, c)
    case VSize => var r := ReadSize(b, c); if r.IntThrown? then None else Skip(b, r.at, r.n)
    case FSize => var r := ReadInt(b, c, 4); if r.IntThrown? || r.n < 0 then None else Skip(b, r.at, r.n)
    case Class => None
  }

  // --------------------------------------------------------------- tags

  const END_MARKER: byte := 0xFF

  /** writeOptImpl() in encoding 1.1. */
  function Header(tag: int, f: Format): (s: seq<byte>)
    requires 0 <= tag <= MAX_INT
    ensures s != []
  {
    if tag < 30 then [8 * tag + Code(f)] else [0xF0 + Code(f)] + SizeBytes(tag)
  }

  /** The tag whose first byte was just read into v. */
  function ReadTag(v: byte, b: seq<byte>, c: Cursor): IntRead {
    if v / 8 == 30 then ReadSize(b, c) else GotInt(v / 8, c)
  }

  datatype OptRead = Found(at: Cursor) | Missing(at: Cursor) | Bad

  /** readOptImpl() in encoding 1.1: `end` is where the encapsulation ends. */
  function ReadOpt(readTag: int, expected: Format, b: seq<byte>, c: Cursor, end: nat): OptRead
    decreases end - c.i
  {
    if c.i >= end then Missing(c)
    else
      var r := ReadByte(b, c);
      if r.IntThrown? then Bad
      else if r.n == END_MARKER then Missing(c)
      else
        var tag := ReadTag(r.n, b, r.at);
        if tag.IntThrown? then Bad
        else if tag.n > readTag then
          var back := if tag.n < 30 then 1 else if tag.n < 255 then 2 else 6;
          if tag.at.i < back then Bad else Missing(tag.at.(i := tag.at.i - back))
        else if tag.n < readTag then
          var next := SkipOpt(FromCode(r.n % 8), b, tag.at);
          if next == None then Bad else ReadOpt(readTag, expected, b, next.value, end)
        else if FromCode(r.n % 8) != expected then Bad
        else Found(tag.at)
  }

  /** skipOpts() */
  function SkipOpts(b: seq<byte>, c: Cursor, end: nat): Option<Cursor>
    decreases end - c.i
  {
    if c.i >= end then Some(c)
    else
      var r := ReadByte(b, c);
      if r.IntThrown? then None
      else if r.n == END_MARKER then Some(r.at)
      else
        var at := if r.n / 8 == 30 then SkipSize(b, r.at) else Some(r.at);
        if at == None then None
        else
          var next := SkipOpt(FromCode(r.n % 8), b, at.value);
          if next == None then None else SkipOpts(b, next.value, end)
  }

  // --------------------------------------------------------------- members

  datatype Member = Member(tag: int, t: Type, v: Value)
  datatype Request = Request(tag: int, t: Type)

  predicate Writable(m: Member) {
    0 <= m.tag <= MAX_INT && FitsOptional(false, m.t, m.v)
  }

  predicate AllWritable(ms: seq<Member>) {
    forall k | 0 <= k < |ms| :: Writable(ms[k])
  }

  /** Optional members are written, and asked for, in the order of their tags. */
  predicate Ascending(tags: seq<int>) {
    forall i, j | 0 <= i < j < |tags| :: tags[i] < tags[j]
  }

  function Tags(ms: seq<Member>): seq<int> {
    seq(|ms|, i requires 0 <= i < |ms| => ms[i].tag)
  }

  function MemberBytes(m: Member): (s: seq<byte>)
    requires Writable(m)
    ensures s != []
  {
    Header(m.tag, FormatOf(m.t)) + Payload(false, m.t, m.v)
  }

  function WriteMembers(ms: seq<Member>): seq<byte>
    requires AllWritable(ms)
  {
    if ms == [] then [] else MemberBytes(ms[0]) + WriteMembers(ms[1..])
  }

  datatype OptValue = Absent | Present(v: Value)
  datatype MembersRead = GotMembers(values: seq<OptValue>, at: Cursor) | MembersThrown

  function Prepend(a: OptValue, rest: MembersRead): MembersRead {
    if rest.MembersThrown? then rest else GotMembers([a] + rest.values, rest.at)
  }

  /** stream->read(tag, optional) for each member the reader knows. */
  function ReadMembers(rs: seq<Request>, b: seq<byte>, c: Cursor, end: nat): MembersRead
    requires forall r <- rs :: WellFormed(r.t)
  {
    if rs == [] then GotMembers([], c)
    else
      match ReadOpt(rs[0].tag, FormatOf(rs[0].t), b, c, end)
      case Bad => MembersThrown
      case Missing(at) =>
        Prepend(Absent, ReadMembers(rs[1..], b, at, end))
      case Found(at) =>
        var r := DecPayload(rs[0].t, b, at);
        if r.Thrown? then MembersThrown else Prepend(Present(r.value), ReadMembers(rs[1..], b, r.at, end))
  }
}

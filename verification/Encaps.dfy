/**
 Encapsulations: nested runs of start, write and end with backpatched sizes, and the readers that enter, skip or take
 them whole. Optional members, if any, are the last thing written into an encapsulation.
 */
module Encaps {
  import opened Prelude
  import opened Wire
  import opened Optionals

  // --------------------------------------------------------------- writing

  datatype WriteFrame = WriteFrame(start: nat, enc10: bool)
  datatype Writer = Writer(b: seq<byte>, enc10: bool, stack: seq<WriteFrame>)

  /** getWriteEncoding() */
  predicate WriteEncoding10(w: Writer) {
    if w.stack == [] then w.enc10 else w.stack[|w.stack| - 1].enc10
  }

  function Version(enc10: bool): seq<byte> {
    [1, if enc10 then 0 else 1]
  }

  /** An Int from a size_type, as a cast gives it. */
  function CastBytes(n: int): (s: seq<byte>)
    ensures |s| == 4
  {
    IntFits(Int32(n));
    IntBytes(Int32(n), 4)
  }

  /** The four bytes at p are overwritten. */
  function Rewrite(b: seq<byte>, n: int, p: nat): (b': seq<byte>)
    requires p + 4 <= |b|
    ensures |b'| == |b|
  {
    b[..p] + CastBytes(n) + b[p + 4..]
  }

  function StartWrite(w: Writer, enc10: bool): Writer {
    w.(b := w.b + CastBytes(0) + Version(enc10), stack := w.stack + [WriteFrame(|w.b|, enc10)])
  }

  function EndWrite(w: Writer): Writer
    requires w.stack != [] && w.stack[|w.stack| - 1].start + 4 <= |w.b|
  {
    var start := w.stack[|w.stack| - 1].start;
    w.(b := Rewrite(w.b, |w.b| - start, start), stack := w.stack[..|w.stack| - 1])
  }

  function Put(w: Writer, t: Type, v: Value): Writer
    requires WellFormed(t) && Fits(t, v)
  {
    w.(b := w.b + Enc(WriteEncoding10(w), t, v))
  }

  /** Optional members, which encoding 1.0 leaves out. */
  function PutOpts(w: Writer, ms: seq<Member>): Writer
    requires AllWritable(ms)
  {
    w.(b := w.b + OptsBytes(WriteEncoding10(w), ms))
  }

  function OptsBytes(enc10: bool, ms: seq<Member>): seq<byte>
    requires AllWritable(ms)
  {
    if enc10 then [] else WriteMembers(ms)
  }

  /** What is written: values, and encapsulations of more of it. */
  datatype Node =
    | Datum(t: Type, v: Value)
    | Encapsulation(enc10: bool, body: seq<Node>, opts: seq<Member>)

  predicate NodeOk(n: Node) {
    match n
    case Datum(t, v) => WellFormed(t) && Fits(t, v)
    case Encapsulation(_, body, opts) => (forall k <- body :: NodeOk(k)) && AllWritable(opts) && Ascending(Tags(opts))
  }

  function WriteNode(w: Writer, n: Node): (w': Writer)
    requires NodeOk(n)
    ensures |w'.b| >= |w.b| && w'.stack == w.stack
    decreases n, 0
  {
    match n
    case Datum(t, v) => Put(w, t, v)
    case Encapsulation(enc10, body, opts) => EndWrite(PutOpts(WriteNodes(StartWrite(w, enc10), body), opts))
  }

  function WriteNodes(w: Writer, ns: seq<Node>): (w': Writer)
    requires forall n <- ns :: NodeOk(n)
    ensures |w'.b| >= |w.b| && w'.stack == w.stack
    decreases ns, 0
  {
    if ns == [] then w else WriteNodes(WriteNode(w, ns[0]), ns[1..])
  }

  /** writeEncaps(v, sz): an encapsulation that was read as bytes. */
  function WriteRaw(w: Writer, v: seq<byte>): Option<Writer> {
    if |v| < 6 then None else Some(w.(b := w.b + v))
  }

  // --------------------------------------------------------------- the bytes a forest stands for

  function NodeBytes(enc10: bool, n: Node): seq<byte>
    requires NodeOk(n)
    decreases n, 0
  {
    match n
    case Datum(t, v) => Enc(enc10, t, v)
    case Encapsulation(e, body, opts) => Wrapped(ForestBytes(e, body) + OptsBytes(e, opts), e)
  }

  /** A size that counts itself, the version and the contents. */
  function Wrapped(inner: seq<byte>, enc10: bool): seq<byte> {
    CastBytes(6 + |inner|) + Version(enc10) + inner
  }

  function ForestBytes(enc10: bool, ns: seq<Node>): seq<byte>
    requires forall n <- ns :: NodeOk(n)
    decreases ns, 0
  {
    if ns == [] then [] else NodeBytes(enc10, ns[0]) + ForestBytes(enc10, ns[1..])
  }

  // --------------------------------------------------------------- reading

  datatype ReadFrame = ReadFrame(start: nat, sz: nat, enc10: bool)
  datatype Reader = Reader(c: Cursor, enc10: bool, stack: seq<ReadFrame>)

  predicate ReadEncoding10(r: Reader) {
    if r.stack == [] then r.enc10 else r.stack[|r.stack| - 1].enc10
  }

  /** The size at the cursor, if it is at least 6 and lies within the buffer. */
  function EncapsSize(b: seq<byte>, c: Cursor): (n: Option<nat>)
    ensures n.Some? ==> 6 <= n.value && c.i + n.value <= |b|
  {
    var x := ReadInt(b, c, 4);
    if x.IntThrown? || x.n < 6 || c.i + x.n > |b| then None else Some(x.n)
  }

  function StartRead(b: seq<byte>, r: Reader): (r': Option<Reader>)
    ensures r'.Some? ==> |r'.value.stack| == |r.stack| + 1 && r'.value.stack[..|r.stack|] == r.stack
    ensures r'.Some? ==> r'.value.enc10 == r.enc10
  {
    var size := EncapsSize(b, r.c);
    if size == None then None
    else
      var major, minor := b[r.c.i + 4], b[r.c.i + 5];
      if major != 1 || minor > 1 then None
      else Some(r.(c := Advance(r.c, 6), stack := r.stack + [ReadFrame(r.c.i, size.value, minor == 0)]))
  }

  /** In encoding 1.0 one byte too many is tolerated; in 1.1 unread optional members are skipped. */
  function EndRead(b: seq<byte>, r: Reader): (r': Option<Reader>)
    requires r.stack != []
    ensures r'.Some? ==> r'.value.stack == r.stack[..|r.stack| - 1] && r'.value.enc10 == r.enc10
  {
    var f := r.stack[|r.stack| - 1];
    var end := f.start + f.sz;
    var c := if f.enc10 then Some(if r.c.i + 1 == end then Advance(r.c, 1) else r.c) else SkipOpts(b, r.c, end);
    if c == None || c.value.i != end then None else Some(r.(c := c.value, stack := r.stack[..|r.stack| - 1]))
  }

  datatype RawRead = GotRaw(bytes: seq<byte>, at: Cursor) | RawThrown

  /** readEncaps(), and skipEncaps() but for the bytes. */
  function ReadRaw(b: seq<byte>, c: Cursor): RawRead {
    var size := EncapsSize(b, c);
    if size == None then RawThrown else GotRaw(b[c.i..c.i + size.value], Advance(c, size.value))
  }

  /** What a reader does with each node; it may ask for any optional members, and need not enter an encapsulation. */
  datatype Plan =
    | ReadDatum(t: Type)
    | Enter(body: seq<Plan>, asks: seq<Request>)
    | SkipWhole
    | TakeRaw

  datatype Item =
    | Read(v: Value)
    | Entered(items: seq<Item>, answers: seq<OptValue>)
    | SkippedWhole
    | Raw(bytes: seq<byte>)

  predicate PlanOk(p: Plan) {
    match p
    case ReadDatum(t) => WellFormed(t)
    case Enter(body, asks) => (forall q <- body :: PlanOk(q)) && forall a <- asks :: WellFormed(a.t)
    case _ => true
  }

  datatype ItemRead = GotItem(item: Item, at: Reader) | ItemThrown
  datatype ItemsRead = GotItems(items: seq<Item>, at: Reader) | ItemsThrown

  /** Optional members of the encapsulation being read; encoding 1.0 has none. */
  function ReadOpts(asks: seq<Request>, b: seq<byte>, r: Reader): MembersRead
    requires r.stack != [] && forall a <- asks :: WellFormed(a.t)
  {
    var f := r.stack[|r.stack| - 1];
    if f.enc10 then GotMembers(seq(|asks|, i => Absent), r.c) else ReadMembers(asks, b, r.c, f.start + f.sz)
  }

  function ReadNode(b: seq<byte>, r: Reader, p: Plan): (x: ItemRead)
    requires PlanOk(p)
    ensures x.GotItem? ==> x.at.stack == r.stack && x.at.enc10 == r.enc10
    decreases p, 0
  {
    match p
    case ReadDatum(t) =>
      var x := Dec(ReadEncoding10(r), t, b, r.c);
      if x.Thrown? then ItemThrown else GotItem(Read(x.value), r.(c := x.at))
    case Enter(body, asks) =>
      var r1 := StartRead(b, r);
      if r1 == None then ItemThrown
      else
        var inner := ReadNodes(b, r1.value, body);
        if inner.ItemsThrown? then ItemThrown
        else
          var opts := ReadOpts(asks, b, inner.at);
          if opts.MembersThrown? then ItemThrown
          else
            var r2 := EndRead(b, inner.at.(c := opts.at));
            if r2 == None then ItemThrown else GotItem(Entered(inner.items, opts.values), r2.value)
    case SkipWhole =>
      var x := ReadRaw(b, r.c);
      if x.RawThrown? then ItemThrown else GotItem(SkippedWhole, r.(c := x.at))
    case TakeRaw =>
      var x := ReadRaw(b, r.c);
      if x.RawThrown? then ItemThrown else GotItem(Raw(x.bytes), r.(c := x.at))
  }

  function ReadNodes(b: seq<byte>, r: Reader, ps: seq<Plan>): (x: ItemsRead)
    requires forall p <- ps :: PlanOk(p)
    ensures x.GotItems? ==> x.at.stack == r.stack && x.at.enc10 == r.enc10
    decreases ps, 0
  {
    if ps == [] then GotItems([], r)
    else
      var x := ReadNode(b, r, ps[0]);
      if x.ItemThrown? then ItemsThrown
      else
        var rest := ReadNodes(b, x.at, ps[1..]);
        if rest.ItemsThrown? then ItemsThrown else GotItems([x.item] + rest.items, rest.at)
  }
}

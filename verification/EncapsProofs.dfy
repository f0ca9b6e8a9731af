/**
 Backpatched sizes are exact, and every reader of a well-nested run ends where the writer did.

 Both follow the forest that a run writes: one lemma for a node, one for the nodes beside it.
 */
module EncapsProofs {
  import opened Prelude
  import opened Wire
  import opened WireProofs
  import opened Optionals
  import opened OptionalsProofs
  import opened Encaps

  // --------------------------------------------------------------- the writer appends

  /** What start, contents and end leave: the placeholder has become the size. */
  lemma {:induction false} EndPatches(w: Writer, enc10: bool, inner: seq<byte>)
    ensures var open := StartWrite(w, enc10);
            EndWrite(Appended(open, inner)) == Appended(w, Wrapped(inner, enc10))
  {
    var open := StartWrite(w, enc10);
    var full := Appended(open, inner);
    assert full.b == w.b + CastBytes(0) + Version(enc10) + inner;
    assert full.b[..|w.b|] == w.b;
    assert full.b[|w.b| + 4..] == Version(enc10) + inner;
    assert |full.b| - |w.b| == 6 + |inner|;
    assert w.b + CastBytes(6 + |inner|) + (Version(enc10) + inner) == w.b + Wrapped(inner, enc10);
  }

  function Appended(w: Writer, x: seq<byte>): Writer {
    w.(b := w.b + x)
  }

  lemma {:induction false} AppendedTwice(w: Writer, x: seq<byte>, y: seq<byte>)
    ensures Appended(Appended(w, x), y) == Appended(w, x + y) && WriteEncoding10(Appended(w, x)) == WriteEncoding10(w)
  {
    assert (w.b + x) + y == w.b + (x + y);
  }

  /** Start, contents, optional members, end. */
  lemma {:induction false} WrapAppends(w: Writer, enc10: bool, body: seq<byte>, ms: seq<Member>)
    requires AllWritable(ms)
    ensures var closing := PutOpts(Appended(StartWrite(w, enc10), body), ms);
            && closing.stack != [] && closing.stack[|closing.stack| - 1].start + 4 <= |closing.b|
            && EndWrite(closing) == Appended(w, Wrapped(body + OptsBytes(enc10, ms), enc10))
  {
    var open := StartWrite(w, enc10);
    AppendedTwice(open, body, OptsBytes(enc10, ms));
    assert WriteEncoding10(open) == enc10;
    EndPatches(w, enc10, body + OptsBytes(enc10, ms));
  }

  lemma {:induction false} NodeAppends(w: Writer, n: Node)
    requires NodeOk(n)
    ensures WriteNode(w, n) == Appended(w, NodeBytes(WriteEncoding10(w), n))
    decreases n, 0
  {
    if n.Encapsulation? {
      assert WriteEncoding10(StartWrite(w, n.enc10)) == n.enc10;
      ForestAppends(StartWrite(w, n.enc10), n.body);
      WrapAppends(w, n.enc10, ForestBytes(n.enc10, n.body), n.opts);
    }
  }

  /** Whatever is written, in whatever nesting, is appended: the bytes before and the open encapsulations stay. */
  lemma {:induction false} ForestAppends(w: Writer, ns: seq<Node>)
    requires forall n <- ns :: NodeOk(n)
    ensures WriteNodes(w, ns) == Appended(w, ForestBytes(WriteEncoding10(w), ns))
    decreases ns, 0
  {
    var enc10 := WriteEncoding10(w);
    if ns == [] {
      assert w.b + [] == w.b;
    } else {
      var first, rest := NodeBytes(enc10, ns[0]), ForestBytes(enc10, ns[1..]);
      NodeAppends(w, ns[0]);
      ForestAppends(Appended(w, first), ns[1..]);
      AppendedTwice(w, first, rest);
    }
  }

  // --------------------------------------------------------------- the reader follows

  /** The reader's plan suits what was written: the same types, and at each encapsulation a free choice. */
  ghost predicate Suits(p: Plan, n: Node) {
    match p
    case ReadDatum(t) => n.Datum? && n.t == t
    case Enter(body, asks) =>
      n.Encapsulation? && |body| == |n.body| && (forall k | 0 <= k < |body| :: Suits(body[k], n.body[k])) &&
      Agrees(asks, n.opts)
    case _ => n.Encapsulation?
  }

  /** What the reader should get. */
  function Expected(p: Plan, n: Node): Item
    requires NodeOk(n) && Suits(p, n)
    decreases p, 0
  {
    match p
    case ReadDatum(_) => Read(n.v)
    case Enter(body, asks) => Entered(ExpectedAll(body, n.body), ExpectedAnswers(asks, n))
    case SkipWhole => SkippedWhole
    case TakeRaw => Raw(NodeBytes(true, n))
  }

  function ExpectedAll(ps: seq<Plan>, ns: seq<Node>): seq<Item>
    requires |ps| == |ns| && (forall n <- ns :: NodeOk(n)) && forall k | 0 <= k < |ps| :: Suits(ps[k], ns[k])
    decreases ps, 0
  {
    if ps == [] then [] else [Expected(ps[0], ns[0])] + ExpectedAll(ps[1..], ns[1..])
  }

  function ExpectedAnswers(asks: seq<Request>, n: Node): seq<OptValue>
    requires n.Encapsulation?
  {
    seq(|asks|, i requires 0 <= i < |asks| => if n.enc10 then Absent else Lookup(n.opts, asks[i].tag))
  }

  lemma {:induction false} WrappedParts(b: seq<byte>, i: nat, inner: seq<byte>, enc10: bool)
    requires At(b, i, Wrapped(inner, enc10)) && |b| <= MAX_INT
    ensures At(b, i + 6, inner) && b[i + 4] == 1 && b[i + 5] == (if enc10 then 0 else 1)
    ensures forall c: Cursor :: c.i == i ==> EncapsSize(b, c) == Some(6 + |inner|)
  {
    var size, version := CastBytes(6 + |inner|), Version(enc10);
    AtSplit(b, i, size + version, inner);
    AtSplit(b, i, size, version);
    assert b[i + 4..i + 6] == version;
    assert b[i + 4] == b[i + 4..i + 6][0] && b[i + 5] == b[i + 4..i + 6][1];
    NoWrap(6 + |inner|);
    IntFits(6 + |inner|);
    forall c: Cursor | c.i == i
      ensures EncapsSize(b, c) == Some(6 + |inner|)
    {
      ReadIntOf(b, c, 6 + |inner|, 4);
    }
  }

  /** Contents in two parts. */
  lemma {:induction false} WrappedHalves(b: seq<byte>, i: nat, body: seq<byte>, opts: seq<byte>, enc10: bool)
    requires At(b, i, Wrapped(body + opts, enc10)) && |b| <= MAX_INT
    ensures At(b, i + 6, body) && At(b, i + 6 + |body|, opts) && |Wrapped(body + opts, enc10)| == 6 + |body + opts|
    ensures EncapsSize(b, Cursor(i, -1, 0)) == Some(6 + |body + opts|)
  {
    WrappedParts(b, i, body + opts, enc10);
    AtSplit(b, i + 6, body, opts);
  }

  /** The reader inside an encapsulation that has just been opened. */
  function Inside(r: Reader, sz: nat, enc10: bool): Reader {
    r.(c := Advance(r.c, 6), stack := r.stack + [ReadFrame(r.c.i, sz, enc10)])
  }

  lemma {:induction false} StartReads(b: seq<byte>, r: Reader, inner: seq<byte>, enc10: bool)
    requires At(b, r.c.i, Wrapped(inner, enc10)) && |b| <= MAX_INT
    ensures StartRead(b, r) == Some(Inside(r, 6 + |inner|, enc10))
    ensures At(b, r.c.i + 6, inner)
  {
    WrappedParts(b, r.c.i, inner, enc10);
  }

  lemma {:induction false} RawReads(b: seq<byte>, c: Cursor, inner: seq<byte>, enc10: bool)
    requires At(b, c.i, Wrapped(inner, enc10)) && |b| <= MAX_INT
    ensures ReadRaw(b, c) == GotRaw(Wrapped(inner, enc10), Advance(c, |Wrapped(inner, enc10)|))
  {
    WrappedParts(b, c.i, inner, enc10);
  }

  /** Encoding 1.0: nothing was written, nothing is found, and the encapsulation ends here. */
  lemma {:induction false} EndReads10(b: seq<byte>, r: Reader, f: ReadFrame)
    requires r.stack != [] && r.stack[|r.stack| - 1] == f && f.enc10 && r.c.i == f.start + f.sz
    ensures EndRead(b, r) == Some(r.(stack := r.stack[..|r.stack| - 1]))
  {
  }

  /** Encoding 1.1: the members nobody asked for are skipped. */
  lemma {:induction false} EndReads11(b: seq<byte>, r: Reader, f: ReadFrame, at: Cursor)
    requires r.stack != [] && r.stack[|r.stack| - 1] == f && !f.enc10
    requires SkipOpts(b, r.c, f.start + f.sz) == Some(at) && at.i == f.start + f.sz
    ensures EndRead(b, r) == Some(r.(c := at, stack := r.stack[..|r.stack| - 1]))
  {
  }

  /** The optional reads gave these answers, and the encapsulation ends at `end` after them. */
  ghost predicate EndsWith(b: seq<byte>, r: Reader, asks: seq<Request>, answers: seq<OptValue>, end: nat)
    requires r.stack != [] && forall a <- asks :: WellFormed(a.t)
  {
    var opts := ReadOpts(asks, b, r);
    && opts.GotMembers? && opts.values == answers
    && var r' := EndRead(b, r.(c := opts.at));
       r'.Some? && r'.value == r.(c := r'.value.c, stack := r.stack[..|r.stack| - 1]) &&
       r'.value.c.i == end && Tracked(r'.value.c, 0)
  }

  lemma {:induction false} EndsWith11(b: seq<byte>, r: Reader, asks: seq<Request>, got: MembersRead, end: nat)
    requires r.stack != [] && !r.stack[|r.stack| - 1].enc10 && (forall a <- asks :: WellFormed(a.t))
    requires end == r.stack[|r.stack| - 1].start + r.stack[|r.stack| - 1].sz
    requires ReadMembers(asks, b, r.c, end) == got && got.GotMembers? && Tracked(got.at, 0) && got.at.i <= end
    requires SkipOpts(b, got.at, end) == Some(got.at.(i := end))
    ensures EndsWith(b, r, asks, got.values, end)
  {
    OptsAre(b, r, asks);
    EndReads11(b, r.(c := got.at), r.stack[|r.stack| - 1], got.at.(i := end));
  }

  lemma {:induction false} OptsAre(b: seq<byte>, r: Reader, asks: seq<Request>)
    requires r.stack != [] && !r.stack[|r.stack| - 1].enc10 && (forall a <- asks :: WellFormed(a.t))
    ensures var f := r.stack[|r.stack| - 1]; ReadOpts(asks, b, r) == ReadMembers(asks, b, r.c, f.start + f.sz)
  {
  }

  lemma {:induction false} OptsThenEnd11(b: seq<byte>, r: Reader, asks: seq<Request>, ms: seq<Member>, end: nat,
    answers: seq<OptValue>)
    requires AllWritable(ms) && Ascending(Tags(ms)) && Agrees(asks, ms) && Answers(answers, asks, ms)
    requires r.stack != [] && !r.stack[|r.stack| - 1].enc10
    requires end == r.stack[|r.stack| - 1].start + r.stack[|r.stack| - 1].sz
    requires At(b, r.c.i, WriteMembers(ms)) && end == r.c.i + |WriteMembers(ms)| && |b| <= MAX_INT && Tracked(r.c, 0)
    ensures EndsWith(b, r, asks, answers, end)
  {
    EveryReaderFinds(ms, asks, b, r.c, end, end);
    var got := ReadMembers(asks, b, r.c, end);
    assert got.values == answers;
    EndsWith11(b, r, asks, got, end);
  }

  /** The answers, and the end of the encapsulation. */
  lemma {:induction false} OptsThenEnd(b: seq<byte>, r: Reader, asks: seq<Request>, n: Node, f: ReadFrame)
    requires n.Encapsulation? && AllWritable(n.opts) && Ascending(Tags(n.opts)) && Agrees(asks, n.opts)
    requires r.stack != [] && r.stack[|r.stack| - 1] == f && f.enc10 == n.enc10
    requires At(b, r.c.i, OptsBytes(n.enc10, n.opts)) && f.start + f.sz == r.c.i + |OptsBytes(n.enc10, n.opts)|
    requires |b| <= MAX_INT && Tracked(r.c, 0)
    ensures EndsWith(b, r, asks, ExpectedAnswers(asks, n), f.start + f.sz)
  {
    if n.enc10 {
      EndReads10(b, r, f);
    } else {
      OptsThenEnd11(b, r, asks, n.opts, f.start + f.sz, ExpectedAnswers(asks, n));
    }
  }

  ghost predicate ReadsItem(x: ItemRead, item: Item, r: Reader, i: nat) {
    x.GotItem? && x.item == item && x.at == r.(c := x.at.c) && x.at.c.i == i && Tracked(x.at.c, 0)
  }

  ghost predicate ReadsItems(x: ItemsRead, items: seq<Item>, r: Reader, i: nat) {
    x.GotItems? && x.items == items && x.at == r.(c := x.at.c) && x.at.c.i == i && Tracked(x.at.c, 0)
  }

  /** An encapsulation read as a whole is the same bytes in either context. */
  lemma {:induction false} RawIsContextFree(enc10: bool, n: Node)
    requires NodeOk(n) && n.Encapsulation?
    ensures NodeBytes(enc10, n) == Wrapped(ForestBytes(n.enc10, n.body) + OptsBytes(n.enc10, n.opts), n.enc10)
  {
  }

  /** Entering is starting, reading the contents, and ending. */
  lemma {:induction false} EnterIs(b: seq<byte>, r: Reader, p: Plan, in_: Reader, items: seq<Item>, i: nat,
    answers: seq<OptValue>, end: nat)
    requires p.Enter? && PlanOk(p) && StartRead(b, r) == Some(in_) && in_.stack[..|r.stack|] == r.stack
    requires in_.enc10 == r.enc10 && |in_.stack| == |r.stack| + 1
    requires ReadsItems(ReadNodes(b, in_, p.body), items, in_, i)
    requires EndsWith(b, ReadNodes(b, in_, p.body).at, p.asks, answers, end)
    ensures ReadsItem(ReadNode(b, r, p), Entered(items, answers), r, end)
  {
  }

  lemma {:induction false} EnterCloses(b: seq<byte>, r: Reader, asks: seq<Request>, n: Node, x: ItemsRead,
    items: seq<Item>, body: seq<byte>, opts: seq<byte>)
    requires n.Encapsulation? && AllWritable(n.opts) && Ascending(Tags(n.opts)) && |b| <= MAX_INT
    requires Agrees(asks, n.opts) && opts == OptsBytes(n.enc10, n.opts) && At(b, r.c.i + 6 + |body|, opts)
    requires var in_ := Inside(r, 6 + |body + opts|, n.enc10); ReadsItems(x, items, in_, in_.c.i + |body|)
    ensures x.at.stack != [] && EndsWith(b, x.at, asks, ExpectedAnswers(asks, n), r.c.i + 6 + |body + opts|)
  {
    var f := ReadFrame(r.c.i, 6 + |body + opts|, n.enc10);
    assert x.at.stack == r.stack + [f];
    OptsThenEnd(b, x.at, asks, n, f);
  }

  lemma {:induction false} EnterReads(b: seq<byte>, r: Reader, p: Plan, n: Node, items: seq<Item>, body: seq<byte>,
    opts: seq<byte>)
    requires n.Encapsulation? && AllWritable(n.opts) && Ascending(Tags(n.opts)) && |b| <= MAX_INT
    requires p.Enter? && PlanOk(p) && Agrees(p.asks, n.opts)
    requires opts == OptsBytes(n.enc10, n.opts) && At(b, r.c.i + 6 + |body|, opts)
    requires var in_ := Inside(r, 6 + |body + opts|, n.enc10);
             StartRead(b, r) == Some(in_) && ReadsItems(ReadNodes(b, in_, p.body), items, in_, in_.c.i + |body|)
    ensures ReadsItem(ReadNode(b, r, p), Entered(items, ExpectedAnswers(p.asks, n)), r, r.c.i + 6 + |body + opts|)
  {
    var in_ := Inside(r, 6 + |body + opts|, n.enc10);
    EnterCloses(b, r, p.asks, n, ReadNodes(b, in_, p.body), items, body, opts);
    InsideIs(r, 6 + |body + opts|, n.enc10);
    EnterIs(b, r, p, in_, items, in_.c.i + |body|, ExpectedAnswers(p.asks, n), in_.c.i + |body + opts|);
  }

  lemma {:induction false} InsideIs(r: Reader, sz: nat, enc10: bool)
    ensures var in_ := Inside(r, sz, enc10); in_.stack[..|r.stack|] == r.stack && |in_.stack| == |r.stack| + 1
  {
  }

  lemma {:induction false} InsideEncoding(r: Reader, sz: nat, enc10: bool)
    requires Tracked(r.c, 0)
    ensures var in_ := Inside(r, sz, enc10);
            ReadEncoding10(in_) == enc10 && Tracked(in_.c, 0) && in_.c.i == r.c.i + 6
  {
  }

  /** A reader that enters here finds these contents and these optional members. */
  ghost predicate Opens(b: seq<byte>, r: Reader, sz: nat, body: seq<byte>, opts: seq<byte>, enc10: bool) {
    var in_ := Inside(r, sz, enc10);
    && StartRead(b, r) == Some(in_) && Tracked(in_.c, 0) && ReadEncoding10(in_) == enc10
    && At(b, in_.c.i, body) && At(b, in_.c.i + |body|, opts) && sz == 6 + |body + opts|
  }

  lemma {:induction false} OpensAt(b: seq<byte>, r: Reader, body: seq<byte>, opts: seq<byte>, enc10: bool)
    requires At(b, r.c.i, Wrapped(body + opts, enc10)) && |b| <= MAX_INT && Tracked(r.c, 0)
    ensures Opens(b, r, |Wrapped(body + opts, enc10)|, body, opts, enc10)
  {
    StartReads(b, r, body + opts, enc10);
    WrappedHalves(b, r.c.i, body, opts, enc10);
    InsideEncoding(r, 6 + |body + opts|, enc10);
  }

  /** The contents of an encapsulation, seen by a reader that enters it. */
  lemma {:induction false} EntersAt(b: seq<byte>, r: Reader, n: Node)
    requires NodeOk(n) && n.Encapsulation? && |b| <= MAX_INT && Tracked(r.c, 0)
    requires At(b, r.c.i, NodeBytes(ReadEncoding10(r), n))
    ensures Opens(b, r, |NodeBytes(ReadEncoding10(r), n)|, ForestBytes(n.enc10, n.body), OptsBytes(n.enc10, n.opts),
                  n.enc10)
  {
    RawIsContextFree(ReadEncoding10(r), n);
    OpensAt(b, r, ForestBytes(n.enc10, n.body), OptsBytes(n.enc10, n.opts), n.enc10);
  }

  lemma {:induction false} EnterNodeReads(b: seq<byte>, r: Reader, p: Plan, n: Node, in_: Reader, sz: nat)
    requires NodeOk(n) && n.Encapsulation? && p.Enter? && PlanOk(p) && Suits(p, n) && |b| <= MAX_INT
    requires in_ == Inside(r, sz, n.enc10) && StartRead(b, r) == Some(in_)
    requires sz == 6 + |ForestBytes(n.enc10, n.body) + OptsBytes(n.enc10, n.opts)|
    requires At(b, in_.c.i + |ForestBytes(n.enc10, n.body)|, OptsBytes(n.enc10, n.opts))
    requires ReadsItems(ReadNodes(b, in_, p.body), ExpectedAll(p.body, n.body), in_,
                        in_.c.i + |ForestBytes(n.enc10, n.body)|)
    ensures ReadsItem(ReadNode(b, r, p), Expected(p, n), r, r.c.i + sz)
  {
    var body, opts := ForestBytes(n.enc10, n.body), OptsBytes(n.enc10, n.opts);
    EnterReads(b, r, p, n, ExpectedAll(p.body, n.body), body, opts);
  }

  lemma {:induction false} RawNodeReads(b: seq<byte>, r: Reader, p: Plan, n: Node)
    requires NodeOk(n) && n.Encapsulation? && (p.SkipWhole? || p.TakeRaw?) && |b| <= MAX_INT && Tracked(r.c, 0)
    requires At(b, r.c.i, NodeBytes(ReadEncoding10(r), n))
    ensures ReadsItem(ReadNode(b, r, p), Expected(p, n), r, r.c.i + |NodeBytes(ReadEncoding10(r), n)|)
  {
    RawIsContextFree(ReadEncoding10(r), n);
    RawIsContextFree(true, n);
    RawReads(b, r.c, ForestBytes(n.enc10, n.body) + OptsBytes(n.enc10, n.opts), n.enc10);
  }

  lemma {:induction false} DatumReads(b: seq<byte>, r: Reader, p: Plan, n: Node)
    requires NodeOk(n) && n.Datum? && p == ReadDatum(n.t) && |b| <= MAX_INT && Tracked(r.c, 0)
    requires At(b, r.c.i, Enc(ReadEncoding10(r), n.t, n.v))
    ensures ReadsItem(ReadNode(b, r, p), Expected(p, n), r, r.c.i + |NodeBytes(ReadEncoding10(r), n)|)
  {
    DecOfEnc(ReadEncoding10(r), n.t, n.v, b, r.c, 0);
  }

  lemma {:induction false} NodeReads(b: seq<byte>, r: Reader, p: Plan, n: Node)
    requires NodeOk(n) && PlanOk(p) && Suits(p, n) && |b| <= MAX_INT && Tracked(r.c, 0)
    requires At(b, r.c.i, NodeBytes(ReadEncoding10(r), n))
    ensures ReadsItem(ReadNode(b, r, p), Expected(p, n), r, r.c.i + |NodeBytes(ReadEncoding10(r), n)|)
    decreases p, 0
  {
    if p.ReadDatum? {
      DatumReads(b, r, p, n);
    } else if p.Enter? {
      var sz := |NodeBytes(ReadEncoding10(r), n)|;
      var in_ := Inside(r, sz, n.enc10);
      EntersAt(b, r, n);
      ForestReads(b, in_, p.body, n.body);
      EnterNodeReads(b, r, p, n, in_, sz);
    } else {
      RawNodeReads(b, r, p, n);
    }
  }

  lemma {:induction false} TailSuits(ps: seq<Plan>, ns: seq<Node>)
    requires |ps| == |ns| > 0 && (forall p <- ps :: PlanOk(p)) && (forall n <- ns :: NodeOk(n))
    requires forall k | 0 <= k < |ps| :: Suits(ps[k], ns[k])
    ensures PlanOk(ps[0]) && NodeOk(ns[0]) && Suits(ps[0], ns[0])
    ensures (forall p <- ps[1..] :: PlanOk(p)) && (forall n <- ns[1..] :: NodeOk(n))
    ensures forall k | 0 <= k < |ps| - 1 :: Suits(ps[1..][k], ns[1..][k])
  {
  }

  lemma {:induction false} FirstAt(b: seq<byte>, i: nat, enc10: bool, ns: seq<Node>)
    requires ns != [] && (forall n <- ns :: NodeOk(n)) && At(b, i, ForestBytes(enc10, ns))
    ensures var n := |NodeBytes(enc10, ns[0])|;
            && At(b, i, NodeBytes(enc10, ns[0])) && At(b, i + n, ForestBytes(enc10, ns[1..]))
            && |ForestBytes(enc10, ns)| == n + |ForestBytes(enc10, ns[1..])|
  {
    AtSplit(b, i, NodeBytes(enc10, ns[0]), ForestBytes(enc10, ns[1..]));
  }

  lemma {:induction false} FirstThenRest(b: seq<byte>, r: Reader, ps: seq<Plan>, ns: seq<Node>, r': Reader,
    i: nat, j: nat)
    requires |ps| == |ns| > 0 && (forall p <- ps :: PlanOk(p)) && (forall n <- ns :: NodeOk(n))
    requires forall k | 0 <= k < |ps| :: Suits(ps[k], ns[k])
    requires var x := ReadNode(b, r, ps[0]); ReadsItem(x, Expected(ps[0], ns[0]), r, i) && x.at == r'
    requires ReadsItems(ReadNodes(b, r', ps[1..]), ExpectedAll(ps[1..], ns[1..]), r', j)
    ensures ReadsItems(ReadNodes(b, r, ps), ExpectedAll(ps, ns), r, j)
  {
  }

  lemma {:induction false} ForestReads(b: seq<byte>, r: Reader, ps: seq<Plan>, ns: seq<Node>)
    requires |ps| == |ns| && (forall p <- ps :: PlanOk(p)) && (forall n <- ns :: NodeOk(n))
    requires (forall k | 0 <= k < |ps| :: Suits(ps[k], ns[k])) && |b| <= MAX_INT && Tracked(r.c, 0)
    requires At(b, r.c.i, ForestBytes(ReadEncoding10(r), ns))
    ensures ReadsItems(ReadNodes(b, r, ps), ExpectedAll(ps, ns), r, r.c.i + |ForestBytes(ReadEncoding10(r), ns)|)
    decreases ps, 0
  {
    if ps != [] {
      var enc10 := ReadEncoding10(r);
      TailSuits(ps, ns);
      FirstAt(b, r.c.i, enc10, ns);
      NodeReads(b, r, ps[0], ns[0]);
      var r' := ReadNode(b, r, ps[0]).at;
      ForestReads(b, r', ps[1..], ns[1..]);
      FirstThenRest(b, r, ps, ns, r', r'.c.i, r'.c.i + |ForestBytes(enc10, ns[1..])|);
    }
  }
}

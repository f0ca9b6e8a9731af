/** Runs of start, write and end calls: a well-nested run is a forest, and reading follows it to the same offset. */
module EncapsRuns {
  import opened Prelude
  import opened Wire
  import opened WireProofs
  import opened Optionals
  import opened OptionalsProofs
  import opened Encaps
  import opened EncapsProofs

  datatype Op =
    | Start(enc10: bool)
    | Write(t: Type, v: Value)
    | End(opts: seq<Member>)           // the optional members, then endWriteEncaps()

  predicate OpOk(o: Op) {
    match o
    case Start(_) => true
    case Write(t, v) => WellFormed(t) && Fits(t, v)
    case End(opts) => AllWritable(opts) && Ascending(Tags(opts))
  }

  /** Every open encapsulation has its header in the buffer. */
  predicate WriterOk(w: Writer) {
    forall i | 0 <= i < |w.stack| :: w.stack[i].start + 6 <= |w.b|
  }

  function Step(w: Writer, o: Op): (w': Writer)
    requires WriterOk(w) && OpOk(o) && (o.End? ==> w.stack != [])
    ensures WriterOk(w')
  {
    match o
    case Start(enc10) => StartWrite(w, enc10)
    case Write(t, v) => Put(w, t, v)
    case End(opts) => EndWrite(PutOpts(w, opts))
  }

  /** How many encapsulations are open after these calls. */
  function Depth(ops: seq<Op>): int {
    if ops == [] then 0
    else
      var d := Depth(ops[..|ops| - 1]);
      match ops[|ops| - 1]
      case Start(_) => d + 1
      case Write(_, _) => d
      case End(_) => d - 1
  }

  /** No call ends an encapsulation that was not started in this run. */
  predicate NeverBelow(ops: seq<Op>) {
    Depth(ops) >= 0 && (ops != [] ==> NeverBelow(ops[..|ops| - 1]))
  }

  predicate WellNested(ops: seq<Op>) {
    NeverBelow(ops) && Depth(ops) == 0
  }

  function Run(w: Writer, ops: seq<Op>): (w': Writer)
    requires WriterOk(w) && NeverBelow(ops) && (forall k | 0 <= k < |ops| :: OpOk(ops[k]))
    ensures WriterOk(w') && |w'.stack| == |w.stack| + Depth(ops)
  {
    if ops == [] then w else Step(Run(w, ops[..|ops| - 1]), ops[|ops| - 1])
  }

  // --------------------------------------------------------------- forests as runs

  function Flatten(ns: seq<Node>): seq<Op>
    decreases ns, 0
  {
    if ns == [] then [] else FlattenNode(ns[0]) + Flatten(ns[1..])
  }

  function FlattenNode(n: Node): seq<Op>
    decreases n, 0
  {
    match n
    case Datum(t, v) => [Write(t, v)]
    case Encapsulation(enc10, body, opts) => [Start(enc10)] + Flatten(body) + [End(opts)]
  }

  lemma {:induction false} FlattenSnoc(ns: seq<Node>, n: Node)
    ensures Flatten(ns + [n]) == Flatten(ns) + FlattenNode(n)
    decreases |ns|
  {
    if ns == [] {
      assert Flatten([n]) == FlattenNode(n) + Flatten([n][1..]);
    } else {
      FlattenSnoc(ns[1..], n);
      assert (ns + [n])[1..] == ns[1..] + [n];
    }
  }

  /** The forests of the encapsulations still open, outermost first, under the encodings they were started with. */
  function Unparse(forests: seq<seq<Node>>, encs: seq<bool>): seq<Op>
    requires |forests| == |encs| + 1
    decreases |encs|
  {
    var d := |encs|;
    if d == 0 then Flatten(forests[0])
    else Unparse(forests[..d], encs[..d - 1]) + [Start(encs[d - 1])] + Flatten(forests[d])
  }

  ghost predicate ForestsOk(forests: seq<seq<Node>>) {
    forall i | 0 <= i < |forests| :: forall n <- forests[i] :: NodeOk(n)
  }

  /** The innermost forest grows. */
  lemma {:induction false} UnparseGrows(forests: seq<seq<Node>>, encs: seq<bool>, n: Node)
    requires |forests| == |encs| + 1
    ensures Unparse(forests[..|encs|] + [forests[|encs|] + [n]], encs) == Unparse(forests, encs) + FlattenNode(n)
  {
    var d := |encs|;
    var more := forests[..d] + [forests[d] + [n]];
    FlattenSnoc(forests[d], n);
    assert more[..d] == forests[..d] && more[d] == forests[d] + [n];
  }

  /** Every run that never goes below is what its open forests unparse to. */
  lemma {:induction false} Parse(ops: seq<Op>) returns (forests: seq<seq<Node>>, encs: seq<bool>)
    requires NeverBelow(ops) && forall k | 0 <= k < |ops| :: OpOk(ops[k])
    ensures |encs| == Depth(ops) && |forests| == |encs| + 1 && Unparse(forests, encs) == ops && ForestsOk(forests)
    decreases |ops|
  {
    if ops == [] {
      forests, encs := [[]], [];
    } else {
      var before, o := ops[..|ops| - 1], ops[|ops| - 1];
      forests, encs := Parse(before);
      assert ops == before + [o];
      forests, encs := ParseStep(before, forests, encs, o);
    }
  }

  lemma {:induction false} ParseStep(before: seq<Op>, forests: seq<seq<Node>>, encs: seq<bool>, o: Op)
    returns (forests': seq<seq<Node>>, encs': seq<bool>)
    requires |forests| == |encs| + 1 && Unparse(forests, encs) == before && ForestsOk(forests) && OpOk(o)
    requires o.End? ==> encs != []
    ensures |forests'| == |encs'| + 1 && Unparse(forests', encs') == before + [o] && ForestsOk(forests')
    ensures |encs'| == match o case Start(_) => |encs| + 1 case Write(_, _) => |encs| case End(_) => |encs| - 1
  {
    var d := |encs|;
    match o
    case Start(enc10) =>
      forests', encs' := forests + [[]], encs + [enc10];
      assert forests'[..d + 1] == forests && encs'[..d] == encs;
    case Write(t, v) =>
      forests', encs' := forests[..d] + [forests[d] + [Datum(t, v)]], encs;
      UnparseGrows(forests, encs, Datum(t, v));
    case End(opts) =>
      var n := Encapsulation(encs[d - 1], forests[d], opts);
      var outer := forests[..d];
      encs' := encs[..d - 1];
      forests' := outer[..d - 1] + [outer[d - 1] + [n]];
      UnparseGrows(outer, encs', n);
      assert Unparse(outer, encs') + FlattenNode(n) == before + [o];
  }

  /** A well-nested run is a forest. */
  lemma {:induction false} WellNestedIsForest(ops: seq<Op>) returns (ns: seq<Node>)
    requires WellNested(ops) && forall k | 0 <= k < |ops| :: OpOk(ops[k])
    ensures Flatten(ns) == ops && forall n <- ns :: NodeOk(n)
  {
    var forests, encs := Parse(ops);
    ns := forests[0];
  }

  // --------------------------------------------------------------- running a forest

  lemma {:induction false} DepthJoins(a: seq<Op>, b: seq<Op>)
    requires NeverBelow(a) && NeverBelow(b)
    ensures NeverBelow(a + b) && Depth(a + b) == Depth(a) + Depth(b)
    decreases |b|
  {
    if b == [] {
      assert a + b == a;
    } else {
      DepthJoins(a, b[..|b| - 1]);
      assert (a + b)[..|a + b| - 1] == a + b[..|b| - 1];
    }
  }

  ghost predicate AllOk(ops: seq<Op>) {
    forall k | 0 <= k < |ops| :: OpOk(ops[k])
  }

  lemma {:induction false} RunJoins(w: Writer, a: seq<Op>, b: seq<Op>)
    requires WriterOk(w) && NeverBelow(a) && NeverBelow(b) && AllOk(a) && AllOk(b)
    ensures NeverBelow(a + b) && AllOk(a + b) && Run(w, a + b) == Run(Run(w, a), b)
    decreases |b|
  {
    DepthJoins(a, b);
    if b == [] {
      assert a + b == a;
    } else {
      var before, o := b[..|b| - 1], b[|b| - 1];
      assert b == before + [o];
      RunJoins(w, a, before);
      RunJoinsOne(w, a, before, o);
    }
  }

  lemma {:induction false} RunJoinsOne(w: Writer, a: seq<Op>, b: seq<Op>, o: Op)
    requires WriterOk(w) && NeverBelow(a) && NeverBelow(b) && AllOk(a) && AllOk(b)
    requires NeverBelow(a + b) && AllOk(a + b) && Run(w, a + b) == Run(Run(w, a), b)
    requires NeverBelow(b + [o]) && AllOk(b + [o]) && NeverBelow(a + (b + [o])) && AllOk(a + (b + [o]))
    ensures Run(w, a + (b + [o])) == Run(Run(w, a), b + [o])
  {
    assert a + (b + [o]) == a + b + [o];
    RunSnoc(w, a + b, o);
    RunSnoc(Run(w, a), b, o);
  }

  lemma {:induction false} RunSnoc(w: Writer, ops: seq<Op>, o: Op)
    requires WriterOk(w) && NeverBelow(ops) && NeverBelow(ops + [o]) && AllOk(ops + [o]) && AllOk(ops)
    ensures (o.End? ==> Run(w, ops).stack != []) && OpOk(o)
    ensures Run(w, ops + [o]) == Step(Run(w, ops), o)
  {
    assert (ops + [o])[..|ops|] == ops;
    assert OpOk((ops + [o])[|ops|]);
  }

  /** The calls that write a forest are well nested, and do what writing it does. */
  ghost predicate Does(w: Writer, ops: seq<Op>, w': Writer)
    requires WriterOk(w)
  {
    WellNested(ops) && AllOk(ops) && Run(w, ops) == w'
  }

  lemma {:induction false} RunStarted(w: Writer, enc10: bool, body: seq<Op>, w': Writer)
    requires WriterOk(w) && Does(StartWrite(w, enc10), body, w')
    ensures var ops := [Start(enc10)] + body;
            NeverBelow(ops) && Depth(ops) == 1 && AllOk(ops) && Run(w, ops) == w'
  {
    DepthJoins([Start(enc10)], body);
    RunJoins(w, [Start(enc10)], body);
  }

  lemma {:induction false} RunEncapsulation(w: Writer, n: Node, body: seq<Op>)
    requires WriterOk(w) && NodeOk(n) && n.Encapsulation?
    requires Does(StartWrite(w, n.enc10), body, WriteNodes(StartWrite(w, n.enc10), n.body))
    ensures Does(w, [Start(n.enc10)] + body + [End(n.opts)], WriteNode(w, n))
  {
    var ops := [Start(n.enc10)] + body;
    var w' := WriteNodes(StartWrite(w, n.enc10), n.body);
    RunStarted(w, n.enc10, body, w');
    var all := ops + [End(n.opts)];
    assert all[..|ops|] == ops && all[|ops|] == End(n.opts);
    RunSnoc(w, ops, End(n.opts));
  }

  lemma {:induction false} DoesJoin(w: Writer, a: seq<Op>, w1: Writer, b: seq<Op>, w2: Writer)
    requires WriterOk(w) && Does(w, a, w1) && Does(w1, b, w2)
    ensures Does(w, a + b, w2)
  {
    DepthJoins(a, b);
    RunJoins(w, a, b);
  }

  lemma {:induction false} RunNode(w: Writer, n: Node)
    requires WriterOk(w) && NodeOk(n)
    ensures Does(w, FlattenNode(n), WriteNode(w, n))
    decreases n, 0
  {
    match n
    case Datum(t, v) =>
      assert [Write(t, v)][..0] == [];
    case Encapsulation(enc10, body, opts) =>
      RunForest(StartWrite(w, enc10), body);
      RunEncapsulation(w, n, Flatten(body));
  }

  lemma {:induction false} RunForest(w: Writer, ns: seq<Node>)
    requires WriterOk(w) && forall n <- ns :: NodeOk(n)
    ensures Does(w, Flatten(ns), WriteNodes(w, ns))
    decreases ns, 0
  {
    if ns != [] {
      RunNode(w, ns[0]);
      var w' := WriteNode(w, ns[0]);
      RunForest(w', ns[1..]);
      DoesJoin(w, FlattenNode(ns[0]), w', Flatten(ns[1..]), WriteNodes(w', ns[1..]));
    }
  }

  // --------------------------------------------------------------- the theorems

  /**
   Every well-nested run of start, write and end, into any buffer and inside any open encapsulations, appends one
   forest's bytes and leaves what was there before as it was.
   */
  lemma {:induction false} WellNestedRunAppends(w: Writer, ops: seq<Op>) returns (ns: seq<Node>)
    requires WriterOk(w) && WellNested(ops) && forall k | 0 <= k < |ops| :: OpOk(ops[k])
    ensures Flatten(ns) == ops && (forall n <- ns :: NodeOk(n))
    ensures Run(w, ops) == w.(b := w.b + ForestBytes(WriteEncoding10(w), ns))
  {
    ns := WellNestedIsForest(ops);
    RunForest(w, ns);
    ForestAppends(w, ns);
  }

  /** At every encapsulation of the forest, however deep, the size in the buffer is that of its header and contents. */
  ghost predicate SizesExact(b: seq<byte>, i: nat, enc10: bool, ns: seq<Node>)
    requires forall n <- ns :: NodeOk(n)
    decreases ns, 0
  {
    ns == [] ||
    (NodeSizesExact(b, i, enc10, ns[0]) && SizesExact(b, i + |NodeBytes(enc10, ns[0])|, enc10, ns[1..]))
  }

  ghost predicate NodeSizesExact(b: seq<byte>, i: nat, enc10: bool, n: Node)
    requires NodeOk(n)
    decreases n, 0
  {
    match n
    case Datum(_, _) => true
    case Encapsulation(e, body, _) =>
      EncapsSize(b, Cursor(i, -1, 0)) == Some(|NodeBytes(enc10, n)|) && SizesExact(b, i + 6, e, body)
  }

  lemma {:induction false} NodeSizes(b: seq<byte>, i: nat, enc10: bool, n: Node)
    requires NodeOk(n) && |b| <= MAX_INT && At(b, i, NodeBytes(enc10, n))
    ensures NodeSizesExact(b, i, enc10, n)
    decreases n, 0
  {
    if n.Encapsulation? {
      ContentsAt(b, i, enc10, n);
      ForestSizes(b, i + 6, n.enc10, n.body);
    }
  }

  lemma {:induction false} ContentsAt(b: seq<byte>, i: nat, enc10: bool, n: Node)
    requires NodeOk(n) && n.Encapsulation? && |b| <= MAX_INT && At(b, i, NodeBytes(enc10, n))
    ensures EncapsSize(b, Cursor(i, -1, 0)) == Some(|NodeBytes(enc10, n)|)
    ensures At(b, i + 6, ForestBytes(n.enc10, n.body))
  {
    RawIsContextFree(enc10, n);
    WrappedHalves(b, i, ForestBytes(n.enc10, n.body), OptsBytes(n.enc10, n.opts), n.enc10);
  }

  lemma {:induction false} ForestSizes(b: seq<byte>, i: nat, enc10: bool, ns: seq<Node>)
    requires (forall n <- ns :: NodeOk(n)) && |b| <= MAX_INT && At(b, i, ForestBytes(enc10, ns))
    ensures SizesExact(b, i, enc10, ns)
    decreases ns, 0
  {
    if ns != [] {
      FirstAt(b, i, enc10, ns);
      NodeSizes(b, i, enc10, ns[0]);
      ForestSizes(b, i + |NodeBytes(enc10, ns[0])|, enc10, ns[1..]);
    }
  }

  /**
   After the outermost end, each backpatched size in the buffer, at any depth, spans exactly its encapsulation: header
   and contents.
   */
  lemma {:induction false} SizeSpansContents(w: Writer, ns: seq<Node>, after: seq<byte>)
    requires (forall n <- ns :: NodeOk(n)) && |WriteNodes(w, ns).b + after| <= MAX_INT
    ensures SizesExact(WriteNodes(w, ns).b + after, |w.b|, WriteEncoding10(w), ns)
  {
    ForestAppends(w, ns);
    ForestSizes(WriteNodes(w, ns).b + after, |w.b|, WriteEncoding10(w), ns);
  }

  /** What stands between the version and the end of an encapsulation. */
  function Contents(n: Node): seq<byte>
    requires NodeOk(n) && n.Encapsulation?
  {
    ForestBytes(n.enc10, n.body) + OptsBytes(n.enc10, n.opts)
  }

  lemma {:induction false} WrittenAt(w: Writer, n: Node, after: seq<byte>)
    requires NodeOk(n) && n.Encapsulation?
    ensures At(WriteNode(w, n).b + after, |w.b|, Wrapped(Contents(n), n.enc10))
    ensures WriteNode(w, n) == Appended(w, Wrapped(Contents(n), n.enc10))
  {
    NodeAppends(w, n);
    RawIsContextFree(WriteEncoding10(w), n);
  }

  /**
   What was written is read back by every reader that suits it, wherever it enters, skips or takes encapsulations
   whole and whichever optional members it asks for: it gets what was written, ends at the same offset whatever
   follows, and its open encapsulations are as before.
   */
  lemma {:induction false} NestedRoundTrip(w: Writer, ns: seq<Node>, after: seq<byte>, r: Reader, ps: seq<Plan>)
    requires (forall n <- ns :: NodeOk(n)) && |WriteNodes(w, ns).b + after| <= MAX_INT
    requires |ps| == |ns| && (forall p <- ps :: PlanOk(p)) && forall k | 0 <= k < |ps| :: Suits(ps[k], ns[k])
    requires r.c.i == |w.b| && Tracked(r.c, 0) && ReadEncoding10(r) == WriteEncoding10(w)
    ensures ReadsItems(ReadNodes(WriteNodes(w, ns).b + after, r, ps), ExpectedAll(ps, ns), r, |WriteNodes(w, ns).b|)
  {
    var s := ForestBytes(WriteEncoding10(w), ns);
    ForestAppends(w, ns);
    ForestReads(WriteNodes(w, ns).b + after, r, ps, ns);
  }

  /** readEncaps() gives bytes from which writeEncaps() makes the same encapsulation again. */
  lemma {:induction false} RawCopies(w: Writer, n: Node, after: seq<byte>, c: Cursor, w': Writer)
    requires NodeOk(n) && n.Encapsulation? && |WriteNode(w, n).b + after| <= MAX_INT && c.i == |w.b|
    ensures var raw := ReadRaw(WriteNode(w, n).b + after, c);
            raw.GotRaw? && raw.at.i == |WriteNode(w, n).b| && WriteRaw(w', raw.bytes) == Some(WriteNode(w', n))
  {
    WrittenAt(w, n, after);
    WrittenAt(w', n, []);
    RawReads(WriteNode(w, n).b + after, c, Contents(n), n.enc10);
  }

  /**
   In encoding 1.0 an encapsulation whose contents are followed by stray bytes inside it is read, to its end, exactly if
   there is at most one of them.
   */
  lemma {:induction false} OneStrayByteTolerated(b: seq<byte>, r: Reader, ps: seq<Plan>, ns: seq<Node>, stray: seq<byte>)
    requires (forall n <- ns :: NodeOk(n)) && |b| <= MAX_INT && Tracked(r.c, 0)
    requires |ps| == |ns| && (forall p <- ps :: PlanOk(p)) && forall k | 0 <= k < |ps| :: Suits(ps[k], ns[k])
    requires At(b, r.c.i, Wrapped(ForestBytes(true, ns) + stray, true))
    ensures var x := ReadNode(b, r, Enter(ps, []));
            && (x.GotItem? <==> |stray| <= 1)
            && (x.GotItem? ==> x.at.c.i == r.c.i + 6 + |ForestBytes(true, ns) + stray|)
  {
    var body := ForestBytes(true, ns);
    var in_ := Inside(r, 6 + |body + stray|, true);
    StartReads(b, r, body + stray, true);
    AtSplit(b, in_.c.i, body, stray);
    ForestReads(b, in_, ps, ns);
    EnterEnds10(b, r, ps, in_, in_.c.i + |body|, in_.c.i + |body + stray|);
  }

  lemma {:induction false} EnterEnds10(b: seq<byte>, r: Reader, ps: seq<Plan>, in_: Reader, i: nat, end: nat)
    requires (forall p <- ps :: PlanOk(p)) && StartRead(b, r) == Some(in_) && in_.stack != []
    requires var f := in_.stack[|in_.stack| - 1]; f.enc10 && f.start + f.sz == end >= i
    requires var x := ReadNodes(b, in_, ps); x.GotItems? && x.at.c.i == i
    ensures var x := ReadNode(b, r, Enter(ps, []));
            (x.GotItem? <==> end - i <= 1) && (x.GotItem? ==> x.at.c.i == end)
  {
  }
}

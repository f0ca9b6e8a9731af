/** Prefixes are exact, so skipping and decoding agree; and a reader finds the tags it knows among any it does not. */
module OptionalsProofs {
  import opened Prelude
  import opened Wire
  import opened WireProofs
  import opened Optionals

  // --------------------------------------------------------------- one optional value

  /** What stands before the encoding. */
  function Prefix(t: Type, v: Value): seq<byte>
    requires FitsOptional(false, t, v)
    ensures Payload(false, t, v) == Prefix(t, v) + Enc(false, t, v)
  {
    if !Prefixed(t) then []
    else if FormatOf(t).VSize? then PrefixExact(false, t, v); SizeBytes(PrefixValue(t, v))
    else IntFits(|Enc(false, t, v)|); IntBytes(|Enc(false, t, v)|, 4)
  }

  lemma {:induction false} PayloadSplits(t: Type, v: Value, b: seq<byte>, i: nat)
    requires FitsOptional(false, t, v) && At(b, i, Payload(false, t, v))
    ensures At(b, i, Prefix(t, v)) && At(b, i + |Prefix(t, v)|, Enc(false, t, v))
  {
    AtSplit(b, i, Prefix(t, v), Enc(false, t, v));
  }

  /** The reader steps over the prefix. */
  lemma {:induction false} PrefixSkipped(t: Type, v: Value, b: seq<byte>, c: Cursor)
    requires FitsOptional(false, t, v) && Prefixed(t) && At(b, c.i, Prefix(t, v))
    ensures (if FormatOf(t).VSize? then SkipSize(b, c) else Skip(b, c, 4)) == Some(Advance(c, |Prefix(t, v)|))
  {
    if FormatOf(t).VSize? {
      PrefixExact(false, t, v);
    }
  }

  /** An optional value is read back, and the reader stops at its end. */
  lemma {:induction false} PayloadDecodes(t: Type, v: Value, b: seq<byte>, c: Cursor)
    requires FitsOptional(false, t, v) && At(b, c.i, Payload(false, t, v)) && |b| <= MAX_INT && Tracked(c, 0)
    ensures Reads(DecPayload(t, b, c), v, c.i + |Payload(false, t, v)|, 0)
  {
    PayloadSplits(t, v, b, c.i);
    PayloadIs(t, v, b, c);
    DecOfEnc(false, t, v, b, Advance(c, |Prefix(t, v)|), 0);
  }

  lemma {:induction false} PayloadIs(t: Type, v: Value, b: seq<byte>, c: Cursor)
    requires FitsOptional(false, t, v) && At(b, c.i, Prefix(t, v))
    ensures DecPayload(t, b, c) == Dec(false, t, b, Advance(c, |Prefix(t, v)|))
  {
    if Prefixed(t) {
      PrefixSkipped(t, v, b, c);
    }
  }

  lemma {:induction false} StringSkipped(v: Value, b: seq<byte>, c: Cursor)
    requires FitsOptional(false, TString, v) && At(b, c.i, Payload(false, TString, v))
    ensures SkipOpt(VSize, b, c) == Some(Advance(c, |Payload(false, TString, v)|))
  {
    AtSplit(b, c.i, SizeBytes(|v.bytes|), v.bytes);
    ReadSizeOf(b, c, |v.bytes|);
  }

  lemma {:induction false} OneByteElementsSkipped(t: Type, v: Value, b: seq<byte>, c: Cursor)
    requires FitsOptional(false, t, v) && OneByteElements(t) && At(b, c.i, Payload(false, t, v))
    ensures SkipOpt(VSize, b, c) == Some(Advance(c, |Payload(false, t, v)|))
  {
    var elems := EncElems(false, Element(t), v.elems);
    SequenceSizes(false, Element(t), v.elems);
    assert |elems| == |v.elems|;
    assert Payload(false, t, v) == SizeBytes(|v.elems|) + elems;
    AtSplit(b, c.i, SizeBytes(|v.elems|), elems);
    ReadSizeOf(b, c, |v.elems|);
  }

  lemma {:induction false} PrefixedSkipped(t: Type, v: Value, b: seq<byte>, c: Cursor)
    requires FitsOptional(false, t, v) && Prefixed(t) && At(b, c.i, Payload(false, t, v))
    ensures SkipOpt(FormatOf(t), b, c) == Some(Advance(c, |Payload(false, t, v)|))
  {
    PayloadSplits(t, v, b, c.i);
    if FormatOf(t).VSize? {
      PrefixExact(false, t, v);
      ReadSizeOf(b, c, PrefixValue(t, v));
    } else {
      IntFits(|Enc(false, t, v)|);
      ReadIntOf(b, c, |Enc(false, t, v)|, 4);
    }
  }

  lemma {:induction false} PayloadSkipped(t: Type, v: Value, b: seq<byte>, c: Cursor)
    requires FitsOptional(false, t, v) && At(b, c.i, Payload(false, t, v))
    ensures SkipOpt(FormatOf(t), b, c) == Some(Advance(c, |Payload(false, t, v)|))
  {
    if Prefixed(t) {
      PrefixedSkipped(t, v, b, c);
    } else if t.TString? {
      StringSkipped(v, b, c);
    } else if OneByteElements(t) {
      OneByteElementsSkipped(t, v, b, c);
    } else if t.TEnum? {
    } else {
      MinWireSizeSound(false, t, v);
    }
  }

  /**
   For every optional value, nested ones included, a reader that skips it by its format and one that decodes it end at
   the same position: the first of the bytes that follow.
   */
  lemma {:induction false} SkipMeetsDecode(t: Type, v: Value, before: seq<byte>, after: seq<byte>, c: Cursor)
    requires FitsOptional(false, t, v) && |before + Payload(false, t, v) + after| <= MAX_INT
    requires c.i == |before| && Tracked(c, 0)
    ensures var b := before + Payload(false, t, v) + after;
            && Reads(DecPayload(t, b, c), v, |before + Payload(false, t, v)|, 0)
            && SkipOpt(FormatOf(t), b, c).Some?
            && SkipOpt(FormatOf(t), b, c).value.i == |before + Payload(false, t, v)|
  {
    var b := before + Payload(false, t, v) + after;
    assert b[|before|..|before| + |Payload(false, t, v)|] == Payload(false, t, v);
    PayloadDecodes(t, v, b, c);
    PayloadSkipped(t, v, b, c);
  }

  // --------------------------------------------------------------- tags

  /** A header tells its tag and format, and where to rewind to. */
  lemma {:induction false} HeaderReads(tag: int, f: Format, b: seq<byte>, c: Cursor)
    requires 0 <= tag <= MAX_INT && At(b, c.i, Header(tag, f))
    ensures var r := ReadByte(b, c);
            && r.GotInt? && r.n != END_MARKER && FromCode(r.n % 8) == f
            && ReadTag(r.n, b, r.at) == GotInt(tag, Advance(c, |Header(tag, f)|))
            && (r.n / 8 == 30 ==> SkipSize(b, r.at) == Some(Advance(c, |Header(tag, f)|)))
            && (r.n / 8 != 30 ==> r.at == Advance(c, |Header(tag, f)|))
    ensures |Header(tag, f)| == if tag < 30 then 1 else if tag < 255 then 2 else 6
  {
    assert b[c.i] == b[c.i..c.i + |Header(tag, f)|][0];
    if tag >= 30 {
      LongHeaderReads(tag, f, b, c);
    } else {
      assert b[c.i] == 8 * tag + Code(f);
    }
  }

  lemma {:induction false} LongHeaderReads(tag: int, f: Format, b: seq<byte>, c: Cursor)
    requires 30 <= tag <= MAX_INT && At(b, c.i, Header(tag, f))
    ensures b[c.i] == 0xF0 + Code(f)
    ensures ReadSize(b, Advance(c, 1)) == GotInt(tag, Advance(c, |Header(tag, f)|))
    ensures SkipSize(b, Advance(c, 1)) == Some(Advance(c, |Header(tag, f)|))
  {
    assert b[c.i] == b[c.i..c.i + |Header(tag, f)|][0];
    AtSplit(b, c.i, [0xF0 + Code(f)], SizeBytes(tag));
    ReadSizeOf(b, Advance(c, 1), tag);
  }

  /** What a reader makes of one member: its tag and format, where its payload starts, and where it ends. */
  predicate ReadsAs(tag: int, f: Format, length: nat, b: seq<byte>, c: Cursor)
    requires 0 <= tag <= MAX_INT
  {
    var r, h := ReadByte(b, c), |Header(tag, f)|;
    && r.GotInt? && r.n != END_MARKER && FromCode(r.n % 8) == f
    && ReadTag(r.n, b, r.at) == GotInt(tag, Advance(c, h))
    && (if r.n / 8 == 30 then SkipSize(b, r.at) else Some(r.at)) == Some(Advance(c, h))
    && SkipOpt(f, b, Advance(c, h)) == Some(Advance(c, length))
    && h == (if tag < 30 then 1 else if tag < 255 then 2 else 6)
  }

  lemma {:induction false} MemberReads(m: Member, b: seq<byte>, c: Cursor)
    requires Writable(m) && At(b, c.i, MemberBytes(m))
    ensures ReadsAs(m.tag, FormatOf(m.t), |MemberBytes(m)|, b, c)
    ensures At(b, c.i + |Header(m.tag, FormatOf(m.t))|, Payload(false, m.t, m.v))
  {
    var h := Header(m.tag, FormatOf(m.t));
    AtSplit(b, c.i, h, Payload(false, m.t, m.v));
    HeaderReads(m.tag, FormatOf(m.t), b, c);
    PayloadSkipped(m.t, m.v, b, Advance(c, |h|));
  }

  // --------------------------------------------------------------- members as the bytes they are

  /** A member as a reader that may not know it sees it. */
  datatype Chunk = Chunk(tag: int, f: Format, bytes: seq<byte>)

  ghost predicate Readable(k: Chunk) {
    && 0 <= k.tag <= MAX_INT && k.bytes != []
    && forall b, c: Cursor :: At(b, c.i, k.bytes) ==> ReadsAs(k.tag, k.f, |k.bytes|, b, c)
  }

  ghost predicate AllReadable(ks: seq<Chunk>) {
    forall k | 0 <= k < |ks| :: Readable(ks[k])
  }

  function Concat(ks: seq<Chunk>): seq<byte> {
    if ks == [] then [] else ks[0].bytes + Concat(ks[1..])
  }

  /** The chunks are at the cursor and end at `stop`; there the encapsulation ends, or the end marker stands. */
  predicate Stands(ks: seq<Chunk>, b: seq<byte>, i: nat, stop: nat, end: nat) {
    At(b, i, Concat(ks)) && stop == i + |Concat(ks)| && Closes(b, stop, end)
  }

  predicate Closes(b: seq<byte>, stop: nat, end: nat) {
    stop == end || (stop < end && stop < |b| && b[stop] == END_MARKER)
  }

  lemma {:induction false} StandsSplit(ks: seq<Chunk>, b: seq<byte>, i: nat, stop: nat, end: nat)
    requires ks != [] && ks[0].bytes != [] && Stands(ks, b, i, stop, end)
    ensures At(b, i, ks[0].bytes) && i < end && Stands(ks[1..], b, i + |ks[0].bytes|, stop, end)
  {
    AtSplit(b, i, ks[0].bytes, Concat(ks[1..]));
  }

  /** readOptImpl() in front of a member: skip it, stop before it, or go into it. */
  lemma {:induction false} ReadOptStep(k: Chunk, tag: int, f: Format, b: seq<byte>, c: Cursor, end: nat)
    requires Readable(k) && At(b, c.i, k.bytes) && c.i < end
    ensures k.tag < tag ==> ReadOpt(tag, f, b, c, end) == ReadOpt(tag, f, b, Advance(c, |k.bytes|), end)
    ensures k.tag > tag ==> ReadOpt(tag, f, b, c, end) == Missing(c)
    ensures k.tag == tag && k.f == f ==> ReadOpt(tag, f, b, c, end) == Found(Advance(c, |Header(tag, f)|))
  {
    assert ReadsAs(k.tag, k.f, |k.bytes|, b, c);
  }

  /** The first chunk from j on whose tag is not below the one asked for. */
  function FirstFrom(ks: seq<Chunk>, j: nat, tag: int): (k: nat)
    requires j <= |ks|
    ensures j <= k <= |ks| && (k < |ks| ==> ks[k].tag >= tag) && forall i | j <= i < k :: ks[i].tag < tag
    decreases |ks| - j
  {
    if j == |ks| || ks[j].tag >= tag then j else FirstFrom(ks, j + 1, tag)
  }

  /** The cursor moved on to chunk k, and nothing else about it changed. */
  predicate MovedTo(ks: seq<Chunk>, k: nat, b: seq<byte>, c: Cursor, c': Cursor, stop: nat, end: nat)
    requires k <= |ks|
  {
    c'.i >= c.i && c' == c.(i := c'.i) && Stands(ks[k..], b, c'.i, stop, end)
  }

  /** readOptImpl() skips the tags below the one asked for, and stops in front of, or in, the next one. */
  lemma {:induction false} ReadOptFinds(ks: seq<Chunk>, j: nat, tag: int, f: Format, b: seq<byte>, c: Cursor,
    stop: nat, end: nat)
    returns (at: Cursor)
    requires AllReadable(ks) && j <= |ks| && Stands(ks[j..], b, c.i, stop, end)
    requires forall k | j <= k < |ks| :: ks[k].tag == tag ==> ks[k].f == f
    ensures var k := FirstFrom(ks, j, tag);
            && MovedTo(ks, k, b, c, at, stop, end)
            && ReadOpt(tag, f, b, c, end) ==
               if k < |ks| && ks[k].tag == tag then Found(Advance(at, |Header(tag, f)|)) else Missing(at)
    decreases |ks| - j
  {
    at := c;
    if j < |ks| {
      StandsSplit(ks[j..], b, c.i, stop, end);
      assert ks[j..][1..] == ks[j + 1..];
      ReadOptStep(ks[j], tag, f, b, c, end);
      if ks[j].tag < tag {
        at := ReadOptFinds(ks, j + 1, tag, f, b, Advance(c, |ks[j].bytes|), stop, end);
      }
    } else if c.i < end {
      assert ReadByte(b, c).n == END_MARKER;
    }
  }

  lemma {:induction false} SkipOneChunk(ks: seq<Chunk>, j: nat, b: seq<byte>, c: Cursor, stop: nat, end: nat)
    requires AllReadable(ks) && j < |ks| && Stands(ks[j..], b, c.i, stop, end)
    ensures var c' := Advance(c, |ks[j].bytes|);
            SkipOpts(b, c, end) == SkipOpts(b, c', end) && Stands(ks[j + 1..], b, c'.i, stop, end)
  {
    StandsSplit(ks[j..], b, c.i, stop, end);
    assert ks[j..][1..] == ks[j + 1..];
  }

  /** skipOpts() steps over all that is left, and over the end marker if there is one. */
  lemma {:induction false} SkipOptsEnds(ks: seq<Chunk>, j: nat, b: seq<byte>, c: Cursor, stop: nat, end: nat)
    requires AllReadable(ks) && j <= |ks| && Stands(ks[j..], b, c.i, stop, end)
    ensures SkipOpts(b, c, end) == Some(c.(i := Stop(stop, end)))
    decreases |ks| - j
  {
    if j < |ks| {
      SkipOneChunk(ks, j, b, c, stop, end);
      SkipOptsEnds(ks, j + 1, b, Advance(c, |ks[j].bytes|), stop, end);
    }
  }

  /** Behind the end of the encapsulation or the end marker. */
  function Stop(stop: nat, end: nat): nat {
    if stop == end then end else stop + 1
  }

  function ChunkOf(m: Member): Chunk
    requires Writable(m)
  {
    Chunk(m.tag, FormatOf(m.t), MemberBytes(m))
  }

  lemma {:induction false} ChunkReadable(m: Member)
    requires Writable(m)
    ensures Readable(ChunkOf(m))
  {
    forall b, c: Cursor | At(b, c.i, MemberBytes(m))
      ensures ReadsAs(m.tag, FormatOf(m.t), |MemberBytes(m)|, b, c)
    {
      MemberReads(m, b, c);
    }
  }

  // --------------------------------------------------------------- every reader

  function ChunksOf(ms: seq<Member>): (ks: seq<Chunk>)
    requires AllWritable(ms)
    ensures |ks| == |ms| && forall k | 0 <= k < |ms| :: ks[k] == ChunkOf(ms[k])
  {
    if ms == [] then [] else [ChunkOf(ms[0])] + ChunksOf(ms[1..])
  }

  lemma {:induction false} AllChunksReadable(ms: seq<Member>)
    requires AllWritable(ms)
    ensures AllReadable(ChunksOf(ms))
  {
    forall i | 0 <= i < |ms|
      ensures Readable(ChunksOf(ms)[i])
    {
      ChunkReadable(ms[i]);
    }
  }

  lemma {:induction false} ChunksAreMembers(ms: seq<Member>)
    requires AllWritable(ms)
    ensures Concat(ChunksOf(ms)) == WriteMembers(ms)
  {
    if ms != [] {
      ChunksAreMembers(ms[1..]);
      assert ChunksOf(ms)[1..] == ChunksOf(ms[1..]);
    }
  }

  /** The value of the member with this tag, if there is one. */
  function Lookup(ms: seq<Member>, tag: int): OptValue {
    if ms == [] then Absent
    else if ms[0].tag == tag then Present(ms[0].v)
    else Lookup(ms[1..], tag)
  }

  /** A reader asks for ascending tags, and agrees with the writer on the type of those they share. */
  ghost predicate Agrees(rs: seq<Request>, ms: seq<Member>) {
    && (forall i | 0 <= i < |rs| :: WellFormed(rs[i].t))
    && (forall i, j | 0 <= i < j < |rs| :: rs[i].tag < rs[j].tag)
    && (forall i, k | 0 <= i < |rs| && 0 <= k < |ms| :: rs[i].tag == ms[k].tag ==> rs[i].t == ms[k].t)
  }

  lemma {:induction false} LookupFrom(ms: seq<Member>, j: nat, tag: int)
    requires AllWritable(ms) && Ascending(Tags(ms)) && j <= |ms| && (forall i | 0 <= i < j :: ms[i].tag < tag)
    ensures var k := FirstFrom(ChunksOf(ms), j, tag);
            Lookup(ms, tag) == if k < |ms| && ms[k].tag == tag then Present(ms[k].v) else Absent
  {
    var k := FirstFrom(ChunksOf(ms), j, tag);
    forall i | 0 <= i < k
      ensures ms[i].tag < tag
    {
      assert i >= j ==> ChunksOf(ms)[i].tag < tag;
    }
    LookupSkips(ms, k, tag);
  }

  lemma {:induction false} LookupSkips(ms: seq<Member>, k: nat, tag: int)
    requires Ascending(Tags(ms)) && k <= |ms| && (forall i | 0 <= i < k :: ms[i].tag < tag)
    requires k < |ms| ==> ms[k].tag >= tag
    ensures Lookup(ms, tag) == if k < |ms| && ms[k].tag == tag then Present(ms[k].v) else Absent
    decreases |ms|
  {
    if ms != [] && !(k == 0 && ms[0].tag == tag) {
      assert Tags(ms)[1..] == Tags(ms[1..]);
      assert forall i, j | 0 <= i < j < |ms| :: Tags(ms)[i] < Tags(ms)[j];
      assert k == 0 && |ms| > 1 ==> Tags(ms)[0] < Tags(ms)[1];
      LookupSkips(ms[1..], if k == 0 then 0 else k - 1, tag);
    }
  }

  lemma {:induction false} MemberDecodes(m: Member, b: seq<byte>, c: Cursor)
    requires Writable(m) && At(b, c.i, MemberBytes(m)) && |b| <= MAX_INT && Tracked(c, 0)
    ensures Reads(DecPayload(m.t, b, Advance(c, |Header(m.tag, FormatOf(m.t))|)), m.v, c.i + |MemberBytes(m)|, 0)
  {
    MemberReads(m, b, c);
    PayloadDecodes(m.t, m.v, b, Advance(c, |Header(m.tag, FormatOf(m.t))|));
  }

  lemma {:induction false} StandsNext(ks: seq<Chunk>, k: nat, b: seq<byte>, i: nat, stop: nat, end: nat)
    requires k < |ks| && ks[k].bytes != [] && Stands(ks[k..], b, i, stop, end)
    ensures At(b, i, ks[k].bytes) && i < end && Stands(ks[k + 1..], b, i + |ks[k].bytes|, stop, end)
  {
    assert ks[k..][0] == ks[k] && ks[k..][1..] == ks[k + 1..];
    StandsSplit(ks[k..], b, i, stop, end);
  }

  /** The member in front of the cursor is decoded, and the cursor moves to the next one. */
  lemma {:induction false} FoundDecodes(ks: seq<Chunk>, k: nat, m: Member, b: seq<byte>, c: Cursor, stop: nat, end: nat)
    returns (next: Cursor)
    requires Writable(m) && k < |ks| && ks[k].bytes == MemberBytes(m) && Stands(ks[k..], b, c.i, stop, end)
    requires |b| <= MAX_INT && Tracked(c, 0)
    ensures DecPayload(m.t, b, Advance(c, |Header(m.tag, FormatOf(m.t))|)) == Got(m.v, next)
    ensures Tracked(next, 0) && Stands(ks[k + 1..], b, next.i, stop, end)
  {
    StandsNext(ks, k, b, c.i, stop, end);
    MemberDecodes(m, b, c);
    next := DecPayload(m.t, b, Advance(c, |Header(m.tag, FormatOf(m.t))|)).at;
  }

  lemma {:induction false} ReadMembersFound(rs: seq<Request>, b: seq<byte>, c: Cursor, end: nat, at: Cursor,
    v: Value, next: Cursor)
    requires rs != [] && (forall r <- rs :: WellFormed(r.t))
    requires ReadOpt(rs[0].tag, FormatOf(rs[0].t), b, c, end) == Found(at) && DecPayload(rs[0].t, b, at) == Got(v, next)
    ensures ReadMembers(rs, b, c, end) == Prepend(Present(v), ReadMembers(rs[1..], b, next, end))
  {
  }

  lemma {:induction false} ReadMembersMissing(rs: seq<Request>, b: seq<byte>, c: Cursor, end: nat, next: Cursor)
    requires rs != [] && (forall r <- rs :: WellFormed(r.t))
    requires ReadOpt(rs[0].tag, FormatOf(rs[0].t), b, c, end) == Missing(next)
    ensures ReadMembers(rs, b, c, end) == Prepend(Absent, ReadMembers(rs[1..], b, next, end))
  {
  }

  lemma {:induction false} FoundOrMissing(ms: seq<Member>, j: nat, q: Request, b: seq<byte>, c: Cursor, stop: nat, end: nat)
    returns (k: nat, at: Cursor)
    requires AllWritable(ms) && Ascending(Tags(ms)) && j <= |ms| && (forall i | 0 <= i < j :: ms[i].tag < q.tag)
    requires forall i | 0 <= i < |ms| :: ms[i].tag == q.tag ==> ms[i].t == q.t
    requires Stands(ChunksOf(ms)[j..], b, c.i, stop, end)
    ensures j <= k <= |ms| && (forall i | 0 <= i < k :: ms[i].tag < q.tag) && (k < |ms| ==> ms[k].tag >= q.tag)
    ensures MovedTo(ChunksOf(ms), k, b, c, at, stop, end)
    ensures var found := k < |ms| && ms[k].tag == q.tag;
            && Lookup(ms, q.tag) == (if found then Present(ms[k].v) else Absent)
            && ReadOpt(q.tag, FormatOf(q.t), b, c, end) ==
               if found then Found(Advance(at, |Header(q.tag, FormatOf(q.t))|)) else Missing(at)
  {
    var ks := ChunksOf(ms);
    AllChunksReadable(ms);
    k := FirstFrom(ks, j, q.tag);
    at := ReadOptFinds(ks, j, q.tag, FormatOf(q.t), b, c, stop, end);
    LookupFrom(ms, j, q.tag);
    forall i | 0 <= i < k
      ensures ms[i].tag < q.tag
    {
      assert i >= j ==> ks[i].tag < q.tag;
    }
  }

  /** The answers a reader gets are those the writer wrote. */
  ghost predicate Answers(values: seq<OptValue>, rs: seq<Request>, ms: seq<Member>) {
    |values| == |rs| && forall i | 0 <= i < |rs| :: values[i] == Lookup(ms, rs[i].tag)
  }

  lemma {:induction false} AgreesNext(rs: seq<Request>, ms: seq<Member>)
    requires rs != [] && Agrees(rs, ms)
    ensures Agrees(rs[1..], ms)
    ensures forall r | 0 <= r < |rs| - 1 :: rs[0].tag < rs[1..][r].tag
  {
  }

  /** The read of a member that is there. */
  lemma {:induction false} AnswerPresent(ks: seq<Chunk>, k: nat, m: Member, rs: seq<Request>, b: seq<byte>, c: Cursor,
    at: Cursor, stop: nat, end: nat)
    returns (next: Cursor)
    requires Writable(m) && k < |ks| && ks[k].bytes == MemberBytes(m) && Stands(ks[k..], b, at.i, stop, end)
    requires rs != [] && (forall r <- rs :: WellFormed(r.t)) && m.tag == rs[0].tag && m.t == rs[0].t
    requires |b| <= MAX_INT && Tracked(at, 0)
    requires ReadOpt(rs[0].tag, FormatOf(rs[0].t), b, c, end) ==
             Found(Advance(at, |Header(rs[0].tag, FormatOf(rs[0].t))|))
    ensures ReadMembers(rs, b, c, end) == Prepend(Present(m.v), ReadMembers(rs[1..], b, next, end))
    ensures Stands(ks[k + 1..], b, next.i, stop, end) && Tracked(next, 0)
  {
    next := FoundDecodes(ks, k, m, b, at, stop, end);
    ReadMembersFound(rs, b, c, end, Advance(at, |Header(m.tag, FormatOf(m.t))|), m.v, next);
  }

  /** One read, once readOptImpl() has stopped: its answer, and where the reader then stands. */
  lemma {:induction false} AnswerAt(ms: seq<Member>, ks: seq<Chunk>, k: nat, rs: seq<Request>, b: seq<byte>, c: Cursor,
    at: Cursor, stop: nat, end: nat)
    returns (k': nat, next: Cursor)
    requires AllWritable(ms) && |b| <= MAX_INT && Tracked(at, 0)
    requires rs != [] && (forall r <- rs :: WellFormed(r.t))
    requires forall i | 0 <= i < |ms| :: ms[i].tag == rs[0].tag ==> ms[i].t == rs[0].t
    requires ks == ChunksOf(ms) && k <= |ks| && Stands(ks[k..], b, at.i, stop, end)
    requires var found := k < |ms| && ms[k].tag == rs[0].tag;
             && Lookup(ms, rs[0].tag) == (if found then Present(ms[k].v) else Absent)
             && ReadOpt(rs[0].tag, FormatOf(rs[0].t), b, c, end) ==
                if found then Found(Advance(at, |Header(rs[0].tag, FormatOf(rs[0].t))|)) else Missing(at)
    ensures ReadMembers(rs, b, c, end) == Prepend(Lookup(ms, rs[0].tag), ReadMembers(rs[1..], b, next, end))
    ensures k' <= |ks| && Stands(ks[k'..], b, next.i, stop, end) && Tracked(next, 0)
    ensures k' == k || (k' == k + 1 && ms[k].tag == rs[0].tag)
  {
    if k < |ms| && ms[k].tag == rs[0].tag {
      next := AnswerPresent(ks, k, ms[k], rs, b, c, at, stop, end);
      k' := k + 1;
    } else {
      ReadMembersMissing(rs, b, c, end, at);
      k', next := k, at;
    }
  }

  /** One read: its answer, and where the reader then stands. */
  lemma {:induction false} OneAnswer(ms: seq<Member>, ks: seq<Chunk>, j: nat, rs: seq<Request>, b: seq<byte>, c: Cursor,
    stop: nat, end: nat)
    returns (k: nat, next: Cursor)
    requires AllWritable(ms) && Ascending(Tags(ms)) && |b| <= MAX_INT && Tracked(c, 0)
    requires rs != [] && (forall r <- rs :: WellFormed(r.t))
    requires forall i | 0 <= i < |ms| :: ms[i].tag == rs[0].tag ==> ms[i].t == rs[0].t
    requires ks == ChunksOf(ms) && j <= |ks| && Stands(ks[j..], b, c.i, stop, end)
    requires forall i | 0 <= i < j :: ms[i].tag < rs[0].tag
    ensures ReadMembers(rs, b, c, end) == Prepend(Lookup(ms, rs[0].tag), ReadMembers(rs[1..], b, next, end))
    ensures k <= |ks| && Stands(ks[k..], b, next.i, stop, end) && Tracked(next, 0)
    ensures forall i | 0 <= i < k :: ms[i].tag <= rs[0].tag
  {
    var stopped, at := FoundOrMissing(ms, j, rs[0], b, c, stop, end);
    k, next := AnswerAt(ms, ks, stopped, rs, b, c, at, stop, end);
  }

  /** Where a reader stands: in front of a member, all the tags before it below those still to be asked for. */
  ghost predicate Before(ms: seq<Member>, k: nat, rs: seq<Request>) {
    k <= |ms| && forall i, r | 0 <= i < k && 0 <= r < |rs| :: ms[i].tag < rs[r].tag
  }

  lemma {:induction false} MembersFrom(ms: seq<Member>, ks: seq<Chunk>, j: nat, rs: seq<Request>, b: seq<byte>,
    c: Cursor, stop: nat, end: nat)
    returns (k: nat)
    requires AllWritable(ms) && Ascending(Tags(ms)) && Agrees(rs, ms) && |b| <= MAX_INT && Tracked(c, 0)
    requires ks == ChunksOf(ms) && Before(ms, j, rs) && Stands(ks[j..], b, c.i, stop, end)
    ensures var got := ReadMembers(rs, b, c, end);
            && got.GotMembers? && Answers(got.values, rs, ms) && Tracked(got.at, 0)
            && k <= |ks| && Stands(ks[k..], b, got.at.i, stop, end)
    decreases |rs|
  {
    k := j;
    if rs != [] {
      var next;
      k, next := OneAnswer(ms, ks, j, rs, b, c, stop, end);
      AgreesNext(rs, ms);
      k := MembersFrom(ms, ks, k, rs[1..], b, next, stop, end);
    }
  }

  lemma {:induction false} RestSkipped(ms: seq<Member>, k: nat, b: seq<byte>, c: Cursor, stop: nat, end: nat)
    requires AllWritable(ms) && k <= |ms| && Stands(ChunksOf(ms)[k..], b, c.i, stop, end)
    ensures SkipOpts(b, c, end) == Some(c.(i := Stop(stop, end)))
  {
    AllChunksReadable(ms);
    SkipOptsEnds(ChunksOf(ms), k, b, c, stop, end);
  }

  lemma {:induction false} MembersStand(ms: seq<Member>, b: seq<byte>, i: nat, stop: nat, end: nat)
    requires AllWritable(ms) && At(b, i, WriteMembers(ms)) && stop == i + |WriteMembers(ms)| && Closes(b, stop, end)
    ensures Stands(ChunksOf(ms)[0..], b, i, stop, end)
  {
    ChunksAreMembers(ms);
    assert ChunksOf(ms)[0..] == ChunksOf(ms);
  }

  /** The reads are answered, and skipOpts() then ends where the encapsulation or the end marker ends. */
  ghost predicate ReadsMembers(ms: seq<Member>, rs: seq<Request>, b: seq<byte>, got: MembersRead, stop: nat, end: nat) {
    && got.GotMembers? && Answers(got.values, rs, ms) && Tracked(got.at, 0)
    && SkipOpts(b, got.at, end) == Some(got.at.(i := Stop(stop, end))) && got.at.i <= stop
  }

  /**
   Optional members written in ascending order are read by any reader that asks for any of them in ascending order,
   whatever tags it does not know and whatever the writer left out: each answer is what was written under that tag, and
   skipping the rest ends right behind what was written.
   */
  lemma {:induction false} EveryReaderFinds(ms: seq<Member>, rs: seq<Request>, b: seq<byte>, c: Cursor,
    stop: nat, end: nat)
    requires AllWritable(ms) && Ascending(Tags(ms)) && Agrees(rs, ms) && |b| <= MAX_INT && Tracked(c, 0)
    requires At(b, c.i, WriteMembers(ms)) && stop == c.i + |WriteMembers(ms)| && Closes(b, stop, end)
    ensures ReadsMembers(ms, rs, b, ReadMembers(rs, b, c, end), stop, end)
  {
    MembersStand(ms, b, c.i, stop, end);
    var k := MembersFrom(ms, ChunksOf(ms), 0, rs, b, c, stop, end);
    RestSkipped(ms, k, b, ReadMembers(rs, b, c, end).at, stop, end);
  }
}

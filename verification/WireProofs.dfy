/** Minimum sizes, and the round trip of every value of every type through the size check of nested sequences. */
module WireProofs {
  import opened Prelude
  import opened Wire
  import opened WireKeys

  // --------------------------------------------------------------- minimum wire sizes

  /** The least bytes of n elements. */
  function MinElems(e: Type, n: nat): nat {
    if n == 0 then 0 else MinWireSize(e) + MinElems(e, n - 1)
  }

  lemma {:induction false} MinElemsIsProduct(e: Type, n: nat)
    ensures MinElems(e, n) == n * MinWireSize(e)
  {
    if n > 0 {
      MinElemsIsProduct(e, n - 1);
      assert n * MinWireSize(e) == MinWireSize(e) + (n - 1) * MinWireSize(e);
    }
  }

  /** minWireSize bounds every encoding from below, and is its length when the type is of fixed length. */
  lemma {:induction false} MinWireSizeSound(enc10: bool, t: Type, v: Value)
    requires WellFormed(t) && Fits(t, v)
    ensures |Enc(enc10, t, v)| >= MinWireSize(t)
    ensures FixedLength(t) ==> |Enc(enc10, t, v)| == MinWireSize(t)
    decreases t, 0
  {
    match t
    case TStruct(ms) => MembersSizes(enc10, ms, v.elems);
    case _ =>
  }

  lemma {:induction false} MembersSizes(enc10: bool, ms: seq<Type>, vs: seq<Value>)
    requires |ms| == |vs| && (forall m <- ms :: WellFormed(m)) && forall k | 0 <= k < |ms| :: Fits(ms[k], vs[k])
    ensures |EncMembers(enc10, ms, vs)| >= MinWireSizes(ms)
    ensures (forall m <- ms :: FixedLength(m)) ==> |EncMembers(enc10, ms, vs)| == MinWireSizes(ms)
    decreases ms, 0
  {
    if ms != [] {
      MinWireSizeSound(enc10, ms[0], vs[0]);
      MembersSizes(enc10, ms[1..], vs[1..]);
    }
  }

  lemma {:induction false} ElemsSizes(enc10: bool, e: Type, vs: seq<Value>)
    requires WellFormed(e) && forall x <- vs :: Fits(e, x)
    ensures |EncElems(enc10, e, vs)| >= MinElems(e, |vs|)
    ensures FixedLength(e) ==> |EncElems(enc10, e, vs)| == MinElems(e, |vs|)
    decreases |vs|
  {
    if vs != [] {
      MinWireSizeSound(enc10, e, vs[0]);
      ElemsSizes(enc10, e, vs[1..]);
    }
  }

  /** n elements never take fewer than n times the minimum, and exactly that many bytes when they are of fixed length. */
  lemma {:induction false} SequenceSizes(enc10: bool, e: Type, vs: seq<Value>)
    requires WellFormed(e) && forall x <- vs :: Fits(e, x)
    ensures |EncElems(enc10, e, vs)| >= |vs| * MinWireSize(e)
    ensures FixedLength(e) ==> |EncElems(enc10, e, vs)| == |vs| * MinWireSize(e)
  {
    ElemsSizes(enc10, e, vs);
    MinElemsIsProduct(e, |vs|);
  }

  // --------------------------------------------------------------- numbers and sizes

  /** The bytes s are in b from position i on. */
  predicate At(b: seq<byte>, i: nat, s: seq<byte>) {
    i + |s| <= |b| && b[i..i + |s|] == s
  }

  lemma {:induction false} AtSplit(b: seq<byte>, i: nat, s: seq<byte>, s': seq<byte>)
    requires At(b, i, s + s')
    ensures At(b, i, s) && At(b, i + |s|, s')
  {
    assert b[i..i + |s|] == (s + s')[..|s|];
    assert b[i + |s|..i + |s| + |s'|] == (s + s')[|s|..];
  }

  lemma {:induction false} FromToBytes(u: nat, w: nat)
    requires u < Pow256(w)
    ensures FromBytes(ToBytes(u, w)) == u
  {
    if w > 0 {
      FromToBytes(u / 256, w - 1);
      assert ToBytes(u, w)[1..] == ToBytes(u / 256, w - 1);
    }
  }

  /** A number comes back from its two's complement bytes. */
  lemma {:induction false} ReadIntOf(b: seq<byte>, c: Cursor, n: int, w: nat)
    requires InRange(n, w) && At(b, c.i, IntBytes(n, w))
    ensures ReadInt(b, c, w) == GotInt(n, Advance(c, w))
  {
    FromToBytes(if n < 0 then n + Pow256(w) else n, w);
  }

  lemma {:induction false} ReadSizeOf(b: seq<byte>, c: Cursor, n: int)
    requires 0 <= n <= MAX_INT && At(b, c.i, SizeBytes(n))
    ensures ReadSize(b, c) == GotInt(n, Advance(c, |SizeBytes(n)|))
  {
    assert b[c.i] == b[c.i..c.i + |SizeBytes(n)|][0];
    if n > 254 {
      IntFits(n);
      AtSplit(b, c.i, [255], IntBytes(n, 4));
      ReadIntOf(b, Advance(c, 1), n, 4);
    }
  }

  lemma {:induction false} ReadEnumOf(enc10: bool, b: seq<byte>, c: Cursor, n: int, maxValue: int)
    requires 0 <= n <= maxValue <= MAX_INT && InRange(n, EnumWidth(maxValue))
    requires var s := if enc10 then IntBytes(n, EnumWidth(maxValue)) else SizeBytes(n);
             At(b, c.i, s)
    ensures var s := if enc10 then IntBytes(n, EnumWidth(maxValue)) else SizeBytes(n);
            ReadEnum(enc10, b, c, maxValue) == GotInt(n, Advance(c, |s|))
  {
    if !enc10 {
      ReadSizeOf(b, c, n);
    } else if maxValue < 127 {
      assert IntBytes(n, 1) == [n];
      assert b[c.i] == b[c.i..c.i + 1][0];
    } else {
      ReadIntOf(b, c, n, EnumWidth(maxValue));
    }
  }

  // --------------------------------------------------------------- the size check

  /** What the enclosing sequences are known to need ends at most `promised` bytes after the cursor. */
  predicate Tracked(c: Cursor, promised: int) {
    c.startSeq == -1 || (c.startSeq >= 0 && c.minSeqSize >= 0 && c.startSeq + c.minSeqSize <= c.i + promised)
  }

  lemma {:induction false} NoWrap(n: int)
    requires -MAX_INT - 1 <= n <= MAX_INT
    ensures Int32(n) == n
  {
  }

  lemma {:induction false} ClaimPasses(length: nat, c: Cursor, need: nat, promised: nat)
    requires Tracked(c, promised) && c.i + need + promised <= length <= MAX_INT
    ensures var r := Claim(length, c, need);
            r.Some? && r.value.i == c.i && Tracked(r.value, promised + need)
  {
    NoWrap(length);
    NoWrap(c.i);
    NoWrap(need);
    NoWrap(c.i + need);
    if c.startSeq != -1 && c.i <= c.startSeq + c.minSeqSize {
      NoWrap(c.minSeqSize + need);
      NoWrap(c.startSeq + c.minSeqSize + need);
    }
  }

  /** The check lets every sequence pass whose minimum is there, along with the minimum promised around it. */
  lemma {:induction false} CheckPasses(b: seq<byte>, c: Cursor, n: int, minSize: nat, promised: nat)
    requires 0 <= n <= MAX_INT && At(b, c.i, SizeBytes(n)) && |b| <= MAX_INT
    requires Tracked(c, promised + 1)
    requires c.i + |SizeBytes(n)| + n * minSize + promised <= |b|
    ensures var r := ReadAndCheckSeqSize(b, c, minSize);
            r.GotInt? && r.n == n && r.at.i == c.i + |SizeBytes(n)| && Tracked(r.at, promised + n * minSize)
  {
    ReadSizeOf(b, c, n);
    if n > 0 {
      ClaimPasses(|b|, Advance(c, |SizeBytes(n)|), n * minSize, promised);
    }
  }

  /** Where the claimed bytes end: this sequence's after the cursor, or on top of what encloses it. */
  function Claimed(c: Cursor, need: int): int {
    (if c.startSeq == -1 || c.i > c.startSeq + c.minSeqSize then c.i else c.startSeq + c.minSeqSize) + need
  }

  /** The sums are taken modulo 2^32, and the result is compared with the length. */
  lemma {:induction false} ClaimIs(length: nat, c: Cursor, need: int)
    ensures Claim(length, c, need).Some? <==> Int32(Claimed(c, need)) <= Int32(length)
  {
    if c.startSeq == -1 || c.i > c.startSeq + c.minSeqSize {
      WrapOnce(c.i, need);
    } else {
      WrapInner(c.startSeq, c.minSeqSize, need);
    }
  }

  lemma {:induction false} WrapOnce(a: int, b: int)
    ensures Int32(Int32(a) + Int32(b)) == Int32(a + b)
  {
  }

  lemma {:induction false} WrapInner(a: int, b: int, c: int)
    ensures Int32(a + Int32(b + Int32(c))) == Int32(a + b + c)
  {
  }

  lemma {:induction false} ClaimFits(length: nat, c: Cursor, need: nat)
    requires length <= MAX_INT
    ensures var claimed, accepted := Claimed(c, need), Claim(length, c, need).Some?;
            && (accepted <==> Int32(claimed) <= length)
            && (accepted ==> (claimed <= length <==> claimed <= MAX_INT))
            && (claimed <= length ==> c.i + need <= length)
  {
    ClaimIs(length, c, need);
    NoWrap(length);
    if Claimed(c, need) <= MAX_INT {
      NoWrap(Claimed(c, need));
    }
  }

  /**
   What the check does, exactly: it accepts a size if and only if the bytes claimed for it and what encloses it end
   within the buffer when counted modulo 2^32. What it accepts is really there if and only if Int can hold the count.
   */
  lemma {:induction false} AcceptedFits(b: seq<byte>, c: Cursor, minSize: nat)
    requires |b| <= MAX_INT
    requires ReadSize(b, c).GotInt? && ReadSize(b, c).n > 0
    ensures var r := ReadSize(b, c);
            var claimed := Claimed(r.at, r.n * minSize);
            var accepted := ReadAndCheckSeqSize(b, c, minSize).GotInt?;
            && (accepted <==> Int32(claimed) <= |b|)
            && (accepted ==> (claimed <= |b| <==> claimed <= MAX_INT))
            && (claimed <= |b| ==> r.at.i + r.n * minSize <= |b|)
  {
    var r := ReadSize(b, c);
    ClaimFits(|b|, r.at, r.n * minSize);
  }

  lemma {:induction false} LargestSize()
    ensures InRange(MAX_INT, 4) && IntBytes(MAX_INT, 4) == [255, 255, 255, 127]
  {
    IntFits(MAX_INT);
    assert ToBytes(MAX_INT, 4) == [255] + ToBytes(0x7f_ffff, 3);
    assert ToBytes(0x7f_ffff, 3) == [255] + ToBytes(0x7fff, 2);
    assert ToBytes(0x7fff, 2) == [255] + ToBytes(0x7f, 1);
  }

  const FiveBytes: seq<byte> := [255, 255, 255, 255, 127]

  lemma {:induction false} FiveBytesRead()
    ensures ReadSize(FiveBytes, Cursor(0, -1, 0)) == GotInt(MAX_INT, Cursor(5, -1, 0))
  {
    LargestSize();
    assert FiveBytes[1..5] == [255, 255, 255, 127];
    ReadIntOf(FiveBytes, Cursor(1, -1, 0), MAX_INT, 4);
  }

  /** Five bytes that the check accepts as a sequence of 2^31 - 1 elements of at least one byte each. */
  lemma {:induction false} AcceptedButAbsent()
    ensures var r := ReadAndCheckSeqSize(FiveBytes, Cursor(0, -1, 0), 1);
            r.GotInt? && r.n == MAX_INT && r.at.i == |FiveBytes|
  {
    FiveBytesRead();
  }

  /** With two bytes each they are accepted as well, and leave a negative promise to whatever is read next. */
  lemma {:induction false} AcceptedForLessThanNothing()
    ensures var r := ReadAndCheckSeqSize(FiveBytes, Cursor(0, -1, 0), 2);
            r.GotInt? && r.n == MAX_INT && r.at.minSeqSize == -2
  {
    FiveBytesRead();
  }

  // --------------------------------------------------------------- the round trip

  /** The read gave this value, stopped there, and left that promise. */
  ghost predicate Reads(r: Read, v: Value, i: nat, promised: nat) {
    r.Got? && r.value == v && r.at.i == i && Tracked(r.at, promised)
  }

  ghost predicate Plain(t: Type) {
    t.TBool? || t.TByte? || t.TInt? || t.TFloat? || t.TString? || t.TEnum?
  }

  lemma {:induction false} BlobReads(b: seq<byte>, c: Cursor, s: seq<byte>)
    requires |s| <= MAX_INT && At(b, c.i, SizeBytes(|s|) + s)
    ensures var r := ReadSize(b, c);
            && r.GotInt? && r.n == |s|
            && ReadBytes(b, r.at, r.n) == Got(VBytes(s), Advance(c, |SizeBytes(|s|) + s|))
  {
    AtSplit(b, c.i, SizeBytes(|s|), s);
    ReadSizeOf(b, c, |s|);
  }

  lemma {:induction false} StringDecodes(enc10: bool, v: Value, b: seq<byte>, c: Cursor)
    requires Fits(TString, v) && At(b, c.i, Enc(enc10, TString, v))
    ensures Dec(enc10, TString, b, c) == Got(v, Advance(c, |Enc(enc10, TString, v)|))
  {
    BlobReads(b, c, v.bytes);
  }

  lemma {:induction false} EnumDecodes(enc10: bool, lo: int, hi: int, v: Value, b: seq<byte>, c: Cursor)
    requires WellFormed(TEnum(lo, hi)) && Fits(TEnum(lo, hi), v) && At(b, c.i, Enc(enc10, TEnum(lo, hi), v))
    ensures Dec(enc10, TEnum(lo, hi), b, c) == Got(v, Advance(c, |Enc(enc10, TEnum(lo, hi), v)|))
  {
    EnumFits(v.n, hi);
    ReadEnumOf(enc10, b, c, v.n, hi);
  }

  lemma {:induction false} FixedDecodes(enc10: bool, t: Type, v: Value, b: seq<byte>, c: Cursor)
    requires t.TBool? || t.TByte? || t.TInt? || t.TFloat?
    requires WellFormed(t) && Fits(t, v) && At(b, c.i, Enc(enc10, t, v))
    ensures Dec(enc10, t, b, c) == Got(v, Advance(c, |Enc(enc10, t, v)|))
  {
    if t.TInt? {
      ReadIntOf(b, c, v.n, t.width);
    } else if t.TBool? || t.TByte? {
      assert b[c.i] == b[c.i..c.i + 1][0];
    }
  }

  lemma {:induction false} PlainDecodes(enc10: bool, t: Type, v: Value, b: seq<byte>, c: Cursor)
    requires Plain(t) && WellFormed(t) && Fits(t, v) && At(b, c.i, Enc(enc10, t, v))
    ensures Dec(enc10, t, b, c) == Got(v, Advance(c, |Enc(enc10, t, v)|))
  {
    match t
    case TString => StringDecodes(enc10, v, b, c);
    case TEnum(lo, hi) => EnumDecodes(enc10, lo, hi, v, b, c);
    case _ => FixedDecodes(enc10, t, v, b, c);
  }

  lemma {:induction false} DecOfEnc(enc10: bool, t: Type, v: Value, b: seq<byte>, c: Cursor, promised: nat)
    requires WellFormed(t) && Fits(t, v) && At(b, c.i, Enc(enc10, t, v)) && |b| <= MAX_INT
    requires Tracked(c, promised + MinWireSize(t)) && c.i + |Enc(enc10, t, v)| + promised <= |b|
    ensures Reads(Dec(enc10, t, b, c), v, c.i + |Enc(enc10, t, v)|, promised)
    decreases t, 0
  {
    if t.TSeq? {
      SequenceOpens(enc10, t.elem, v.elems, b, c, promised);
      assert v.elems[0..] == v.elems;
      ElemsDecode(enc10, t.elem, v.elems, 0, b, ReadAndCheckSeqSize(b, c, MinWireSize(t.elem)).at, promised);
    } else if t.TDict? {
      DictionaryOpens(enc10, t.entry, v.elems, b, c, promised);
      EntriesDecode(enc10, t.entry, v.elems, 0, b, ReadSize(b, c).at, promised);
    } else if t.TStruct? {
      MembersDecode(enc10, t.members, v.elems, b, c, promised);
    } else {
      PlainDecodes(enc10, t, v, b, c);
      MinWireSizeSound(enc10, t, v);
    }
  }

  lemma {:induction false} DictionaryOpens(enc10: bool, e: Type, vs: seq<Value>, b: seq<byte>, c: Cursor, promised: nat)
    requires WellFormed(e) && |vs| <= MAX_INT && (forall x <- vs :: Fits(e, x))
    requires At(b, c.i, SizeBytes(|vs|) + EncElems(enc10, e, vs)) && Tracked(c, promised + 1)
    ensures var r := ReadSize(b, c);
            r.GotInt? && r.n == |vs| && r.at.i == c.i + |SizeBytes(|vs|)| && Tracked(r.at, promised) &&
            vs[0..] == vs && vs[..0] == [] && At(b, r.at.i, EncElems(enc10, e, vs))
  {
    AtSplit(b, c.i, SizeBytes(|vs|), EncElems(enc10, e, vs));
    ReadSizeOf(b, c, |vs|);
  }

  lemma {:induction false} SequenceOpens(enc10: bool, e: Type, vs: seq<Value>, b: seq<byte>, c: Cursor, promised: nat)
    requires WellFormed(e) && |vs| <= MAX_INT && (forall x <- vs :: Fits(e, x)) && |b| <= MAX_INT
    requires At(b, c.i, SizeBytes(|vs|) + EncElems(enc10, e, vs)) && Tracked(c, promised + 1)
    requires c.i + |SizeBytes(|vs|)| + |EncElems(enc10, e, vs)| + promised <= |b|
    ensures var r := ReadAndCheckSeqSize(b, c, MinWireSize(e));
            r.GotInt? && r.n == |vs| && r.at.i == c.i + |SizeBytes(|vs|)| &&
            Tracked(r.at, promised + MinElems(e, |vs|)) && At(b, r.at.i, EncElems(enc10, e, vs))
  {
    AtSplit(b, c.i, SizeBytes(|vs|), EncElems(enc10, e, vs));
    ElemsSizes(enc10, e, vs);
    MinElemsIsProduct(e, |vs|);
    CheckPasses(b, c, |vs|, MinWireSize(e), promised);
  }

  lemma {:induction false} ElemsDecode(enc10: bool, e: Type, vs: seq<Value>, k: nat, b: seq<byte>, c: Cursor,
    promised: nat)
    requires WellFormed(e) && k <= |vs| && (forall x <- vs :: Fits(e, x))
    requires At(b, c.i, EncElems(enc10, e, vs[k..])) && |b| <= MAX_INT
    requires Tracked(c, promised + MinElems(e, |vs| - k)) && c.i + |EncElems(enc10, e, vs[k..])| + promised <= |b|
    ensures Reads(DecElems(enc10, e, |vs| - k, b, c), VSeq(vs[k..]), c.i + |EncElems(enc10, e, vs[k..])|, promised)
    decreases e, 1 + |vs| - k
  {
    if k == |vs| {
      assert vs[k..] == [];
    } else {
      var next := ElemDecodes(enc10, e, vs, k, b, c, promised);
      ElemsDecode(enc10, e, vs, k + 1, b, next, promised);
      ElemThenRest(enc10, e, vs, k, b, c, next, next.i + |EncElems(enc10, e, vs[k + 1..])|, promised);
    }
  }

  lemma {:induction false} ElemDecodes(enc10: bool, e: Type, vs: seq<Value>, k: nat, b: seq<byte>, c: Cursor,
    promised: nat) returns (next: Cursor)
    requires WellFormed(e) && k < |vs| && (forall x <- vs :: Fits(e, x)) && Fits(e, vs[k])
    requires At(b, c.i, EncElems(enc10, e, vs[k..])) && |b| <= MAX_INT
    requires Tracked(c, promised + MinElems(e, |vs| - k)) && c.i + |EncElems(enc10, e, vs[k..])| + promised <= |b|
    ensures Dec(enc10, e, b, c) == Got(vs[k], next) && Tracked(next, promised + MinElems(e, |vs| - (k + 1)))
    ensures var rest := EncElems(enc10, e, vs[k + 1..]);
            At(b, next.i, rest) && c.i + |EncElems(enc10, e, vs[k..])| == next.i + |rest|
    decreases e, 1
  {
    ElemAt(enc10, e, vs, k, b, c.i);
    FirstElemReady(e, |vs| - k, b, c, |Enc(enc10, e, vs[k])|, |EncElems(enc10, e, vs[k + 1..])|, promised);
    DecOfEnc(enc10, e, vs[k], b, c, promised + MinElems(e, |vs| - k - 1));
    next := Dec(enc10, e, b, c).at;
  }

  /** Where n elements are promised, one is, with the rest promised behind it. */
  lemma {:induction false} FirstElemReady(e: Type, n: nat, b: seq<byte>, c: Cursor, first: nat, rest: nat, promised: nat)
    requires n > 0 && Tracked(c, promised + MinElems(e, n)) && c.i + first + rest + promised <= |b|
    requires rest >= MinElems(e, n - 1)
    ensures var more := promised + MinElems(e, n - 1);
            Tracked(c, more + MinWireSize(e)) && c.i + first + more <= |b|
  {
  }

  lemma {:induction false} ElemThenRest(enc10: bool, e: Type, vs: seq<Value>, k: nat, b: seq<byte>, c: Cursor,
    next: Cursor, end: nat, promised: nat)
    requires WellFormed(e) && k < |vs| && Dec(enc10, e, b, c) == Got(vs[k], next)
    requires Reads(DecElems(enc10, e, |vs| - (k + 1), b, next), VSeq(vs[k + 1..]), end, promised)
    ensures Reads(DecElems(enc10, e, |vs| - k, b, c), VSeq(vs[k..]), end, promised)
  {
    assert [vs[k]] + vs[k + 1..] == vs[k..];
  }

  lemma {:induction false} ElemAt(enc10: bool, e: Type, vs: seq<Value>, k: nat, b: seq<byte>, i: nat)
    requires WellFormed(e) && k < |vs| && (forall x <- vs :: Fits(e, x)) && Fits(e, vs[k])
    requires At(b, i, EncElems(enc10, e, vs[k..]))
    ensures var first, rest := Enc(enc10, e, vs[k]), EncElems(enc10, e, vs[k + 1..]);
            && At(b, i, first) && At(b, i + |first|, rest) && |EncElems(enc10, e, vs[k..])| == |first| + |rest|
            && |rest| >= MinElems(e, |vs| - k - 1)
  {
    assert vs[k..][0] == vs[k] && vs[k..][1..] == vs[k + 1..];
    AtSplit(b, i, Enc(enc10, e, vs[k]), EncElems(enc10, e, vs[k + 1..]));
    ElemsSizes(enc10, e, vs[k + 1..]);
  }

  lemma {:induction false} MembersDecode(enc10: bool, ms: seq<Type>, vs: seq<Value>, b: seq<byte>, c: Cursor,
    promised: nat)
    requires |ms| == |vs| && (forall m <- ms :: WellFormed(m)) && forall k | 0 <= k < |ms| :: Fits(ms[k], vs[k])
    requires At(b, c.i, EncMembers(enc10, ms, vs)) && |b| <= MAX_INT
    requires Tracked(c, promised + MinWireSizes(ms)) && c.i + |EncMembers(enc10, ms, vs)| + promised <= |b|
    ensures Reads(DecMembers(enc10, ms, b, c), VSeq(vs), c.i + |EncMembers(enc10, ms, vs)|, promised)
    decreases ms, 0
  {
    if ms != [] {
      AtSplit(b, c.i, Enc(enc10, ms[0], vs[0]), EncMembers(enc10, ms[1..], vs[1..]));
      MembersSizes(enc10, ms[1..], vs[1..]);
      DecOfEnc(enc10, ms[0], vs[0], b, c, promised + MinWireSizes(ms[1..]));
      var next := Dec(enc10, ms[0], b, c).at;
      MembersDecode(enc10, ms[1..], vs[1..], b, next, promised);
    }
  }

  /** Inserting an entry whose key is above all others appends it. */
  lemma {:induction false} InsertLast(entries: seq<Value>, entry: Value)
    requires IsEntry(entry) && AllEntries(entries)
    requires forall k | 0 <= k < |entries| :: KeyLess(KeyOf(entries[k]), KeyOf(entry))
    ensures Insert(entries, entry) == entries + [entry]
  {
    if entries == [] {
      assert [entry] + entries == entries + [entry];
    } else {
      Asymmetric(KeyOf(entries[0]), KeyOf(entry));
      InsertLast(entries[1..], entry);
    }
  }

  lemma {:induction false} EntryAt(enc10: bool, e: Type, vs: seq<Value>, k: nat, b: seq<byte>, i: nat)
    requires WellFormed(e) && e.TStruct? && k < |vs| && (forall x <- vs :: Fits(e, x)) && Fits(e, vs[k])
    requires At(b, i, EncElems(enc10, e, vs[k..]))
    ensures var s, rest := EncMembers(enc10, e.members, vs[k].elems), EncElems(enc10, e, vs[k + 1..]);
            At(b, i, s) && At(b, i + |s|, rest) && |EncElems(enc10, e, vs[k..])| == |s| + |rest|
  {
    assert vs[k..][0] == vs[k] && vs[k..][1..] == vs[k + 1..];
    AtSplit(b, i, Enc(enc10, e, vs[k]), EncElems(enc10, e, vs[k + 1..]));
  }

  lemma {:induction false} EntryAppended(vs: seq<Value>, k: nat)
    requires k < |vs| && AllEntries(vs) && Sorted(vs)
    ensures Insert(vs[..k], vs[k]) == vs[..k + 1]
  {
    InsertLast(vs[..k], vs[k]);
    assert vs[..k] + [vs[k]] == vs[..k + 1];
  }

  lemma {:induction false} EntryThenRest(enc10: bool, e: Type, vs: seq<Value>, k: nat, b: seq<byte>, c: Cursor,
    next: Cursor)
    requires WellFormed(e) && e.TStruct? && |e.members| == 2 && k < |vs| && AllEntries(vs) && Sorted(vs)
    requires DecMembers(enc10, e.members, b, c) == Got(vs[k], next)
    ensures DecEntries(enc10, e, |vs| - k, b, c, vs[..k]) == DecEntries(enc10, e, |vs| - k - 1, b, next, vs[..k + 1])
  {
    EntryAppended(vs, k);
  }

  lemma {:induction false} EntriesDecode(enc10: bool, e: Type, vs: seq<Value>, k: nat, b: seq<byte>, c: Cursor,
    promised: nat)
    requires WellFormed(e) && e.TStruct? && |e.members| == 2 && k <= |vs|
    requires (forall x <- vs :: Fits(e, x)) && AllEntries(vs) && Sorted(vs)
    requires At(b, c.i, EncElems(enc10, e, vs[k..])) && |b| <= MAX_INT
    requires Tracked(c, promised) && c.i + |EncElems(enc10, e, vs[k..])| + promised <= |b|
    ensures Reads(DecEntries(enc10, e, |vs| - k, b, c, vs[..k]), VSeq(vs), c.i + |EncElems(enc10, e, vs[k..])|, promised)
    decreases e, 1 + |vs| - k
  {
    if k == |vs| {
      assert vs[..k] == vs;
    } else {
      EntryAt(enc10, e, vs, k, b, c.i);
      MembersDecode(enc10, e.members, vs[k].elems, b, c, promised);
      var next := DecMembers(enc10, e.members, b, c).at;
      EntriesDecode(enc10, e, vs, k + 1, b, next, promised);
      EntryThenRest(enc10, e, vs, k, b, c, next);
    }
  }

  /**
   Every value of every type, in either encoding, followed by any bytes, is read back and the reader stops at those
   bytes; the size check, in the state any earlier reads of whole values left it, refuses none of its sequences.
   */
  lemma {:induction false} TypedRoundTrip(enc10: bool, t: Type, v: Value, before: seq<byte>, after: seq<byte>, c: Cursor)
    requires WellFormed(t) && Fits(t, v) && |before + Enc(enc10, t, v) + after| <= MAX_INT
    requires c.i == |before| && Tracked(c, 0)
    ensures var r := Dec(enc10, t, before + Enc(enc10, t, v) + after, c);
            r.Got? && r.value == v && r.at.i == |before + Enc(enc10, t, v)| && Tracked(r.at, 0)
  {
    var s := Enc(enc10, t, v);
    assert (before + s + after)[|before|..|before| + |s|] == s;
    DecOfEnc(enc10, t, v, before + s + after, c, 0);
  }

  lemma {:induction false} DecodesAtStart(enc10: bool, t: Type, v: Value, b: seq<byte>, x: seq<byte>)
    requires WellFormed(t) && Fits(t, v) && b == Enc(enc10, t, v) + x && |b| <= MAX_INT
    ensures Reads(Dec(enc10, t, b, Cursor(0, -1, 0)), v, |Enc(enc10, t, v)|, 0) && x == b[|Enc(enc10, t, v)|..]
  {
    assert b[0..0 + |Enc(enc10, t, v)|] == Enc(enc10, t, v);
    DecOfEnc(enc10, t, v, b, Cursor(0, -1, 0), 0);
  }

  /** No encoding is a prefix of another, and no two values share one: the bytes of a value tell where it ends. */
  lemma {:induction false} UniquelyDecodable(enc10: bool, t: Type, v: Value, v': Value, x: seq<byte>, x': seq<byte>)
    requires WellFormed(t) && Fits(t, v) && Fits(t, v') && |Enc(enc10, t, v) + x| <= MAX_INT
    requires Enc(enc10, t, v) + x == Enc(enc10, t, v') + x'
    ensures v == v' && x == x'
  {
    DecodesAtStart(enc10, t, v, Enc(enc10, t, v) + x, x);
    DecodesAtStart(enc10, t, v', Enc(enc10, t, v) + x, x');
  }
}

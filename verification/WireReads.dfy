/** Which bytes are read as which value: exactly those that spell it, and a reader takes no other. */
module WireReads {
  import opened Prelude
  import opened Wire
  import opened WireProofs
  import opened WireInputs
  import opened WireBytes

  // --------------------------------------------------------------- numbers

  lemma {:induction false} ToFromBytes(s: seq<byte>)
    ensures ToBytes(FromBytes(s), |s|) == s
  {
    if s != [] {
      ToFromBytes(s[1..]);
      assert FromBytes(s) % 256 == s[0] && FromBytes(s) / 256 == FromBytes(s[1..]);
      assert s == [s[0]] + s[1..];
    }
  }

  /** The k bytes at the cursor. */
  function Ahead(b: seq<byte>, c: Cursor, k: nat): seq<byte>
    requires c.i + k <= |b|
  {
    b[c.i..c.i + k]
  }

  /** A number of w bytes is read iff they are there, and then it is the one they are the two's complement of. */
  lemma {:induction false} IntReads(b: seq<byte>, c: Cursor, w: nat)
    ensures ReadInt(b, c, w).GotInt? <==> c.i + w <= |b|
    ensures c.i + w <= |b| ==>
              var r := ReadInt(b, c, w);
              InRange(r.n, w) && Ahead(b, c, w) == IntBytes(r.n, w) && r.at == Advance(c, w)
  {
    if c.i + w <= |b| {
      IntFitsItsWidth(b, c, w);
      FromBytesBelow(Ahead(b, c, w));
      ToFromBytes(Ahead(b, c, w));
      var u := FromBytes(Ahead(b, c, w));
      assert ReadInt(b, c, w).n == if 2 * u < Pow256(w) then u else u - Pow256(w);
    }
  }

  lemma {:induction false} IntReadsAs(b: seq<byte>, c: Cursor, w: nat, n: int)
    requires InRange(n, w)
    ensures ReadInt(b, c, w) == GotInt(n, Advance(c, w)) <==> At(b, c.i, IntBytes(n, w))
  {
    IntReads(b, c, w);
    if At(b, c.i, IntBytes(n, w)) {
      ReadIntOf(b, c, n, w);
    }
  }

  /** Int arithmetic keeps 32 bits, and numbers of 32 bits. */
  lemma {:induction false} Int32Is(n: int)
    ensures -0x8000_0000 <= Int32(n) < 0x8000_0000
    ensures Int32(n) % 0x1_0000_0000 == n % 0x1_0000_0000
    ensures -0x8000_0000 <= n < 0x8000_0000 ==> Int32(n) == n
  {
  }

  // --------------------------------------------------------------- sizes

  /** A size may be spelled in one byte if it is below 255, and in any case in five. */
  predicate SizeIn(s: seq<byte>, n: int) {
    && 0 <= n <= MAX_INT
    && ((n < 255 && s == [n]) || s == [255] + Four(n))
  }

  lemma {:induction false} FourReadsAs(b: seq<byte>, c: Cursor, n: int)
    requires 0 <= n <= MAX_INT
    ensures ReadInt(b, c, 4) == GotInt(n, Advance(c, 4)) <==> At(b, c.i, Four(n))
  {
    FourIs(n);
    IntReadsAs(b, c, 4, n);
  }

  lemma {:induction false} FiveAhead(b: seq<byte>, c: Cursor, s: seq<byte>)
    requires |s| == 4
    ensures c.i + 5 <= |b| && Ahead(b, c, 5) == [255] + s <==> c.i < |b| && b[c.i] == 255 && At(b, c.i + 1, s)
  {
    if c.i + 5 <= |b| {
      assert b[c.i..c.i + 5] == [b[c.i]] + b[c.i + 1..c.i + 5];
      if b[c.i..c.i + 5] == [255] + s {
        assert (b[c.i..c.i + 5])[1..] == s;
        assert (b[c.i..c.i + 5])[0] == 255;
      }
    }
  }

  /** A size is read iff one of its spellings is there; all others, a negative one among them, are refused. */
  lemma {:induction false} SizeReads(b: seq<byte>, c: Cursor, n: int, k: nat)
    ensures ReadSize(b, c) == GotInt(n, Advance(c, k)) <==> c.i + k <= |b| && SizeIn(Ahead(b, c, k), n)
    ensures ReadSize(b, c).GotInt? ==> exists j :: ReadSize(b, c).at == Advance(c, j)
  {
    if c.i < |b| {
      if b[c.i] == 255 {
        LongSizeReads(b, c, n, k);
      } else {
        assert c.i + k <= |b| && k > 0 ==> Ahead(b, c, k)[0] == b[c.i];
        assert ReadSize(b, c).at == Advance(c, 1);
      }
    }
  }

  lemma {:induction false} LongSizeReads(b: seq<byte>, c: Cursor, n: int, k: nat)
    requires c.i < |b| && b[c.i] == 255
    ensures ReadSize(b, c) == GotInt(n, Advance(c, k)) <==> c.i + k <= |b| && SizeIn(Ahead(b, c, k), n)
    ensures ReadSize(b, c).GotInt? ==> ReadSize(b, c).at == Advance(c, 5)
  {
    IntReads(b, Advance(c, 1), 4);
    if c.i + 5 <= |b| {
      IntRange(ReadInt(b, Advance(c, 1), 4).n);
    }
    if 0 <= n <= MAX_INT {
      FourReadsAs(b, Advance(c, 1), n);
      FiveAhead(b, c, Four(n));
    }
    assert c.i + k <= |b| && k > 0 ==> Ahead(b, c, k)[0] == 255;
  }

  /** What an accepted sequence claims is on record for the next check: where it ends, modulo 2^32. */
  lemma {:induction false} ClaimLeaves(b: seq<byte>, c: Cursor, minSize: nat)
    requires ReadSize(b, c).GotInt? && ReadAndCheckSeqSize(b, c, minSize).GotInt?
    ensures var r, at := ReadSize(b, c), ReadAndCheckSeqSize(b, c, minSize).at;
            && at.i == r.at.i
            && (r.n == 0 ==> at == r.at)
            && (r.n > 0 ==> Int32(at.startSeq + at.minSeqSize) == Int32(Claimed(r.at, r.n * minSize)))
  {
    var r := ReadSize(b, c);
    if r.n > 0 {
      if r.at.startSeq == -1 || r.at.i > r.at.startSeq + r.at.minSeqSize {
        WrapOnce(r.at.i, r.n * minSize);
      } else {
        WrapInner(r.at.startSeq, r.at.minSeqSize, r.n * minSize);
      }
    }
  }

  // --------------------------------------------------------------- values without elements

  /** The bytes that spell a value: any byte but 0 is true, and a size may take five bytes where one would do. */
  predicate Spells(enc10: bool, t: Type, v: Value, s: seq<byte>)
    requires WellFormed(t) && Plain(t)
  {
    match t
    case TBool => |s| == 1 && v == VBool(s[0] != 0)
    case TByte => |s| == 1 && v == VInt(s[0])
    case TInt(w) => v.VInt? && InRange(v.n, w) && s == IntBytes(v.n, w)
    case TFloat(w) => |s| == w && v == VBytes(s)
    case TString =>
      v.VBytes? && |v.bytes| <= |s| &&
      s[|s| - |v.bytes|..] == v.bytes && SizeIn(s[..|s| - |v.bytes|], |v.bytes|)
    case TEnum(lo, hi) =>
      v.VInt? && lo <= v.n <= hi && if enc10 then s == EnumSpelled(true, v.n, hi) else SizeIn(s, v.n)
    case _ => false
  }

  lemma {:induction false} StringRead(b: seq<byte>, c: Cursor, v: Value, k: nat)
    requires Dec(false, TString, b, c) == Got(v, Advance(c, k))
    ensures c.i + k <= |b| && Spells(false, TString, v, Ahead(b, c, k))
  {
    var r := ReadSize(b, c);
    SizeReads(b, c, r.n, r.at.i - c.i);
    var s := Ahead(b, c, k);
    assert s[..k - |v.bytes|] == Ahead(b, c, r.at.i - c.i);
    assert s[k - |v.bytes|..] == v.bytes;
  }

  lemma {:induction false} StringSpelled(b: seq<byte>, c: Cursor, v: Value, k: nat)
    requires c.i + k <= |b| && Spells(false, TString, v, Ahead(b, c, k))
    ensures Dec(false, TString, b, c) == Got(v, Advance(c, k))
  {
    var s, j := Ahead(b, c, k), k - |v.bytes|;
    SizeReads(b, c, |v.bytes|, j);
    assert s[..j] == Ahead(b, c, j);
    assert s[j..] == b[c.i + j..c.i + k];
  }

  lemma {:induction false} StringReads(b: seq<byte>, c: Cursor, v: Value, k: nat)
    ensures Dec(false, TString, b, c) == Got(v, Advance(c, k)) <==> c.i + k <= |b| && Spells(false, TString, v, Ahead(b, c, k))
  {
    if Dec(false, TString, b, c) == Got(v, Advance(c, k)) {
      StringRead(b, c, v, k);
    } else if c.i + k <= |b| && Spells(false, TString, v, Ahead(b, c, k)) {
      StringSpelled(b, c, v, k);
    }
  }

  lemma {:induction false} EnumReads(enc10: bool, lo: int, hi: int, b: seq<byte>, c: Cursor, v: Value, k: nat)
    requires WellFormed(TEnum(lo, hi))
    ensures Dec(enc10, TEnum(lo, hi), b, c) == Got(v, Advance(c, k)) <==>
            c.i + k <= |b| && Spells(enc10, TEnum(lo, hi), v, Ahead(b, c, k))
  {
    if v.VInt? && lo <= v.n <= hi {
      if enc10 {
        EnumReads10(lo, hi, b, c, v, k);
      } else {
        SizeReads(b, c, v.n, k);
      }
    }
  }

  lemma {:induction false} EnumReads10(lo: int, hi: int, b: seq<byte>, c: Cursor, v: Value, k: nat)
    requires WellFormed(TEnum(lo, hi)) && Fits(TEnum(lo, hi), v)
    ensures ReadEnum(true, b, c, hi) == GotInt(v.n, Advance(c, k)) <==>
            c.i + k <= |b| && Ahead(b, c, k) == EnumSpelled(true, v.n, hi)
  {
    EnumIs(true, lo, hi, v);
    EnumFits(v.n, hi);
    if hi < 127 {
      assert c.i + 1 <= |b| ==> Ahead(b, c, 1) == [b[c.i]];
    } else {
      IntReadsAs(b, c, EnumWidth(hi), v.n);
    }
  }

  /** A value without elements is read, and its k bytes with it, iff they spell it. */
  lemma {:induction false} ReadIffSpelled(enc10: bool, t: Type, b: seq<byte>, c: Cursor, v: Value, k: nat)
    requires WellFormed(t) && Plain(t)
    ensures Dec(enc10, t, b, c) == Got(v, Advance(c, k)) <==> c.i + k <= |b| && Spells(enc10, t, v, Ahead(b, c, k))
  {
    match t
    case TInt(w) =>
      IntReads(b, c, w);
      if v.VInt? && InRange(v.n, w) {
        IntReadsAs(b, c, w, v.n);
      }
    case TString => StringReads(b, c, v, k);
    case TEnum(lo, hi) => EnumReads(enc10, lo, hi, b, c, v, k);
    case _ =>
  }
}

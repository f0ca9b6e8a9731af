/** Optional members and encapsulations in plain bytes: header, prefix and marker as numbers, and what a reader refuses. */
module OptionalBytes {
  import opened Prelude
  import opened Wire
  import opened WireProofs
  import opened WireInputs
  import opened WireBytes
  import opened Optionals
  import opened Encaps

  // --------------------------------------------------------------- a tagged member

  /** The low three bits of a member's first byte, by the kind of its type. */
  function KindCode(t: Type): byte {
    match t
    case TBool => 0
    case TByte => 0
    case TInt(w) => if w == 2 then 1 else if w == 4 then 2 else 3
    case TFloat(w) => if w == 4 then 2 else 3
    case TEnum(_, _) => 4
    case TString => 5
    case TStruct(_) => if Flat(t) then 5 else 6
    case TSeq(e) => if Flat(e) then 5 else 6
    case TDict(e) => if Flat(e) then 5 else 6
  }

  /** What stands between the header and the value, n bytes long. */
  function PrefixSpelled(t: Type, n: nat): seq<byte> {
    match t
    case TStruct(_) => if Flat(t) then SizeSpelled(n) else Four(n)
    case TSeq(e) => if !Flat(e) then Four(n) else if LeastBytes(Leaves(e)) == 1 then [] else SizeSpelled(n)
    case TDict(e) => if !Flat(e) then Four(n) else if LeastBytes(Leaves(e)) == 1 then [] else SizeSpelled(n)
    case _ => []
  }

  /** Tag and kind: in one byte below 30, else a byte that says 30 and the tag as a size. */
  function HeaderSpelled(tag: nat, code: byte): seq<int> {
    if tag < 30 then [8 * tag + code] else [240 + code] + SizeSpelled(tag)
  }

  lemma {:induction false} CodeIs(t: Type)
    requires WellFormed(t)
    ensures Code(FormatOf(t)) == KindCode(t)
  {
    match t
    case TStruct(_) => TraitsAre(t);
    case TSeq(e) => TraitsAre(e);
    case TDict(e) => TraitsAre(e);
    case _ =>
  }

  lemma {:induction false} PayloadIs(t: Type, v: Value)
    requires FitsOptional(false, t, v)
    ensures Payload(false, t, v) == PrefixSpelled(t, |Enc(false, t, v)|) + Enc(false, t, v)
  {
    var n := |Enc(false, t, v)|;
    if t.TStruct? {
      TraitsAre(t);
    } else if t.TSeq? || t.TDict? {
      TraitsAre(Element(t));
    }
    FourIs(n);
    if Prefixed(t) && FormatOf(t).VSize? {
      PrefixExact(false, t, v);
      SizeIs(n);
    }
    assert [] + Enc(false, t, v) == Enc(false, t, v);
  }

  /** What every optional member is written as in encoding 1.1. */
  lemma {:induction false} MemberSpelled(m: Member)
    requires Writable(m)
    ensures var value := Enc(false, m.t, m.v);
            MemberBytes(m) == HeaderSpelled(m.tag, KindCode(m.t)) + (PrefixSpelled(m.t, |value|) + value)
  {
    CodeIs(m.t);
    PayloadIs(m.t, m.v);
    if m.tag >= 30 {
      SizeIs(m.tag);
    }
  }

  /** The byte 255 ends the members: it is no header, a search stops before it, and skipping all goes past it. */
  lemma {:induction false} MarkerEnds(b: seq<byte>, c: Cursor, end: nat, tag: int, f: Format, x: nat, code: byte)
    requires c.i < end && c.i < |b| && b[c.i] == 255
    ensures ReadOpt(tag, f, b, c, end) == Missing(c) && SkipOpts(b, c, end) == Some(Advance(c, 1))
    ensures code < 8 ==> HeaderSpelled(x, code)[0] != 255
  {
  }

  /** A member with the wanted tag and another format is refused. */
  lemma {:induction false} OtherFormatRefused(b: seq<byte>, c: Cursor, end: nat, tag: nat, code: byte, expected: Format)
    requires c.i < end && c.i < |b| && tag < 30 && code < 8 && b[c.i] == 8 * tag + code && Code(expected) != code
    ensures ReadOpt(tag, expected, b, c, end) == Bad
  {
    assert b[c.i] / 8 == tag && b[c.i] % 8 == code;
  }

  // --------------------------------------------------------------- encapsulations

  /** Four bytes that count themselves, the encoding's version, and the contents. */
  lemma {:induction false} EncapsulationSpelled(inner: seq<byte>, enc10: bool)
    requires |inner| + 6 <= MAX_INT
    ensures Wrapped(inner, enc10) == Four(6 + |inner|) + [1, if enc10 then 0 else 1] + inner
  {
    NoWrap(6 + |inner|);
    FourIs(6 + |inner|);
  }

  /** An encapsulation is entered exactly if its size is at least 6 and in the buffer, and its encoding is 1.0 or 1.1. */
  lemma {:induction false} EntersIff(b: seq<byte>, r: Reader)
    ensures StartRead(b, r).Some? <==>
              var size := ReadInt(b, r.c, 4);
              && size.GotInt? && 6 <= size.n && r.c.i + size.n <= |b|
              && b[r.c.i + 4] == 1 && b[r.c.i + 5] <= 1
  {
  }

  /** Raw bytes are written as they are, unless they are fewer than the six of an empty encapsulation. */
  lemma {:induction false} RawIff(w: Writer, v: seq<byte>)
    ensures if |v| < 6 then WriteRaw(w, v) == None else WriteRaw(w, v) == Some(w.(b := w.b + v))
  {
  }

  /** In encoding 1.0 no optional member is ever found, and asking reads nothing, whatever the bytes. */
  lemma {:induction false} NoneIn10(asks: seq<Request>, b: seq<byte>, r: Reader)
    requires r.stack != [] && (forall a <- asks :: WellFormed(a.t)) && r.stack[|r.stack| - 1].enc10
    ensures var x := ReadOpts(asks, b, r);
            x.GotMembers? && x.at == r.c && |x.values| == |asks| && forall v <- x.values :: v == Absent
    ensures forall ms | AllWritable(ms) :: OptsBytes(true, ms) == []
  {
  }

  // --------------------------------------------------------------- what reading refuses

  /** A number is refused exactly if its bytes are not there; a size also if it is negative. */
  lemma {:induction false} RefusedIff(b: seq<byte>, c: Cursor, w: nat)
    ensures ReadInt(b, c, w).IntThrown? <==> c.i + w > |b|
    ensures ReadSize(b, c).IntThrown? <==>
              c.i >= |b| || (b[c.i] == 255 && (c.i + 5 > |b| || b[c.i + 4] >= 128))
  {
    if c.i < |b| && b[c.i] == 255 && c.i + 5 <= |b| {
      SignOf(b[c.i + 1..c.i + 5]);
      FromBytesBelow(b[c.i + 1..c.i + 5]);
      assert b[c.i + 1..c.i + 5][3] == b[c.i + 4];
    }
  }

  /** The highest bit of the last byte is the sign. */
  lemma {:induction false} SignOf(s: seq<byte>)
    requires |s| == 4
    ensures 2 * FromBytes(s) < Pow256(4) <==> s[3] < 128
  {
    assert FromBytes(s) == s[0] + 256 * (s[1] + 256 * (s[2] + 256 * (s[3] + 256 * FromBytes(s[4..])))) by {
      assert s[1..][1..] == s[2..] && s[2..][1..] == s[3..] && s[3..][1..] == s[4..];
      assert FromBytes(s[1..]) == s[1] + 256 * FromBytes(s[2..]);
      assert FromBytes(s[2..]) == s[2] + 256 * FromBytes(s[3..]);
      assert FromBytes(s[3..]) == s[3] + 256 * FromBytes(s[4..]);
    }
    assert Pow256(4) == 256 * (256 * (256 * (256 * Pow256(0))));
  }
}

/**
 The stream as the class it is: `b` grows at its end and is patched in place, `i` moves over it, and the stacks hold the
 encapsulations being written and read. Every method is proved against the encoding of Wire, Optionals and Encaps; a
 thrown exception is the out-parameter `thrown`.
 */
module StreamClass {
  import opened Prelude
  import opened Wire
  import opened WireProofs
  import opened Optionals
  import opened OptionalsProofs
  import opened Encaps
  import opened OutputOptionals

  /** A read that goes on after some elements were read. */
  function Continue(acc: seq<Value>, r: Wire.Read): Wire.Read
    requires r.Got? ==> r.value.VSeq?
  {
    if r.Thrown? then Thrown else Got(VSeq(acc + r.value.elems), r.at)
  }

  /** The next byte of a number, lowest first, rewritten over what was there. */
  lemma {:induction false} ByteRewritten(before: seq<byte>, b: seq<byte>, all: seq<byte>, p: nat, k: nat, u: nat)
    requires k < |all| && p + |all| <= |before| && b == before[..p] + all[..k] + before[p + k..]
    requires ToBytes(u, |all| - k) == all[k..]
    ensures |b| == |before| && ToBytes(u / 256, |all| - (k + 1)) == all[k + 1..]
    ensures b[p + k := u % 256] == before[..p] + all[..k + 1] + before[p + k + 1..]
  {
    assert all[k] == all[k..][0] && all[k + 1..] == all[k..][1..];
    assert all[..k + 1] == all[..k] + [u % 256];
    assert before[p + k..][1..] == before[p + k + 1..];
  }

  class BasicStream {
    var b: seq<byte>
    var i: nat
    var startSeq: int
    var minSeqSize: int
    var writeEncaps: seq<WriteFrame>
    var readEncaps: seq<ReadFrame>
    const encoding10: bool

    ghost function W(): Writer
      reads this
    {
      Writer(b, encoding10, writeEncaps)
    }

    ghost function At(): Cursor
      reads this
    {
      Cursor(i, startSeq, minSeqSize)
    }

    ghost function R(): Reader
      reads this
    {
      Reader(At(), encoding10, readEncaps)
    }

    constructor (b: seq<byte>, encoding10: bool)
      ensures W() == Writer(b, encoding10, []) && R() == Reader(Cursor(0, -1, 0), encoding10, [])
    {
      this.b, this.encoding10 := b, encoding10;
      i, startSeq, minSeqSize := 0, -1, 0;
      writeEncaps, readEncaps := [], [];
    }

    // --------------------------------------------------------------- writing

    method WriteByte(v: byte)
      modifies this`b
      ensures b == old(b) + [v]
    {
      b := b + [v];
    }

    /** A short, int or long: its bytes, lowest first. */
    method WriteInt(n: int, w: nat)
      requires InRange(n, w)
      modifies this`b
      ensures b == old(b) + IntBytes(n, w)
    {
      var u: nat := if n < 0 then n + Pow256(w) else n;
      ghost var all := ToBytes(u, w);
      var k := 0;
      while k < w
        invariant k <= w && b + ToBytes(u, w - k) == old(b) + all
      {
        ghost var before := b;
        b := b + [u % 256];
        assert ToBytes(u, w - k) == [u % 256] + ToBytes(u / 256, w - k - 1);
        assert b + ToBytes(u / 256, w - k - 1) == before + ToBytes(u, w - k);
        u := u / 256;
        k := k + 1;
      }
      assert b + [] == b;
    }

    method WriteSize(n: int)
      requires 0 <= n <= MAX_INT
      modifies this`b
      ensures b == old(b) + SizeBytes(n)
    {
      if n > 254 {
        IntFits(n);
        WriteByte(255);
        WriteInt(n, 4);
        assert old(b) + [255] + IntBytes(n, 4) == old(b) + SizeBytes(n);
      } else {
        WriteByte(n);
      }
    }

    method WriteBlob(v: seq<byte>)
      modifies this`b
      ensures b == old(b) + v
    {
      var k := 0;
      while k < |v|
        invariant k <= |v| && b == old(b) + v[..k]
      {
        b := b + [v[k]];
        k := k + 1;
      }
      assert v[..|v|] == v;
    }

    method WriteEnum(n: int, maxValue: int)
      requires 0 <= n <= maxValue <= MAX_INT && InRange(n, EnumWidth(maxValue))
      modifies this`b
      ensures b == old(b) + if WriteEncoding10(old(W())) then IntBytes(n, EnumWidth(maxValue)) else SizeBytes(n)
    {
      if WriteEncoding() {
        if maxValue < 127 {
          WriteInt(n, 1);
        } else if maxValue < 32767 {
          WriteInt(n, 2);
        } else {
          WriteInt(n, 4);
        }
      } else {
        WriteSize(n);
      }
    }

    /** getWriteEncoding() is 1.0 */
    predicate WriteEncoding()
      reads this
      ensures WriteEncoding() == WriteEncoding10(W())
    {
      if writeEncaps == [] then encoding10 else writeEncaps[|writeEncaps| - 1].enc10
    }

    /** The stream helpers' write(). */
    method WriteValue(t: Type, v: Value)
      requires WellFormed(t) && Fits(t, v)
      modifies this`b
      ensures b == old(b) + Enc(WriteEncoding10(old(W())), t, v)
      decreases t, 0
    {
      match t
      case TBool => WriteByte(if v.b then 1 else 0);
      case TByte => WriteByte(v.n);
      case TInt(w) => WriteInt(v.n, w);
      case TFloat(_) => WriteBlob(v.bytes);
      case TString =>
        WriteSize(|v.bytes|);
        WriteBlob(v.bytes);
        assert old(b) + SizeBytes(|v.bytes|) + v.bytes == old(b) + (SizeBytes(|v.bytes|) + v.bytes);
      case TEnum(_, hi) =>
        EnumFits(v.n, hi);
        WriteEnum(v.n, hi);
      case TSeq(e) => WriteContainer(e, v.elems);
      case TDict(e) => WriteContainer(e, v.elems);
      case TStruct(ms) => WriteMembersOf(ms, v.elems);
    }

    method WriteContainer(e: Type, vs: seq<Value>)
      requires WellFormed(e) && |vs| <= MAX_INT && forall x <- vs :: Fits(e, x)
      modifies this`b
      ensures b == old(b) + (SizeBytes(|vs|) + EncElems(WriteEncoding10(old(W())), e, vs))
      decreases e, 2
    {
      ghost var size, elems := SizeBytes(|vs|), EncElems(WriteEncoding10(W()), e, vs);
      WriteSize(|vs|);
      WriteElems(e, vs);
      Appended3(old(b), size, elems);
    }

    method WriteElems(e: Type, vs: seq<Value>)
      requires WellFormed(e) && forall x <- vs :: Fits(e, x)
      modifies this`b
      ensures b == old(b) + EncElems(WriteEncoding10(old(W())), e, vs)
      decreases e, 1
    {
      ghost var enc10 := WriteEncoding10(W());
      var k := 0;
      assert vs[0..] == vs;
      while k < |vs|
        invariant k <= |vs| && WriteEncoding10(W()) == enc10
        invariant b + EncElems(enc10, e, vs[k..]) == old(b) + EncElems(enc10, e, vs)
      {
        ghost var before, rest := b, EncElems(enc10, e, vs[k + 1..]);
        ElemsNext(enc10, e, vs, k);
        WriteValue(e, vs[k]);
        Appended3(before, Enc(enc10, e, vs[k]), rest);
        k := k + 1;
      }
      assert b + [] == b;
    }

    method WriteMembersOf(ms: seq<Type>, vs: seq<Value>)
      requires |ms| == |vs| && (forall m <- ms :: WellFormed(m)) && forall k | 0 <= k < |ms| :: Fits(ms[k], vs[k])
      modifies this`b
      ensures b == old(b) + EncMembers(WriteEncoding10(old(W())), ms, vs)
      decreases ms, 0
    {
      if ms != [] {
        ghost var enc10 := WriteEncoding10(W());
        WriteValue(ms[0], vs[0]);
        WriteMembersOf(ms[1..], vs[1..]);
        ghost var first, rest := Enc(enc10, ms[0], vs[0]), EncMembers(enc10, ms[1..], vs[1..]);
        assert old(b) + first + rest == old(b) + (first + rest);
      }
    }

    /** rewrite(value, p) */
    method Patch(n: int, p: nat)
      requires p + 4 <= |b| && InRange(n, 4)
      modifies this`b
      ensures b == old(b)[..p] + IntBytes(n, 4) + old(b)[p + 4..]
    {
      var u: nat := if n < 0 then n + Pow256(4) else n;
      ghost var all := ToBytes(u, 4);
      var k := 0;
      while k < 4
        invariant k <= 4 && |b| == |old(b)|
        invariant ToBytes(u, 4 - k) == all[k..]
        invariant b == old(b)[..p] + all[..k] + old(b)[p + k..]
      {
        ByteRewritten(old(b), b, all, p, k, u);
        b := b[p + k := u % 256];
        u := u / 256;
        k := k + 1;
      }
    }

    // --------------------------------------------------------------- writing optional members and encapsulations

    /** writeOptImpl(): encoding 1.0 has no optional members. */
    method WriteOptHeader(tag: int, f: Format) returns (written: bool)
      requires 0 <= tag <= MAX_INT
      modifies this`b
      ensures written == !WriteEncoding10(old(W()))
      ensures b == old(b) + if written then Optionals.Header(tag, f) else []
    {
      if WriteEncoding() {
        assert b + [] == b;
        return false;
      }
      WriteHeader(tag, f);
      return true;
    }

    method WriteHeader(tag: int, f: Format)
      requires 0 <= tag <= MAX_INT
      modifies this`b
      ensures b == old(b) + Optionals.Header(tag, f)
    {
      if tag < 30 {
        WriteByte(8 * tag + Code(f));
      } else {
        WriteByte(0xF0 + Code(f));
        WriteSize(tag);
        assert old(b) + [0xF0 + Code(f)] + SizeBytes(tag) == old(b) + ([0xF0 + Code(f)] + SizeBytes(tag));
      }
    }

    /** StreamOptionalHelper::write(): the size is computed before, or patched after. */
    method WritePayload(t: Type, v: Value)
      requires FitsOptional(WriteEncoding10(W()), t, v)
      modifies this`b
      ensures b == old(b) + Payload(WriteEncoding10(old(W())), t, v)
    {
      if !Prefixed(t) {
        WriteValue(t, v);
      } else if FormatOf(t).VSize? {
        WritePrefixed(t, v);
      } else {
        IntFits(|Enc(WriteEncoding10(W()), t, v)|);
        WritePatched(t, v);
      }
    }

    method WritePrefixed(t: Type, v: Value)
      requires FitsOptional(WriteEncoding10(W()), t, v) && FormatOf(t).VSize? && Prefixed(t)
      modifies this`b
      ensures var e := Enc(WriteEncoding10(old(W())), t, v);
              PrefixValue(t, v) == |e| && b == old(b) + (SizeBytes(|e|) + e)
    {
      ghost var e := Enc(WriteEncoding10(W()), t, v);
      PrefixExact(WriteEncoding10(W()), t, v);
      WritePrefix(t, v);
      WriteValue(t, v);
      Appended3(old(b), SizeBytes(|e|), e);
    }

    /** The length of a fixed-length struct, or of a container of fixed-length elements. */
    method WritePrefix(t: Type, v: Value)
      requires Fits(t, v) && FormatOf(t).VSize? && Prefixed(t) && 0 <= PrefixValue(t, v) <= MAX_INT
      modifies this`b
      ensures b == old(b) + SizeBytes(PrefixValue(t, v))
    {
      if t.TStruct? {
        WriteSize(MinWireSize(t));
      } else {
        WriteSize(MinWireSize(Element(t)) * |v.elems| + (if |v.elems| < 255 then 1 else 5));
      }
    }

    method WritePatched(t: Type, v: Value)
      requires FitsOptional(WriteEncoding10(W()), t, v) && InRange(|Enc(WriteEncoding10(W()), t, v)|, 4)
      modifies this`b
      ensures var e := Enc(WriteEncoding10(old(W())), t, v);
              b == old(b) + (IntBytes(|e|, 4) + e)
    {
      ghost var e := Enc(WriteEncoding10(W()), t, v);
      IntFits(0);
      WriteInt(0, 4);
      var p := |b|;
      WriteValue(t, v);
      Slices(old(b), IntBytes(0, 4), e);
      Patch(|b| - p, p - 4);
      Appended3(old(b), IntBytes(|e|, 4), e);
    }

    /** BasicStream::write(tag, optional): the value follows only if its header was written. */
    method WriteOptional(tag: int, t: Type, v: OptValue)
      requires CanWrite(false, tag, t, v)
      modifies this`b
      ensures b == old(b) + if WriteEncoding10(old(W())) then [] else OutputWrite(false, tag, t, v)
    {
      if v.Absent? {
        assert b + [] == b;
        return;
      }
      var written := WriteOptHeader(tag, FormatOf(t));
      if written {
        WritePayload(t, v.v);
        Appended3(old(b), Optionals.Header(tag, FormatOf(t)), Payload(false, t, v.v));
      }
    }

    /** OutputStream::write(tag, optional): the value follows in any case. */
    method WriteOptionalPublic(tag: int, t: Type, v: OptValue)
      requires CanWrite(WriteEncoding10(W()), tag, t, v)
      modifies this`b
      ensures b == old(b) + OutputWrite(WriteEncoding10(old(W())), tag, t, v)
    {
      if v.Absent? {
        assert b + [] == b;
        return;
      }
      ghost var enc10 := WriteEncoding10(W());
      var written := WriteOptHeader(tag, FormatOf(t));
      WritePayload(t, v.v);
      Appended3(old(b), if enc10 then [] else Optionals.Header(tag, FormatOf(t)), Payload(enc10, t, v.v));
    }

    method StartWriteEncaps(enc10: bool)
      modifies this`b, this`writeEncaps
      ensures W() == StartWrite(old(W()), enc10)
    {
      writeEncaps := writeEncaps + [WriteFrame(|b|, enc10)];
      IntFits(0);
      WriteInt(0, 4);
      WriteByte(1);
      WriteByte(if enc10 then 0 else 1);
    }

    method EndWriteEncaps()
      requires writeEncaps != [] && writeEncaps[|writeEncaps| - 1].start + 4 <= |b|
      modifies this`b, this`writeEncaps
      ensures W() == EndWrite(old(W()))
    {
      var f := writeEncaps[|writeEncaps| - 1];
      IntFits(Int32(|b| - f.start));
      Patch(Int32(|b| - f.start), f.start);
      writeEncaps := writeEncaps[..|writeEncaps| - 1];
    }

    method WriteEncapsBytes(v: seq<byte>) returns (thrown: bool)
      modifies this`b
      ensures thrown <==> WriteRaw(old(W()), v) == None
      ensures thrown ==> b == old(b)
      ensures !thrown ==> Some(W()) == WriteRaw(old(W()), v)
    {
      if |v| < 6 {
        return true;
      }
      WriteBlob(v);
      return false;
    }

    // --------------------------------------------------------------- reading

    method ReadByte() returns (thrown: bool, v: byte)
      modifies this`i
      ensures thrown <==> Wire.ReadByte(b, old(At())).IntThrown?
      ensures !thrown ==> Wire.ReadByte(b, old(At())) == GotInt(v, At())
    {
      if i >= |b| {
        return true, 0;
      }
      v := b[i];
      i := i + 1;
      return false, v;
    }

    method ReadInt(w: nat) returns (thrown: bool, n: int)
      modifies this`i
      ensures thrown <==> Wire.ReadInt(b, old(At()), w).IntThrown?
      ensures !thrown ==> Wire.ReadInt(b, old(At()), w) == GotInt(n, At())
    {
      if |b| - i < w {
        return true, 0;
      }
      var u, k: nat := 0, w;
      assert b[i + w..i + w] == [];
      while k > 0
        invariant k <= w && u == FromBytes(b[i + k..i + w])
      {
        k := k - 1;
        assert b[i + k..i + w][0] == b[i + k] && b[i + k..i + w][1..] == b[i + k + 1..i + w];
        u := b[i + k] + 256 * u;
      }
      i := i + w;
      return false, if 2 * u < Pow256(w) then u else u - Pow256(w);
    }

    method ReadSize() returns (thrown: bool, n: int)
      modifies this`i
      ensures thrown <==> Wire.ReadSize(b, old(At())).IntThrown?
      ensures !thrown ==> Wire.ReadSize(b, old(At())) == GotInt(n, At())
    {
      var v;
      thrown, v := ReadByte();
      if thrown {
        return true, 0;
      }
      n := v;
      if n == 255 {
        thrown, n := ReadInt(4);
        thrown := thrown || n < 0;
      }
    }

    method ReadAndCheckSeqSize(minSize: int) returns (thrown: bool, n: int)
      modifies this`i, this`startSeq, this`minSeqSize
      ensures thrown <==> Wire.ReadAndCheckSeqSize(b, old(At()), minSize).IntThrown?
      ensures !thrown ==> Wire.ReadAndCheckSeqSize(b, old(At()), minSize) == GotInt(n, At())
    {
      thrown, n := ReadSize();
      if thrown || n == 0 {
        return;
      }
      if startSeq == -1 || i > startSeq + minSeqSize {
        startSeq := Int32(i);
        minSeqSize := Int32(n * minSize);
      } else {
        minSeqSize := Int32(minSeqSize + Int32(n * minSize));
      }
      thrown := Int32(startSeq + minSeqSize) > Int32(|b|);
    }

    method ReadBlob(n: nat) returns (thrown: bool, v: seq<byte>)
      modifies this`i
      ensures thrown <==> ReadBytes(b, old(At()), n).Thrown?
      ensures !thrown ==> ReadBytes(b, old(At()), n) == Got(VBytes(v), At())
    {
      if |b| - i < n {
        return true, [];
      }
      v := b[i..i + n];
      i := i + n;
      return false, v;
    }

    /** getReadEncoding() is 1.0 */
    predicate ReadEncoding()
      reads this
      ensures ReadEncoding() == ReadEncoding10(R())
    {
      if readEncaps == [] then encoding10 else readEncaps[|readEncaps| - 1].enc10
    }

    method ReadEnum(maxValue: int) returns (thrown: bool, n: int)
      modifies this`i
      ensures thrown <==> Wire.ReadEnum(ReadEncoding10(old(R())), b, old(At()), maxValue).IntThrown?
      ensures !thrown ==> Wire.ReadEnum(ReadEncoding10(old(R())), b, old(At()), maxValue) == GotInt(n, At())
    {
      if !ReadEncoding() {
        thrown, n := ReadSize();
      } else if maxValue < 127 {
        var v;
        thrown, v := ReadByte();
        n := v;
      } else if maxValue < 32767 {
        thrown, n := ReadInt(2);
      } else {
        thrown, n := ReadInt(4);
      }
    }

    /** The stream helpers' read(). */
    method ReadValue(t: Type) returns (thrown: bool, v: Value)
      requires WellFormed(t)
      modifies this`i, this`startSeq, this`minSeqSize
      ensures thrown <==> Dec(ReadEncoding10(old(R())), t, b, old(At())).Thrown?
      ensures !thrown ==> Dec(ReadEncoding10(old(R())), t, b, old(At())) == Got(v, At())
      decreases t, 0
    {
      v := VBool(false);
      if t.TSeq? {
        var n;
        thrown, n := ReadAndCheckSeqSize(MinWireSize(t.elem));
        if !thrown {
          thrown, v := ReadElems(t.elem, n);
        }
      } else if t.TDict? {
        var n;
        thrown, n := ReadSize();
        if !thrown {
          thrown, v := ReadEntries(t.entry, n);
        }
      } else if t.TStruct? {
        thrown, v := ReadMembersOf(t.members);
      } else {
        thrown, v := ReadPlain(t);
      }
    }

    method ReadPlain(t: Type) returns (thrown: bool, v: Value)
      requires WellFormed(t) && Plain(t)
      modifies this`i
      ensures thrown <==> Dec(ReadEncoding10(old(R())), t, b, old(At())).Thrown?
      ensures !thrown ==> Dec(ReadEncoding10(old(R())), t, b, old(At())) == Got(v, At())
    {
      v := VBool(false);
      var n := 0;
      var x: byte := 0;
      var s := [];
      match t
      case TBool =>
        thrown, x := ReadByte();
        v := VBool(x != 0);
      case TByte =>
        thrown, x := ReadByte();
        v := VInt(x);
      case TInt(w) =>
        thrown, n := ReadInt(w);
        v := VInt(n);
      case TFloat(w) =>
        thrown, s := ReadBlob(w);
        v := VBytes(s);
      case TString =>
        thrown, n := ReadSize();
        if !thrown {
          thrown, s := ReadBlob(n);
          v := VBytes(s);
        }
      case TEnum(lo, hi) =>
        thrown, n := ReadEnum(hi);
        thrown := thrown || n < lo || n > hi;
        v := VInt(n);
    }

    method ReadElems(e: Type, n: nat) returns (thrown: bool, v: Value)
      requires WellFormed(e)
      modifies this`i, this`startSeq, this`minSeqSize
      ensures thrown <==> DecElems(ReadEncoding10(old(R())), e, n, b, old(At())).Thrown?
      ensures !thrown ==> DecElems(ReadEncoding10(old(R())), e, n, b, old(At())) == Got(v, At())
      decreases e, 1
    {
      ghost var enc10 := ReadEncoding10(R());
      var acc: seq<Value> := [];
      var k := 0;
      ContinueNone(DecElems(enc10, e, n, b, At()));
      while k < n
        invariant k <= n && ReadEncoding10(R()) == enc10
        invariant DecElems(enc10, e, n, b, old(At())) == Continue(acc, DecElems(enc10, e, n - k, b, At()))
      {
        ghost var c := At();
        var x;
        thrown, x := ReadValue(e);
        if thrown {
          return true, VSeq([]);
        }
        ContinueOne(acc, x, DecElems(enc10, e, n - k - 1, b, At()));
        acc := acc + [x];
        k := k + 1;
      }
      return false, VSeq(acc);
    }

    method ReadMembersOf(ms: seq<Type>) returns (thrown: bool, v: Value)
      requires forall m <- ms :: WellFormed(m)
      modifies this`i, this`startSeq, this`minSeqSize
      ensures thrown <==> DecMembers(ReadEncoding10(old(R())), ms, b, old(At())).Thrown?
      ensures !thrown ==> v.VSeq? && DecMembers(ReadEncoding10(old(R())), ms, b, old(At())) == Got(v, At())
      decreases ms, 0
    {
      v := VSeq([]);
      if ms == [] {
        return false, v;
      }
      var x;
      thrown, x := ReadValue(ms[0]);
      if !thrown {
        thrown, v := ReadMembersOf(ms[1..]);
        if !thrown {
          v := VSeq([x] + v.elems);
        }
      }
    }

    /** The key is read, an entry for it is found or made, and the value is read into the entry. */
    method ReadEntries(e: Type, n: nat) returns (thrown: bool, v: Value)
      requires WellFormed(e) && e.TStruct? && |e.members| == 2
      modifies this`i, this`startSeq, this`minSeqSize
      ensures thrown <==> DecEntries(ReadEncoding10(old(R())), e, n, b, old(At()), []).Thrown?
      ensures !thrown ==> DecEntries(ReadEncoding10(old(R())), e, n, b, old(At()), []) == Got(v, At())
      decreases e, 1
    {
      ghost var enc10 := ReadEncoding10(R());
      var got: seq<Value> := [];
      var k := 0;
      while k < n
        invariant k <= n && ReadEncoding10(R()) == enc10 && AllEntries(got)
        invariant DecEntries(enc10, e, n, b, old(At()), []) == DecEntries(enc10, e, n - k, b, At(), got)
      {
        var x;
        thrown, x := ReadMembersOf(e.members);
        if thrown {
          return true, VSeq([]);
        }
        got := Insert(got, x);
        k := k + 1;
      }
      return false, VSeq(got);
    }

    // --------------------------------------------------------------- skipping, optional members, encapsulations

    method SkipBytes(n: nat) returns (thrown: bool)
      modifies this`i
      ensures thrown <==> Skip(b, old(At()), n) == None
      ensures !thrown ==> Skip(b, old(At()), n) == Some(At())
    {
      if i + n > |b| {
        return true;
      }
      i := i + n;
      return false;
    }

    method SkipASize() returns (thrown: bool)
      modifies this`i
      ensures thrown <==> SkipSize(b, old(At())) == None
      ensures !thrown ==> SkipSize(b, old(At())) == Some(At())
    {
      var v;
      thrown, v := ReadByte();
      if !thrown && v == 255 {
        thrown := SkipBytes(4);
      }
    }

    /** skipOpt() */
    method SkipOptional(f: Format) returns (thrown: bool)
      modifies this`i
      ensures thrown <==> SkipOpt(f, b, old(At())) == None
      ensures !thrown ==> SkipOpt(f, b, old(At())) == Some(At())
    {
      match f
      case F1 => thrown := SkipBytes(1);
      case F2 => thrown := SkipBytes(2);
      case F4 => thrown := SkipBytes(4);
      case F8 => thrown := SkipBytes(8);
      case Size => thrown := SkipASize();
      case VSize =>
        var n;
        thrown, n := ReadSize();
        if !thrown {
          thrown := SkipBytes(n);
        }
      case FSize =>
        var n;
        thrown, n := ReadInt(4);
        if thrown || n < 0 {
          return true;
        }
        thrown := SkipBytes(n);
      case Class => thrown := true;
    }

    /** readOptImpl(): encoding 1.0 has no optional members; otherwise the search ends with the encapsulation. */
    method ReadOptImpl(readTag: int, expected: Format) returns (thrown: bool, found: bool)
      requires readEncaps != []
      modifies this`i
      ensures var f := readEncaps[|readEncaps| - 1];
              var r := if f.enc10 then Missing(old(At())) else ReadOpt(readTag, expected, b, old(At()), f.start + f.sz);
              (thrown <==> r.Bad?) && (!thrown ==> r == if found then Found(At()) else Missing(At()))
    {
      if ReadEncoding() {
        return false, false;
      }
      var f := readEncaps[|readEncaps| - 1];
      thrown, found := SearchTag(readTag, expected, f.start + f.sz);
    }

    /** The tag in the header's first byte, or after it. */
    method TagOf(v: byte) returns (thrown: bool, tag: int)
      modifies this`i
      ensures thrown <==> ReadTag(v, b, old(At())).IntThrown?
      ensures !thrown ==> ReadTag(v, b, old(At())) == GotInt(tag, At())
    {
      thrown, tag := false, v / 8;
      if tag == 30 {
        thrown, tag := ReadSize();
      }
    }

    method SearchTag(readTag: int, expected: Format, end: nat) returns (thrown: bool, found: bool)
      modifies this`i
      ensures thrown <==> ReadOpt(readTag, expected, b, old(At()), end).Bad?
      ensures !thrown ==> ReadOpt(readTag, expected, b, old(At()), end) == if found then Found(At()) else Missing(At())
    {
      while i < end
        invariant ReadOpt(readTag, expected, b, old(At()), end) == ReadOpt(readTag, expected, b, At(), end)
        decreases end - i
      {
        var v;
        thrown, v := ReadByte();
        if thrown {
          return true, false;
        }
        if v == END_MARKER {
          i := i - 1;
          return false, false;
        }
        var tag;
        thrown, tag := TagOf(v);
        if thrown {
          return true, false;
        }
        if tag > readTag {
          var back := if tag < 30 then 1 else if tag < 255 then 2 else 6;
          if i < back {
            return true, false;
          }
          i := i - back;
          return false, false;
        } else if tag < readTag {
          thrown := SkipOptional(FromCode(v % 8));
          if thrown {
            return true, false;
          }
        } else if FromCode(v % 8) != expected {
          return true, false;
        } else {
          return false, true;
        }
      }
      return false, false;
    }

    /** stream->read(tag, optional) */
    method ReadOptional(tag: int, t: Type) returns (thrown: bool, v: OptValue)
      requires readEncaps != [] && WellFormed(t)
      modifies this`i, this`startSeq, this`minSeqSize
      ensures thrown <==> ReadOpts([Request(tag, t)], b, old(R())).MembersThrown?
      ensures !thrown ==> ReadOpts([Request(tag, t)], b, old(R())) == GotMembers([v], At())
    {
      ghost var start := R();
      var found;
      thrown, found := ReadOptImpl(tag, FormatOf(t));
      v := Absent;
      if found && !thrown {
        var x;
        thrown, x := ReadPayload(t);
        v := Present(x);
      }
      OneRequest(Request(tag, t), b, start);
    }

    /** skipOpts() */
    method SkipOptionals(end: nat) returns (thrown: bool)
      modifies this`i
      ensures thrown <==> SkipOpts(b, old(At()), end) == None
      ensures !thrown ==> SkipOpts(b, old(At()), end) == Some(At())
    {
      while i < end
        invariant SkipOpts(b, old(At()), end) == SkipOpts(b, At(), end)
        decreases end - i
      {
        var v;
        thrown, v := ReadByte();
        if thrown {
          return true;
        }
        if v == END_MARKER {
          return false;
        }
        if v / 8 == 30 {
          thrown := SkipASize();
          if thrown {
            return true;
          }
        }
        thrown := SkipOptional(FromCode(v % 8));
        if thrown {
          return true;
        }
      }
      return false;
    }

    /** StreamOptionalHelper::read() in encoding 1.1. */
    method ReadPayload(t: Type) returns (thrown: bool, v: Value)
      requires WellFormed(t) && !ReadEncoding10(R())
      modifies this`i, this`startSeq, this`minSeqSize
      ensures thrown <==> DecPayload(t, b, old(At())).Thrown?
      ensures !thrown ==> DecPayload(t, b, old(At())) == Got(v, At())
    {
      v := VBool(false);
      thrown := false;
      if Prefixed(t) {
        if FormatOf(t).VSize? {
          thrown := SkipASize();
        } else {
          thrown := SkipBytes(4);
        }
      }
      if !thrown {
        thrown, v := ReadValue(t);
      }
    }

    /** The size of an encapsulation, at least 6 and within the buffer, read off the stream. */
    method ReadEncapsSize() returns (thrown: bool, sz: nat)
      modifies this`i
      ensures thrown <==> EncapsSize(b, old(At())) == None
      ensures !thrown ==> EncapsSize(b, old(At())) == Some(sz) && At() == Advance(old(At()), 4)
    {
      var n;
      thrown, n := ReadInt(4);
      if thrown || n < 6 || i - 4 + n > |b| {
        return true, 0;
      }
      return false, n;
    }

    method StartReadEncaps() returns (thrown: bool)
      modifies this`i, this`readEncaps
      ensures thrown <==> StartRead(b, old(R())) == None
      ensures !thrown ==> StartRead(b, old(R())) == Some(R())
    {
      var start := i;
      var sz;
      thrown, sz := ReadEncapsSize();
      if thrown {
        return true;
      }
      var major, minor := b[i], b[i + 1];
      i := i + 2;
      if major != 1 || minor > 1 {
        return true;
      }
      readEncaps := readEncaps + [ReadFrame(start, sz, minor == 0)];
    }

    method EndReadEncaps() returns (thrown: bool)
      requires readEncaps != []
      modifies this`i, this`readEncaps
      ensures thrown <==> EndRead(b, old(R())) == None
      ensures !thrown ==> EndRead(b, old(R())) == Some(R())
    {
      var f := readEncaps[|readEncaps| - 1];
      if !f.enc10 {
        thrown := SkipOptionals(f.start + f.sz);
        if thrown || i != f.start + f.sz {
          return true;
        }
      } else if i != f.start + f.sz {
        if i + 1 != f.start + f.sz {
          return true;
        }
        i := i + 1;
      }
      readEncaps := readEncaps[..|readEncaps| - 1];
      return false;
    }

    /** readEncaps(): the encapsulation as bytes. */
    method ReadEncapsBytes() returns (thrown: bool, v: seq<byte>)
      modifies this`i
      ensures thrown <==> ReadRaw(b, old(At())).RawThrown?
      ensures !thrown ==> ReadRaw(b, old(At())) == GotRaw(v, At())
    {
      var start := i;
      var sz;
      thrown, sz := ReadEncapsSize();
      if thrown {
        return true, [];
      }
      v := b[start..start + sz];
      i := i + 2;
      i := i + sz - 4 - 2;
      return false, v;
    }
  }

  /** Asking for one member. */
  lemma {:induction false} OneRequest(q: Request, b: seq<byte>, r: Reader)
    requires r.stack != [] && WellFormed(q.t)
    ensures var f := r.stack[|r.stack| - 1];
            ReadOpts([q], b, r) ==
            if f.enc10 then GotMembers([Absent], r.c)
            else match ReadOpt(q.tag, FormatOf(q.t), b, r.c, f.start + f.sz)
                 case Bad => MembersThrown
                 case Missing(at) => GotMembers([Absent], at)
                 case Found(at) =>
                   var x := DecPayload(q.t, b, at);
                   if x.Thrown? then MembersThrown else GotMembers([Present(x.value)], x.at)
  {
    assert [q][1..] == [];
    assert seq(1, i => Absent) == [Absent];
    var f := r.stack[|r.stack| - 1];
    if !f.enc10 {
      match ReadOpt(q.tag, FormatOf(q.t), b, r.c, f.start + f.sz)
      case Bad =>
      case Missing(at) =>
        ReadMembersMissing([q], b, r.c, f.start + f.sz, at);
        PrependOne(Absent, at);
      case Found(at) =>
        var x := DecPayload(q.t, b, at);
        if x.Got? {
          ReadMembersFound([q], b, r.c, f.start + f.sz, at, x.value, x.at);
          PrependOne(Present(x.value), x.at);
        }
    }
  }

  lemma {:induction false} PrependOne(a: OptValue, at: Cursor)
    ensures Prepend(a, GotMembers([], at)) == GotMembers([a], at)
  {
    assert [a] + [] == [a];
  }

  lemma {:induction false} Appended3(x: seq<byte>, y: seq<byte>, z: seq<byte>)
    ensures x + y + z == x + (y + z)
  {
  }

  lemma {:induction false} Slices(x: seq<byte>, y: seq<byte>, z: seq<byte>)
    ensures (x + y + z)[..|x|] == x && (x + y + z)[|x| + |y|..] == z
  {
  }

  lemma {:induction false} ElemsNext(enc10: bool, e: Type, vs: seq<Value>, k: nat)
    requires WellFormed(e) && k < |vs| && forall x <- vs :: Fits(e, x)
    ensures EncElems(enc10, e, vs[k..]) == Enc(enc10, e, vs[k]) + EncElems(enc10, e, vs[k + 1..])
  {
    assert vs[k..][0] == vs[k] && vs[k..][1..] == vs[k + 1..];
  }

  lemma {:induction false} ContinueNone(r: Wire.Read)
    requires r.Got? ==> r.value.VSeq?
    ensures Continue([], r) == r
  {
    if r.Got? {
      assert [] + r.value.elems == r.value.elems;
    }
  }

  lemma {:induction false} ContinueOne(acc: seq<Value>, x: Value, rest: Wire.Read)
    requires rest.Got? ==> rest.value.VSeq?
    ensures Continue(acc, Continue([x], rest)) == Continue(acc + [x], rest)
  {
    if rest.Got? {
      assert acc + ([x] + rest.value.elems) == acc + [x] + rest.value.elems;
    }
  }
}

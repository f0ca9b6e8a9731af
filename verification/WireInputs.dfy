/** What a read of arbitrary bytes means: whatever the reader accepts is a value of its type and was in the buffer. */
module WireInputs {
  import opened Prelude
  import opened Wire
  import opened WireKeys
  import opened WireProofs

  lemma {:induction false} FromBytesBelow(s: seq<byte>)
    ensures FromBytes(s) < Pow256(|s|)
  {
    if s != [] {
      FromBytesBelow(s[1..]);
    }
  }

  lemma {:induction false} IntFitsItsWidth(b: seq<byte>, c: Cursor, w: nat)
    requires ReadInt(b, c, w).GotInt?
    ensures InRange(ReadInt(b, c, w).n, w) && ReadInt(b, c, w).at.i == c.i + w <= |b|
  {
    FromBytesBelow(b[c.i..c.i + w]);
  }

  lemma {:induction false} IntRange(n: int)
    requires InRange(n, 4)
    ensures -MAX_INT - 1 <= n <= MAX_INT
  {
    assert Pow256(4) == 256 * (256 * (256 * (256 * Pow256(0))));
  }

  /** A size is an Int, and took at least the bytes it is written in. */
  lemma {:induction false} SizeFits(b: seq<byte>, c: Cursor)
    requires ReadSize(b, c).GotInt?
    ensures var r := ReadSize(b, c); 0 <= r.n <= MAX_INT && c.i + |SizeBytes(r.n)| <= r.at.i <= |b|
  {
    var r := ReadByte(b, c);
    if r.n == 255 {
      IntFitsItsWidth(b, r.at, 4);
      IntRange(ReadInt(b, r.at, 4).n);
    }
  }

  /** The value is one of the type's, and its encoding is no longer than what was read. */
  ghost predicate Accepted(enc10: bool, t: Type, b: seq<byte>, c: Cursor, r: Read)
    requires WellFormed(t)
  {
    r.Got? ==> Fits(t, r.value) && c.i + |Enc(enc10, t, r.value)| <= r.at.i <= |b|
  }

  lemma {:induction false} EnumAccepted(enc10: bool, lo: int, hi: int, b: seq<byte>, c: Cursor)
    requires WellFormed(TEnum(lo, hi))
    ensures Accepted(enc10, TEnum(lo, hi), b, c, Dec(enc10, TEnum(lo, hi), b, c))
  {
    var r := ReadEnum(enc10, b, c, hi);
    if r.GotInt? && lo <= r.n <= hi {
      EnumFits(r.n, hi);
      if !enc10 {
        SizeFits(b, c);
      } else if hi >= 127 {
        IntFitsItsWidth(b, c, EnumWidth(hi));
      }
    }
  }

  lemma {:induction false} PlainAccepted(enc10: bool, t: Type, b: seq<byte>, c: Cursor)
    requires WellFormed(t) && Plain(t)
    ensures Accepted(enc10, t, b, c, Dec(enc10, t, b, c))
  {
    match t
    case TInt(w) => if ReadInt(b, c, w).GotInt? { IntFitsItsWidth(b, c, w); }
    case TString => if ReadSize(b, c).GotInt? { SizeFits(b, c); }
    case TEnum(lo, hi) => EnumAccepted(enc10, lo, hi, b, c);
    case _ =>
  }

  /**
   Whatever bytes are read: a value that comes back is a value of the type, and the bytes that were read, all within
   the buffer, are at least as many as the value is written in.
   */
  lemma {:induction false} DecAccepts(enc10: bool, t: Type, b: seq<byte>, c: Cursor)
    requires WellFormed(t) && c.i <= |b|
    ensures Accepted(enc10, t, b, c, Dec(enc10, t, b, c))
    decreases t, 0
  {
    match t
    case TSeq(e) =>
      var r := ReadAndCheckSeqSize(b, c, MinWireSize(e));
      if r.GotInt? {
        SizeFits(b, c);
        ElemsAccepted(enc10, e, r.n, b, r.at);
      }
    case TDict(e) =>
      var r := ReadSize(b, c);
      if r.GotInt? {
        SizeFits(b, c);
        EntriesAccepted(enc10, e, r.n, b, r.at, []);
      }
    case TStruct(ms) => MembersAccepted(enc10, ms, b, c);
    case _ => PlainAccepted(enc10, t, b, c);
  }

  lemma {:induction false} ElemsAccepted(enc10: bool, e: Type, n: nat, b: seq<byte>, c: Cursor)
    requires WellFormed(e) && c.i <= |b|
    ensures var r := DecElems(enc10, e, n, b, c);
            r.Got? ==> (forall x <- r.value.elems :: Fits(e, x)) && c.i + |EncElems(enc10, e, r.value.elems)| <= r.at.i <= |b|
    decreases e, 1 + n
  {
    if n > 0 {
      var r := Dec(enc10, e, b, c);
      DecAccepts(enc10, e, b, c);
      if r.Got? {
        ElemsAccepted(enc10, e, n - 1, b, r.at);
        var rest := DecElems(enc10, e, n - 1, b, r.at);
        if rest.Got? {
          OneMoreElem(enc10, e, r.value, rest.value.elems);
        }
      }
    }
  }

  lemma {:induction false} OneMoreElem(enc10: bool, e: Type, v: Value, vs: seq<Value>)
    requires WellFormed(e) && Fits(e, v) && forall x <- vs :: Fits(e, x)
    ensures forall x <- [v] + vs :: Fits(e, x)
    ensures |EncElems(enc10, e, [v] + vs)| == |Enc(enc10, e, v)| + |EncElems(enc10, e, vs)|
  {
    assert ([v] + vs)[1..] == vs;
  }

  lemma {:induction false} MembersAccepted(enc10: bool, ms: seq<Type>, b: seq<byte>, c: Cursor)
    requires (forall m <- ms :: WellFormed(m)) && c.i <= |b|
    ensures var r := DecMembers(enc10, ms, b, c);
            r.Got? ==> (forall k | 0 <= k < |ms| :: Fits(ms[k], r.value.elems[k])) &&
                       c.i + |EncMembers(enc10, ms, r.value.elems)| <= r.at.i <= |b|
    decreases ms, 0
  {
    if ms != [] {
      var r := Dec(enc10, ms[0], b, c);
      DecAccepts(enc10, ms[0], b, c);
      if r.Got? {
        MembersAccepted(enc10, ms[1..], b, r.at);
        var rest := DecMembers(enc10, ms[1..], b, r.at);
        if rest.Got? {
          OneMoreMember(enc10, ms, r.value, rest.value.elems);
        }
      }
    }
  }

  lemma {:induction false} OneMoreMember(enc10: bool, ms: seq<Type>, v: Value, vs: seq<Value>)
    requires ms != [] && |vs| == |ms| - 1 && (forall m <- ms :: WellFormed(m)) && Fits(ms[0], v)
    requires forall k | 0 <= k < |ms| - 1 :: Fits(ms[1..][k], vs[k])
    ensures forall k | 0 <= k < |ms| :: Fits(ms[k], ([v] + vs)[k])
    ensures |EncMembers(enc10, ms, [v] + vs)| == |Enc(enc10, ms[0], v)| + |EncMembers(enc10, ms[1..], vs)|
  {
    forall k | 0 <= k < |ms|
      ensures Fits(ms[k], ([v] + vs)[k])
    {
      if k > 0 {
        assert Fits(ms[1..][k - 1], vs[k - 1]);
      }
    }
    assert ([v] + vs)[1..] == vs;
  }

  /** Entries of a dictionary in the making. */
  ghost predicate Entries(e: Type, vs: seq<Value>) {
    (forall x <- vs :: Fits(e, x)) && AllEntries(vs) && Sorted(vs)
  }

  lemma {:induction false} EntriesAccepted(enc10: bool, e: Type, n: nat, b: seq<byte>, c: Cursor, got: seq<Value>)
    requires WellFormed(e) && e.TStruct? && |e.members| == 2 && c.i <= |b| && Entries(e, got)
    ensures var r := DecEntries(enc10, e, n, b, c, got);
            r.Got? ==> r.value.VSeq? && Entries(e, r.value.elems) && |r.value.elems| <= |got| + n &&
                       c.i + |EncElems(enc10, e, r.value.elems)| <= r.at.i + |EncElems(enc10, e, got)| && r.at.i <= |b|
    decreases e, 1 + n
  {
    if n > 0 {
      var r := DecMembers(enc10, e.members, b, c);
      MembersAccepted(enc10, e.members, b, c);
      if r.Got? {
        EntryInserted(enc10, e, got, r.value);
        EntriesAccepted(enc10, e, n - 1, b, r.at, Insert(got, r.value));
      }
    }
  }

  lemma {:induction false} EntryInserted(enc10: bool, e: Type, got: seq<Value>, entry: Value)
    requires WellFormed(e) && e.TStruct? && |e.members| == 2 && Entries(e, got) && Fits(e, entry)
    ensures Entries(e, Insert(got, entry)) && |Insert(got, entry)| <= |got| + 1
    ensures |EncElems(enc10, e, Insert(got, entry))| <= |EncElems(enc10, e, got)| + |Enc(enc10, e, entry)|
  {
    InsertSorted(got, entry);
    InsertLength(enc10, e, got, entry);
  }

  lemma {:induction false} InsertLength(enc10: bool, e: Type, got: seq<Value>, entry: Value)
    requires WellFormed(e) && e.TStruct? && |e.members| == 2 && Fits(e, entry) && AllEntries(got) && IsEntry(entry)
    requires forall x <- got :: Fits(e, x)
    ensures (forall x <- Insert(got, entry) :: Fits(e, x)) && |Insert(got, entry)| <= |got| + 1
    ensures |EncElems(enc10, e, Insert(got, entry))| <= |EncElems(enc10, e, got)| + |Enc(enc10, e, entry)|
    decreases |got|
  {
    if got == [] || KeyLess(KeyOf(entry), KeyOf(got[0])) {
      OneMoreElem(enc10, e, entry, got);
    } else {
      var rest := got[1..];
      assert got == [got[0]] + rest;
      OneMoreElem(enc10, e, got[0], rest);
      if KeyLess(KeyOf(got[0]), KeyOf(entry)) {
        InsertLength(enc10, e, rest, entry);
        OneMoreElem(enc10, e, got[0], Insert(rest, entry));
      } else {
        var merged := VSeq([KeyOf(got[0]), entry.elems[1]]);
        Merged(enc10, e, got[0], entry);
        OneMoreElem(enc10, e, merged, rest);
      }
    }
  }

  /** The old key with the new value is no longer than both entries together. */
  lemma {:induction false} Merged(enc10: bool, e: Type, old_: Value, entry: Value)
    requires WellFormed(e) && e.TStruct? && |e.members| == 2 && Fits(e, old_) && Fits(e, entry)
    ensures var merged := VSeq([old_.elems[0], entry.elems[1]]);
            Fits(e, merged) && |Enc(enc10, e, merged)| <= |Enc(enc10, e, old_)| + |Enc(enc10, e, entry)|
  {
    TwoMembers(enc10, e, old_);
    TwoMembers(enc10, e, entry);
    TwoMembers(enc10, e, VSeq([old_.elems[0], entry.elems[1]]));
  }

  lemma {:induction false} TwoMembers(enc10: bool, e: Type, v: Value)
    requires WellFormed(e) && e.TStruct? && |e.members| == 2 && Fits(e, v)
    ensures |Enc(enc10, e, v)| == |Enc(enc10, e.members[0], v.elems[0])| + |Enc(enc10, e.members[1], v.elems[1])|
  {
    var ms, vs := e.members, v.elems;
    assert EncMembers(enc10, ms[1..], vs[1..]) == Enc(enc10, ms[1], vs[1]) + EncMembers(enc10, ms[1..][1..], vs[1..][1..]);
    assert ms[1..][1..] == [];
  }

  /** A size that fools the check never yields a value: what is read had its minimum in the buffer. */
  lemma {:induction false} ReadIsThere(enc10: bool, t: Type, b: seq<byte>, c: Cursor)
    requires WellFormed(t) && c.i <= |b| && Dec(enc10, t, b, c).Got?
    ensures c.i + MinWireSize(t) <= Dec(enc10, t, b, c).at.i <= |b|
  {
    DecAccepts(enc10, t, b, c);
    MinWireSizeSound(enc10, t, Dec(enc10, t, b, c).value);
  }

  /**
   Whatever was read can be written again, in no more bytes than there were, and what is written reads back as the
   same value: reading and writing brings any accepted bytes into a form that reading and writing keeps.
   */
  lemma {:induction false} RereadIsSame(enc10: bool, t: Type, b: seq<byte>, c: Cursor)
    requires WellFormed(t) && c.i <= |b| <= MAX_INT && Dec(enc10, t, b, c).Got?
    ensures var v := Dec(enc10, t, b, c).value;
            && Fits(t, v) && |Enc(enc10, t, v)| <= |b| - c.i
            && var r := Dec(enc10, t, Enc(enc10, t, v), Cursor(0, -1, 0));
               r.Got? && r.value == v && r.at.i == |Enc(enc10, t, v)|
  {
    var v := Dec(enc10, t, b, c).value;
    DecAccepts(enc10, t, b, c);
    var s := Enc(enc10, t, v);
    assert s == s + [];
    DecodesAtStart(enc10, t, v, s, []);
  }
}

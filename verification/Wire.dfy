/**
 The wire encoding: the types that can be marshalled, the bytes each value is written as, and the reader's cursor.

 A float or double is its raw bytes; a string is its bytes, no converter installed. A dictionary is given by its entry,
 a struct of key and value, and listed in the order of its keys. `enc10` selects encoding 1.0 over 1.1.
 */
module Wire {
  import opened Prelude

  const MAX_INT: int := 0x7fff_ffff

  datatype Type =
    | TBool
    | TByte
    | TInt(width: nat)                        // short, int, long
    | TFloat(width: nat)                      // float, double
    | TString
    | TEnum(minValue: int, maxValue: int)
    | TSeq(elem: Type)
    | TDict(entry: Type)
    | TStruct(members: seq<Type>)

  datatype Value =
    | VBool(b: bool)
    | VInt(n: int)
    | VBytes(bytes: seq<byte>)
    | VSeq(elems: seq<Value>)                 // sequences, dictionaries and structs

  /** A type that Slice can declare. */
  predicate WellFormed(t: Type) {
    match t
    case TInt(w) => w == 2 || w == 4 || w == 8
    case TFloat(w) => w == 4 || w == 8
    case TEnum(lo, hi) => 0 <= lo <= hi <= MAX_INT
    case TSeq(e) => WellFormed(e)
    case TDict(e) => e.TStruct? && |e.members| == 2 && WellFormed(e)
    case TStruct(ms) => ms != [] && forall m <- ms :: WellFormed(m)
    case _ => true
  }

  /** 256 to the power w. */
  function Pow256(w: nat): nat {
    if w == 0 then 1 else 256 * Pow256(w - 1)
  }

  predicate InRange(n: int, w: nat) {
    -2 * n <= Pow256(w) && 2 * n < Pow256(w)
  }

  function Rank(v: Value): nat {
    match v
    case VBool(_) => 0
    case VInt(_) => 1
    case VBytes(_) => 2
    case VSeq(_) => 3
  }

  predicate BytesLess(a: seq<byte>, b: seq<byte>) {
    b != [] && (a == [] || a[0] < b[0] || (a[0] == b[0] && BytesLess(a[1..], b[1..])))
  }

  /** operator< on keys: numbers, strings by their bytes, structs member by member. */
  predicate KeyLess(a: Value, b: Value)
    decreases a, 0
  {
    if a.VBool? && b.VBool? then !a.b && b.b
    else if a.VInt? && b.VInt? then a.n < b.n
    else if a.VBytes? && b.VBytes? then BytesLess(a.bytes, b.bytes)
    else if a.VSeq? && b.VSeq? then KeysLess(a.elems, b.elems)
    else Rank(a) < Rank(b)
  }

  predicate KeysLess(a: seq<Value>, b: seq<Value>)
    decreases a, 0
  {
    b != [] && (a == [] || KeyLess(a[0], b[0]) || (a[0] == b[0] && KeysLess(a[1..], b[1..])))
  }

  predicate IsEntry(v: Value) {
    v.VSeq? && |v.elems| == 2
  }

  predicate AllEntries(vs: seq<Value>) {
    forall k | 0 <= k < |vs| :: IsEntry(vs[k])
  }

  function KeyOf(entry: Value): Value
    requires IsEntry(entry)
  {
    entry.elems[0]
  }

  /** The entries of a map, in its order. */
  predicate Sorted(entries: seq<Value>)
    requires AllEntries(entries)
  {
    forall i, j | 0 <= i < j < |entries| :: KeyLess(KeyOf(entries[i]), KeyOf(entries[j]))
  }

  /** The values of a type; a container's size and a string's length are an Int. */
  predicate Fits(t: Type, v: Value) {
    match t
    case TBool => v.VBool?
    case TByte => v.VInt? && 0 <= v.n < 256
    case TInt(w) => v.VInt? && InRange(v.n, w)
    case TFloat(w) => v.VBytes? && |v.bytes| == w
    case TString => v.VBytes? && |v.bytes| <= MAX_INT
    case TEnum(lo, hi) => v.VInt? && lo <= v.n <= hi
    case TSeq(e) => v.VSeq? && |v.elems| <= MAX_INT && forall x <- v.elems :: Fits(e, x)
    case TDict(e) =>
      v.VSeq? && |v.elems| <= MAX_INT && (forall x <- v.elems :: Fits(e, x)) && AllEntries(v.elems) && Sorted(v.elems)
    case TStruct(ms) => v.VSeq? && |v.elems| == |ms| && forall k | 0 <= k < |ms| :: Fits(ms[k], v.elems[k])
  }

  // --------------------------------------------------------------- the traits

  /** StreamableTraits::minWireSize */
  function MinWireSize(t: Type): nat {
    match t
    case TInt(w) => w
    case TFloat(w) => w
    case TStruct(ms) => MinWireSizes(ms)
    case _ => 1
  }

  function MinWireSizes(ms: seq<Type>): nat {
    if ms == [] then 0 else MinWireSize(ms[0]) + MinWireSizes(ms[1..])
  }

  /** StreamableTraits::fixedLength */
  predicate FixedLength(t: Type) {
    match t
    case TString => false
    case TEnum(_, _) => false
    case TSeq(_) => false
    case TDict(_) => false
    case TStruct(ms) => forall m <- ms :: FixedLength(m)
    case _ => true
  }

  // --------------------------------------------------------------- writing

  /** The w low bytes of u, lowest first. */
  function ToBytes(u: nat, w: nat): (s: seq<byte>)
    ensures |s| == w
  {
    if w == 0 then [] else [u % 256] + ToBytes(u / 256, w - 1)
  }

  /** A signed number in two's complement. */
  function IntBytes(n: int, w: nat): (s: seq<byte>)
    requires InRange(n, w)
    ensures |s| == w
  {
    ToBytes(if n < 0 then n + Pow256(w) else n, w)
  }

  function SizeBytes(n: int): (s: seq<byte>)
    requires 0 <= n <= MAX_INT
    ensures |s| == if n < 255 then 1 else 5
  {
    if n > 254 then IntFits(n); [255] + IntBytes(n, 4) else [n]
  }

  lemma {:induction false} IntFits(n: int)
    requires -MAX_INT - 1 <= n <= MAX_INT
    ensures InRange(n, 4)
  {
    assert Pow256(4) == 256 * (256 * (256 * (256 * Pow256(0))));
  }

  /** The bytes writeEnum() gives an enumerator in encoding 1.0. */
  function EnumWidth(maxValue: int): nat {
    if maxValue < 127 then 1 else if maxValue < 32767 then 2 else 4
  }

  lemma {:induction false} EnumFits(n: int, maxValue: int)
    requires 0 <= n <= maxValue <= MAX_INT
    ensures InRange(n, EnumWidth(maxValue))
  {
    assert Pow256(1) == 256 * Pow256(0);
    assert Pow256(2) == 256 * Pow256(1);
    IntFits(n);
  }

  function Enc(enc10: bool, t: Type, v: Value): seq<byte>
    requires WellFormed(t) && Fits(t, v)
    decreases t, 0
  {
    match t
    case TBool => [if v.b then 1 else 0]
    case TByte => [v.n]
    case TInt(w) => IntBytes(v.n, w)
    case TFloat(_) => v.bytes
    case TString => SizeBytes(|v.bytes|) + v.bytes
    case TEnum(_, hi) =>
      EnumFits(v.n, hi);
      if enc10 then IntBytes(v.n, EnumWidth(hi)) else SizeBytes(v.n)
    case TSeq(e) => SizeBytes(|v.elems|) + EncElems(enc10, e, v.elems)
    case TDict(e) => SizeBytes(|v.elems|) + EncElems(enc10, e, v.elems)
    case TStruct(ms) => EncMembers(enc10, ms, v.elems)
  }

  function EncElems(enc10: bool, e: Type, vs: seq<Value>): seq<byte>
    requires WellFormed(e) && forall x <- vs :: Fits(e, x)
    decreases e, 1 + |vs|
  {
    if vs == [] then [] else Enc(enc10, e, vs[0]) + EncElems(enc10, e, vs[1..])
  }

  function EncMembers(enc10: bool, ms: seq<Type>, vs: seq<Value>): seq<byte>
    requires |ms| == |vs| && (forall m <- ms :: WellFormed(m)) && forall k | 0 <= k < |ms| :: Fits(ms[k], vs[k])
    decreases ms, 0
  {
    if ms == [] then [] else Enc(enc10, ms[0], vs[0]) + EncMembers(enc10, ms[1..], vs[1..])
  }

  // --------------------------------------------------------------- reading

  /** The reader: the position `i`, and the bookkeeping of readAndCheckSeqSize(). */
  datatype Cursor = Cursor(i: nat, startSeq: int, minSeqSize: int)

  datatype IntRead = GotInt(n: int, at: Cursor) | IntThrown
  datatype Read = Got(value: Value, at: Cursor) | Thrown

  function FromBytes(s: seq<byte>): nat {
    if s == [] then 0 else s[0] + 256 * FromBytes(s[1..])
  }

  /** Int arithmetic wraps. */
  function Int32(n: int): int {
    (n + MAX_INT + 1) % 0x1_0000_0000 - MAX_INT - 1
  }

  function Advance(c: Cursor, n: nat): Cursor {
    c.(i := c.i + n)
  }

  function ReadInt(b: seq<byte>, c: Cursor, w: nat): IntRead {
    if |b| - c.i < w then IntThrown
    else
      var u := FromBytes(b[c.i..c.i + w]);
      GotInt(if 2 * u < Pow256(w) then u else u - Pow256(w), Advance(c, w))
  }

  function ReadByte(b: seq<byte>, c: Cursor): (r: IntRead)
    ensures r.GotInt? ==> 0 <= r.n < 256
  {
    if c.i >= |b| then IntThrown else GotInt(b[c.i], Advance(c, 1))
  }

  function ReadSize(b: seq<byte>, c: Cursor): (r: IntRead)
    ensures r.GotInt? ==> r.n >= 0 && r.at.i > c.i
  {
    var r := ReadByte(b, c);
    if r.GotInt? && r.n == 255 then
      var r' := ReadInt(b, r.at, 4);
      if r'.GotInt? && r'.n < 0 then IntThrown else r'
    else r
  }

  /** The cursor once `need` more bytes are claimed; none when they and what encloses them cannot all be there. */
  function Claim(length: nat, c: Cursor, need: int): Option<Cursor> {
    var c' :=
      if c.startSeq == -1 || c.i > c.startSeq + c.minSeqSize then
        c.(startSeq := Int32(c.i), minSeqSize := Int32(need))
      else
        c.(minSeqSize := Int32(c.minSeqSize + Int32(need)));
    if Int32(c'.startSeq + c'.minSeqSize) > Int32(length) then None else Some(c')
  }

  /** The size of a sequence whose elements take minSize bytes at least. */
  function ReadAndCheckSeqSize(b: seq<byte>, c: Cursor, minSize: int): (r: IntRead)
    ensures r.GotInt? ==> r.n >= 0 && r.at.i > c.i
  {
    var r := ReadSize(b, c);
    if r.IntThrown? || r.n == 0 then r
    else
      var claimed := Claim(|b|, r.at, r.n * minSize);
      if claimed == None then IntThrown else GotInt(r.n, claimed.value)
  }

  function ReadEnum(enc10: bool, b: seq<byte>, c: Cursor, maxValue: int): IntRead {
    if !enc10 then ReadSize(b, c)
    else if maxValue < 127 then ReadByte(b, c)
    else ReadInt(b, c, EnumWidth(maxValue))
  }

  function ReadBytes(b: seq<byte>, c: Cursor, n: nat): Read {
    if |b| - c.i < n then Thrown else Got(VBytes(b[c.i..c.i + n]), Advance(c, n))
  }

  function AsValue(r: IntRead): Read {
    if r.IntThrown? then Thrown else Got(VInt(r.n), r.at)
  }

  /** Reads a value of type t. */
  function Dec(enc10: bool, t: Type, b: seq<byte>, c: Cursor): Read
    requires WellFormed(t)
    decreases t, 0
  {
    match t
    case TBool => var r := ReadByte(b, c); if r.IntThrown? then Thrown else Got(VBool(r.n != 0), r.at)
    case TByte => AsValue(ReadByte(b, c))
    case TInt(w) => AsValue(ReadInt(b, c, w))
    case TFloat(w) => ReadBytes(b, c, w)
    case TString => var r := ReadSize(b, c); if r.IntThrown? then Thrown else ReadBytes(b, r.at, r.n)
    case TEnum(lo, hi) =>
      var r := ReadEnum(enc10, b, c, hi);
      if r.GotInt? && lo <= r.n <= hi then AsValue(r) else Thrown
    case TSeq(e) =>
      var r := ReadAndCheckSeqSize(b, c, MinWireSize(e));
      if r.IntThrown? then Thrown else DecElems(enc10, e, r.n, b, r.at)
    case TDict(e) =>
      var r := ReadSize(b, c);
      if r.IntThrown? then Thrown else DecEntries(enc10, e, r.n, b, r.at, [])
    case TStruct(ms) => DecMembers(enc10, ms, b, c)
  }

  function DecElems(enc10: bool, e: Type, n: nat, b: seq<byte>, c: Cursor): (r: Read)
    requires WellFormed(e)
    ensures r.Got? ==> r.value.VSeq? && |r.value.elems| == n
    decreases e, 1 + n
  {
    if n == 0 then Got(VSeq([]), c)
    else
      var r := Dec(enc10, e, b, c);
      if r.Thrown? then Thrown
      else
        var rest := DecElems(enc10, e, n - 1, b, r.at);
        if rest.Thrown? then Thrown else Got(VSeq([r.value] + rest.value.elems), rest.at)
  }

  function DecMembers(enc10: bool, ms: seq<Type>, b: seq<byte>, c: Cursor): (r: Read)
    requires forall m <- ms :: WellFormed(m)
    ensures r.Got? ==> r.value.VSeq? && |r.value.elems| == |ms|
    decreases ms, 0
  {
    if ms == [] then Got(VSeq([]), c)
    else
      var r := Dec(enc10, ms[0], b, c);
      if r.Thrown? then Thrown
      else
        var rest := DecMembers(enc10, ms[1..], b, r.at);
        if rest.Thrown? then Thrown else Got(VSeq([r.value] + rest.value.elems), rest.at)
  }

  /** insert(v.end(), p), then the value is read into the entry found or made: the last value of a key wins. */
  function Insert(entries: seq<Value>, entry: Value): (r: seq<Value>)
    requires IsEntry(entry) && AllEntries(entries)
    ensures AllEntries(r)
  {
    if entries == [] || KeyLess(KeyOf(entry), KeyOf(entries[0])) then [entry] + entries
    else if KeyLess(KeyOf(entries[0]), KeyOf(entry)) then [entries[0]] + Insert(entries[1..], entry)
    else [VSeq([KeyOf(entries[0]), entry.elems[1]])] + entries[1..]
  }

  function DecEntries(enc10: bool, e: Type, n: nat, b: seq<byte>, c: Cursor, got: seq<Value>): (r: Read)
    requires WellFormed(e) && e.TStruct? && |e.members| == 2
    requires AllEntries(got)
    decreases e, 1 + n
  {
    if n == 0 then Got(VSeq(got), c)
    else
      var r := DecMembers(enc10, e.members, b, c);
      if r.Thrown? then Thrown else DecEntries(enc10, e, n - 1, b, r.at, Insert(got, r.value))
  }
}

/** The encoding in plain bytes: what each kind of value looks like on the wire, with numbers and no help from the encoder. */
module WireBytes {
  import opened Prelude
  import opened Wire
  import opened WireProofs

  // --------------------------------------------------------------- numbers and sizes

  /** The k-th byte of a number in two's complement, lowest first: quotients round down. */
  lemma {:induction false} ByteOfInt(n: int, w: nat, k: nat)
    requires InRange(n, w) && k < w
    ensures IntBytes(n, w)[k] == n / Power(k) % 256
  {
    var u := if n < 0 then n + Pow256(w) else n;
    DigitOf(u, w, k);
    if n < 0 {
      DigitShifts(n, w, k);
    }
  }

  /** 256 to the power k. */
  function Power(k: nat): (p: nat)
    ensures p > 0
  {
    if k == 0 then 1 else 256 * Power(k - 1)
  }

  lemma {:induction false} PowerIs(k: nat)
    ensures Power(k) == Pow256(k)
  {
    if k > 0 {
      PowerIs(k - 1);
    }
  }

  lemma {:induction false} DigitOf(u: nat, w: nat, k: nat)
    requires k < w
    ensures ToBytes(u, w)[k] == u / Power(k) % 256
  {
    if k > 0 {
      DigitOf(u / 256, w - 1, k - 1);
      DivideTwice(u, 256, Power(k - 1));
    }
  }

  lemma {:induction false} DivideTwice(u: int, a: nat, b: nat)
    requires a > 0 && b > 0
    ensures a * b > 0 && u / a / b == u / (a * b)
  {
    var q, r := u / a, u % a;
    var q', r' := q / b, q % b;
    Distribute(a, b, q', r');
    Bounded(a, b, r, r');
    QuotientIs(u, a * b, q', a * r' + r);
  }

  lemma {:induction false} Distribute(a: int, b: int, q: int, r: int)
    ensures a * (b * q + r) == (a * b) * q + a * r
  {
  }

  lemma {:induction false} Bounded(a: nat, b: nat, r: nat, r': nat)
    requires r < a && r' < b
    ensures 0 < a * b && 0 <= a * r' + r < a * b
  {
    assert a * r' <= a * (b - 1);
    assert a * (b - 1) == a * b - a;
  }

  lemma {:induction false} QuotientIs(u: int, d: nat, q: int, r: int)
    requires d > 0 && u == d * q + r && 0 <= r < d
    ensures u / d == q
  {
    Multiples(d, u / d - q);
    assert d * (u / d - q) == d * (u / d) - d * q;
  }

  lemma {:induction false} Multiples(d: nat, x: int)
    requires d > 0
    ensures (x > 0 ==> d * x >= d) && (x < 0 ==> d * x + d <= 0)
  {
  }

  /** Adding 256^w leaves the low w digits alone. */
  lemma {:induction false} DigitShifts(n: int, w: nat, k: nat)
    requires k < w
    ensures (n + Pow256(w)) / Power(k) % 256 == n / Power(k) % 256
  {
    PowerIs(w);
    SplitPower(k, w - k);
    SplitPower(1, w - k - 1);
    var m := Power(w - k - 1);
    assert Power(w) == Power(k) * (256 * m);
    AddMultiple(n, Power(k), 256 * m);
    assert (n / Power(k) + 256 * m) % 256 == n / Power(k) % 256;
  }

  lemma {:induction false} AddMultiple(n: int, d: nat, m: int)
    requires d > 0
    ensures (n + d * m) / d == n / d + m
  {
    assert n + d * m == d * (n / d + m) + n % d;
    QuotientIs(n + d * m, d, n / d + m, n % d);
  }

  lemma {:induction false} SplitPower(a: nat, b: nat)
    ensures Power(a + b) == Power(a) * Power(b)
  {
    if a > 0 {
      SplitPower(a - 1, b);
      assert 256 * (Power(a - 1) * Power(b)) == 256 * Power(a - 1) * Power(b);
    }
  }

  /** Four bytes, lowest first. */
  function Four(n: nat): seq<byte> {
    [n % 256, n / 256 % 256, n / 65536 % 256, n / 16777216 % 256]
  }

  lemma {:induction false} FourIs(n: int)
    requires 0 <= n <= MAX_INT
    ensures InRange(n, 4) && IntBytes(n, 4) == Four(n)
  {
    IntFits(n);
    assert Power(1) == 256 && Power(2) == 65536 && Power(3) == 16777216 by {
      assert Power(3) == 256 * Power(2) && Power(2) == 256 * Power(1) && Power(1) == 256 * Power(0);
    }
    ByteOfInt(n, 4, 0);
    ByteOfInt(n, 4, 1);
    ByteOfInt(n, 4, 2);
    ByteOfInt(n, 4, 3);
  }

  /** A size: one byte below 255, else 255 and four bytes. */
  function SizeSpelled(n: nat): seq<byte> {
    if n < 255 then [n] else [255] + Four(n)
  }

  lemma {:induction false} SizeIs(n: int)
    requires 0 <= n <= MAX_INT
    ensures SizeBytes(n) == SizeSpelled(n)
  {
    if n >= 255 {
      FourIs(n);
    }
  }

  // --------------------------------------------------------------- values

  function Joined(parts: seq<seq<byte>>): seq<byte> {
    if parts == [] then [] else parts[0] + Joined(parts[1..])
  }

  /** The encodings of a container's elements. */
  function ElemParts(enc10: bool, e: Type, vs: seq<Value>): seq<seq<byte>>
    requires WellFormed(e) && forall x <- vs :: Fits(e, x)
  {
    seq(|vs|, i requires 0 <= i < |vs| => Enc(enc10, e, vs[i]))
  }

  /** The encodings of a struct's members, in the order of declaration. */
  function MemberParts(enc10: bool, ms: seq<Type>, vs: seq<Value>): seq<seq<byte>>
    requires |ms| == |vs| && (forall m <- ms :: WellFormed(m)) && forall k | 0 <= k < |ms| :: Fits(ms[k], vs[k])
  {
    seq(|ms|, k requires 0 <= k < |ms| => Enc(enc10, ms[k], vs[k]))
  }

  lemma {:induction false} ElemsJoin(enc10: bool, e: Type, vs: seq<Value>)
    requires WellFormed(e) && forall x <- vs :: Fits(e, x)
    ensures EncElems(enc10, e, vs) == Joined(ElemParts(enc10, e, vs))
    decreases |vs|
  {
    if vs != [] {
      ElemsJoin(enc10, e, vs[1..]);
      assert ElemParts(enc10, e, vs)[1..] == ElemParts(enc10, e, vs[1..]);
    }
  }

  lemma {:induction false} MembersJoin(enc10: bool, ms: seq<Type>, vs: seq<Value>)
    requires |ms| == |vs| && (forall m <- ms :: WellFormed(m)) && forall k | 0 <= k < |ms| :: Fits(ms[k], vs[k])
    ensures EncMembers(enc10, ms, vs) == Joined(MemberParts(enc10, ms, vs))
    decreases |ms|
  {
    if ms != [] {
      MembersJoin(enc10, ms[1..], vs[1..]);
      assert MemberParts(enc10, ms, vs)[1..] == MemberParts(enc10, ms[1..], vs[1..]);
    }
  }

  /** An enumerator: a size in encoding 1.1; in 1.0 one, two or four bytes by the largest enumerator. */
  function EnumSpelled(enc10: bool, n: nat, largest: nat): seq<byte> {
    if !enc10 then SizeSpelled(n)
    else if largest < 127 then [n % 256]
    else if largest < 32767 then [n % 256, n / 256 % 256]
    else Four(n)
  }

  lemma {:induction false} EnumIs(enc10: bool, lo: int, hi: int, v: Value)
    requires WellFormed(TEnum(lo, hi)) && Fits(TEnum(lo, hi), v)
    ensures Enc(enc10, TEnum(lo, hi), v) == EnumSpelled(enc10, v.n, hi)
  {
    EnumFits(v.n, hi);
    if !enc10 {
      SizeIs(v.n);
    } else if hi < 127 {
      ByteOfInt(v.n, 1, 0);
    } else if hi < 32767 {
      assert Power(1) == 256 * Power(0);
      ByteOfInt(v.n, 2, 0);
      ByteOfInt(v.n, 2, 1);
    } else {
      FourIs(v.n);
    }
  }

  /**
   What every value is written as. A bool is one byte, 1 or 0; numbers are in two's complement, lowest byte first; a
   string, a sequence and a dictionary are a size and what they hold, in order; a struct is its members in order.
   */
  lemma {:induction false} Spelled(enc10: bool, t: Type, v: Value)
    requires WellFormed(t) && Fits(t, v)
    ensures var s := Enc(enc10, t, v);
            match t
            case TBool => s == [if v.b then 1 else 0]
            case TByte => s == [v.n]
            case TInt(w) => |s| == w && forall k | 0 <= k < w :: s[k] == v.n / Power(k) % 256
            case TFloat(w) => s == v.bytes && |s| == w
            case TString => s == SizeSpelled(|v.bytes|) + v.bytes
            case TEnum(_, hi) => s == EnumSpelled(enc10, v.n, hi)
            case TSeq(e) => s == SizeSpelled(|v.elems|) + Joined(ElemParts(enc10, e, v.elems))
            case TDict(e) => s == SizeSpelled(|v.elems|) + Joined(ElemParts(enc10, e, v.elems))
            case TStruct(ms) => s == Joined(MemberParts(enc10, ms, v.elems))
  {
    match t
    case TInt(w) =>
      forall k | 0 <= k < w
        ensures Enc(enc10, t, v)[k] == v.n / Power(k) % 256
      {
        ByteOfInt(v.n, w, k);
      }
    case TString => SizeIs(|v.bytes|);
    case TEnum(lo, hi) => EnumIs(enc10, lo, hi, v);
    case TSeq(e) => SizeIs(|v.elems|); ElemsJoin(enc10, e, v.elems);
    case TDict(e) => SizeIs(|v.elems|); ElemsJoin(enc10, e, v.elems);
    case TStruct(ms) => MembersJoin(enc10, ms, v.elems);
    case _ =>
  }

  // --------------------------------------------------------------- what a type is made of

  /** A type's leaves: what is left when its structs are taken apart. */
  function Leaves(t: Type): seq<Type>
    decreases t, 0
  {
    match t
    case TStruct(ms) => LeavesOf(ms)
    case _ => [t]
  }

  function LeavesOf(ms: seq<Type>): seq<Type>
    decreases ms, 0
  {
    if ms == [] then [] else Leaves(ms[0]) + LeavesOf(ms[1..])
  }

  /** The bytes of a leaf whose values all take as many; none for the others. */
  function Width(leaf: Type): Option<nat> {
    match leaf
    case TBool => Some(1)
    case TByte => Some(1)
    case TInt(w) => Some(w)
    case TFloat(w) => Some(w)
    case _ => None
  }

  /** Every value takes as many bytes. */
  predicate Flat(t: Type) {
    forall l <- Leaves(t) :: Width(l).Some?
  }

  /** One byte for each leaf whose size varies. */
  function LeastBytes(leaves: seq<Type>): nat {
    if leaves == [] then 0
    else (if Width(leaves[0]).Some? then Width(leaves[0]).value else 1) + LeastBytes(leaves[1..])
  }

  lemma {:induction false} LeastJoins(a: seq<Type>, b: seq<Type>)
    ensures LeastBytes(a + b) == LeastBytes(a) + LeastBytes(b)
  {
    if a == [] {
      assert a + b == b;
    } else {
      LeastJoins(a[1..], b);
      assert (a + b)[1..] == a[1..] + b;
    }
  }

  /** The traits, read off the leaves: fixedLength if none varies, and minWireSize the sum of what each takes at least. */
  lemma {:induction false} TraitsAre(t: Type)
    ensures FixedLength(t) <==> Flat(t)
    ensures MinWireSize(t) == LeastBytes(Leaves(t))
    decreases t, 0
  {
    match t
    case TStruct(ms) => TraitsOf(ms);
    case _ =>
      assert LeastBytes([t][1..]) == 0;
      assert t in Leaves(t);
  }

  lemma {:induction false} TraitsOf(ms: seq<Type>)
    ensures (forall m <- ms :: FixedLength(m)) <==> forall l <- LeavesOf(ms) :: Width(l).Some?
    ensures MinWireSizes(ms) == LeastBytes(LeavesOf(ms))
    decreases ms, 0
  {
    if ms != [] {
      TraitsAre(ms[0]);
      TraitsOf(ms[1..]);
      LeastJoins(Leaves(ms[0]), LeavesOf(ms[1..]));
      assert ms == [ms[0]] + ms[1..];
    }
  }
}

/**
 Base64 as section 6.8 of RFC 2045 describes it.

 Bit packing on unsigned chars is written with quotients and remainders; CutSextets and JoinSextets show that this is
 what the shifts, masks and ors compute.
 */
module Base64 {
  import opened Prelude

  // --------------------------------------------------------------- symbols

  type sextet = x: int | 0 <= x < 64

  function EncodeSymbol(uc: sextet): char {
    if uc < 26 then 'A' + uc as char
    else if uc < 52 then 'a' + (uc - 26) as char
    else if uc < 62 then '0' + (uc - 52) as char
    else if uc == 62 then '+'
    else '/'
  }

  /** Characters outside the alphabet, the padding character among them, decode to 63. */
  function DecodeSymbol(c: char): sextet {
    if 'A' <= c <= 'Z' then (c - 'A') as int
    else if 'a' <= c <= 'z' then (c - 'a') as int + 26
    else if '0' <= c <= '9' then (c - '0') as int + 52
    else if c == '+' then 62
    else 63
  }

  predicate IsBase64(c: char) {
    'A' <= c <= 'Z' || 'a' <= c <= 'z' || '0' <= c <= '9' || c == '+' || c == '/' || c == '='
  }

  lemma {:induction false} SymbolRoundTrip(uc: sextet)
    ensures DecodeSymbol(EncodeSymbol(uc)) == uc && IsBase64(EncodeSymbol(uc)) && EncodeSymbol(uc) != '='
  {
  }

  const UPPER: string := "ABCDEFGHIJKLMNOPQRSTUVWXYZ"
  const LOWER: string := "abcdefghijklmnopqrstuvwxyz"
  const DIGITS: string := "0123456789"

  /** The alphabet of table 1 in section 6.8 of RFC 2045. */
  const ALPHABET: string := UPPER + LOWER + DIGITS + "+/"

  lemma {:induction false} UpperIs(k: nat)
    requires k < 26
    ensures |UPPER| == 26 && UPPER[k] == 'A' + k as char
  {
  }

  lemma {:induction false} LowerIs(k: nat)
    requires k < 26
    ensures |LOWER| == 26 && LOWER[k] == 'a' + k as char
  {
  }

  lemma {:induction false} DigitIs(k: nat)
    requires k < 10
    ensures |DIGITS| == 10 && DIGITS[k] == '0' + k as char
  {
  }

  /** Symbol k is the k-th of the 64 characters of the alphabet. */
  lemma {:induction false} AlphabetIs(k: sextet)
    ensures |ALPHABET| == 64 && EncodeSymbol(k) == ALPHABET[k]
  {
    if k < 26 {
      UpperIs(k);
    } else if k < 52 {
      LowerIs(k - 26);
    } else if k < 62 {
      DigitIs(k - 52);
    }
  }

  lemma {:induction false} SymbolOf(c: char)
    requires IsBase64(c) && c != '='
    ensures EncodeSymbol(DecodeSymbol(c)) == c
  {
  }

  /** The filter keeps the characters of the alphabet and the padding character, and no others. */
  lemma {:induction false} KeptIff(c: char)
    ensures IsBase64(c) <==> c == '=' || c in ALPHABET
  {
    AlphabetIs(0);
    if IsBase64(c) && c != '=' {
      SymbolOf(c);
      AlphabetIs(DecodeSymbol(c));
    }
    if c in ALPHABET {
      var k :| 0 <= k < |ALPHABET| && ALPHABET[k] == c;
      AlphabetIs(k);
      SymbolRoundTrip(k);
    }
  }

  // --------------------------------------------------------------- bits

  /** The shifts and masks of the source, as arithmetic on words. */
  lemma {:induction false} Words(x: bv8, y: bv8)
    ensures x >> 2 == x / 4 && x & 0x3f == x % 64
    ensures ((x & 0x3) << 4) | (y >> 4) == x % 4 * 16 + y / 16
    ensures ((x & 0xf) << 2) | (y >> 6) == x % 16 * 4 + y / 64
    ensures x < 64 && y < 64 ==>
              && (x << 2) | (y >> 4) == x * 4 + y / 16
              && ((x & 0xf) << 4) | (y >> 2) == x % 16 * 16 + y / 4
              && ((x & 0x3) << 6) | y == x % 4 * 64 + y
  {
  }

  lemma {:induction false} Quotients(x: bv8)
    ensures (x / 4) as int == x as int / 4 && (x / 16) as int == x as int / 16 && (x / 64) as int == x as int / 64
  {
  }

  lemma {:induction false} Remainder16(x: bv8)
    ensures (x % 16) as int == x as int % 16
  {
  }

  lemma {:induction false} Small(x: bv8)
    requires x as int < 64
    ensures x < 64
  {
  }

  lemma {:induction false} WordOf(a: nat) returns (x: bv8)
    requires a < 256
    ensures x as int == a
  {
    if a == 0 {
      x := 0;
    } else {
      x := WordOf(a - 1);
      x := x + 1;
    }
  }

  lemma {:induction false} ThereAndBack(a: int)
    requires 0 <= a < 256
    ensures (a as bv8) as int == a
  {
    var x := WordOf(a);
  }

  method Word(a: int) returns (x: bv8)
    requires 0 <= a < 256
    ensures x as int == a
  {
    ThereAndBack(a);
    x := a as bv8;
  }

  method Sextet4(by1: bv8) returns (r: int)
    ensures r == by1 as int / 4
  {
    Words(by1, by1);
    Quotients(by1);
    r := (by1 >> 2) as int;
  }

  method Sextet5(by1: bv8, by2: bv8) returns (r: int)
    ensures r == by1 as int % 4 * 16 + by2 as int / 16
  {
    Words(by1, by2);
    Quotients(by2);
    r := (((by1 & 0x3) << 4) | (by2 >> 4)) as int;
  }

  method Sextet6(by2: bv8, by3: bv8) returns (r: int)
    ensures r == by2 as int % 16 * 4 + by3 as int / 64
  {
    Words(by2, by3);
    Quotients(by3);
    Remainder16(by2);
    r := (((by2 & 0xf) << 2) | (by3 >> 6)) as int;
  }

  method Sextet7(by3: bv8) returns (r: int)
    ensures r == by3 as int % 64
  {
    Words(by3, by3);
    r := (by3 & 0x3f) as int;
  }

  method Byte1(by1: bv8, by2: bv8) returns (r: int)
    requires by1 as int < 64 && by2 as int < 64
    ensures r == by1 as int * 4 + by2 as int / 16
  {
    Small(by1);
    Small(by2);
    Words(by1, by2);
    Quotients(by2);
    r := ((by1 << 2) | (by2 >> 4)) as int;
  }

  method Byte2(by2: bv8, by3: bv8) returns (r: int)
    requires by2 as int < 64 && by3 as int < 64
    ensures r == by2 as int % 16 * 16 + by3 as int / 4
  {
    Small(by2);
    Small(by3);
    Words(by2, by3);
    Quotients(by3);
    Remainder16(by2);
    r := (((by2 & 0xf) << 4) | (by3 >> 2)) as int;
  }

  method Byte3(by3: bv8, by4: bv8) returns (r: int)
    requires by3 as int < 64 && by4 as int < 64
    ensures r == by3 as int % 4 * 64 + by4 as int
  {
    Small(by3);
    Small(by4);
    Words(by3, by4);
    r := (((by3 & 0x3) << 6) | by4) as int;
  }

  // --------------------------------------------------------------- groups

  /** The four characters for up to three bytes; missing bytes count as zero and show as padding. */
  function Group(x: seq<byte>): string
    requires 0 < |x| <= 3
  {
    var by1, by2, by3 := x[0], if |x| > 1 then x[1] else 0, if |x| > 2 then x[2] else 0;
    [EncodeSymbol(by1 / 4),
     EncodeSymbol(by1 % 4 * 16 + by2 / 16),
     if |x| > 1 then EncodeSymbol(by2 % 16 * 4 + by3 / 64) else '=',
     if |x| > 2 then EncodeSymbol(by3 % 64) else '=']
  }

  lemma {:induction false} TwentyFourBits(a: byte, b: byte, c: byte)
    ensures ((a / 4 * 64 + (a % 4 * 16 + b / 16)) * 64 + (b % 16 * 4 + c / 64)) * 64 + c % 64 == (a * 256 + b) * 256 + c
    ensures (a / 4 * 64 + (a % 4 * 16 + b / 16)) * 64 + b % 16 * 4 == (a * 256 + b) * 4
    ensures a / 4 * 64 + a % 4 * 16 == a * 16
  {
  }

  lemma {:induction false} SextetsOf(a: byte, b: byte, c: byte)
    ensures a / 4 < 64 && a % 4 * 16 + b / 16 < 64 && b % 16 * 4 + c / 64 < 64 && c % 64 < 64
    ensures DecodeSymbol(EncodeSymbol(a / 4)) == a / 4
    ensures DecodeSymbol(EncodeSymbol(a % 4 * 16 + b / 16)) == a % 4 * 16 + b / 16
    ensures DecodeSymbol(EncodeSymbol(b % 16 * 4 + c / 64)) == b % 16 * 4 + c / 64
    ensures DecodeSymbol(EncodeSymbol(c % 64)) == c % 64
  {
    SymbolRoundTrip(a / 4);
    SymbolRoundTrip(a % 4 * 16 + b / 16);
    SymbolRoundTrip(b % 16 * 4 + c / 64);
    SymbolRoundTrip(c % 64);
  }

  /** A group's symbols are the digits to base 64, and its bytes the digits to base 256, of one number of 24 bits. */
  lemma {:induction false} GroupIsOneNumber(a: byte, b: byte, c: byte)
    ensures var g := Group([a, b, c]);
            var d0, d1, d2, d3 := DecodeSymbol(g[0]), DecodeSymbol(g[1]), DecodeSymbol(g[2]), DecodeSymbol(g[3]);
            ((d0 * 64 + d1) * 64 + d2) * 64 + d3 == (a * 256 + b) * 256 + c
  {
    SextetsOf(a, b, c);
    TwentyFourBits(a, b, c);
  }

  /** Missing bytes count as zero, and the symbols that would come of them alone are padding. */
  lemma {:induction false} ShortGroups(a: byte, b: byte)
    ensures var g := Group([a, b]);
            && (DecodeSymbol(g[0]) * 64 + DecodeSymbol(g[1])) * 64 + DecodeSymbol(g[2]) == (a * 256 + b) * 4
            && g[3] == '='
    ensures var g := Group([a]); DecodeSymbol(g[0]) * 64 + DecodeSymbol(g[1]) == a * 16 && g[2] == g[3] == '='
  {
    SextetsOf(a, b, 0);
    SextetsOf(a, 0, 0);
    TwentyFourBits(a, b, 0);
  }

  function Symbols(x: seq<byte>): string {
    if |x| == 0 then [] else if |x| <= 3 then Group(x) else Group(x[..3]) + Symbols(x[3..])
  }

  /** The one to three bytes of four characters. */
  function Ungroup(c1: char, c2: char, c3: char, c4: char): seq<byte> {
    var by1, by2, by3, by4 := DecodeSymbol(c1), DecodeSymbol(c2), DecodeSymbol(c3), DecodeSymbol(c4);
    [by1 * 4 + by2 / 16] +
    (if c3 != '=' then [by2 % 16 * 16 + by3 / 4] else []) +
    (if c4 != '=' then [by3 % 4 * 64 + by4] else [])
  }

  function CharAt(s: string, i: nat): char {
    if i < |s| then s[i] else 'A'
  }

  function Unpack(s: string): seq<byte>
    decreases |s|
  {
    if s == [] then []
    else Ungroup(s[0], CharAt(s, 1), CharAt(s, 2), CharAt(s, 3)) + Unpack(if |s| > 4 then s[4..] else [])
  }

  function Filter(s: string): string {
    if s == [] then []
    else Filter(s[..|s| - 1]) + (if IsBase64(s[|s| - 1]) then [s[|s| - 1]] else [])
  }

  /** Lines of 76 characters, separated by CRLF. */
  function Fold(s: string): string {
    if |s| > 76 then s[..76] + "\r\n" + Fold(s[76..]) else s
  }

  // --------------------------------------------------------------- the loops

  /** The symbols of what is left from index i on. */
  function SymbolsAt(x: seq<byte>, i: nat): string {
    if i < |x| then Symbols(x[i..]) else []
  }

  lemma {:induction false} GroupTaken(x: seq<byte>, i: nat, before: string, group: string)
    requires i < |x| && group == Group(if i + 3 < |x| then x[i..i + 3] else x[i..])
    ensures before + group + SymbolsAt(x, i + 3) == before + SymbolsAt(x, i)
  {
  }

  method Encode(plainSeq: seq<byte>) returns (outString: string)
    ensures outString == Fold(Symbols(plainSeq))
  {
    var retval: string := [];
    if |plainSeq| == 0 {
      return retval;
    }
    var i := 0;
    assert plainSeq[0..] == plainSeq;
    while i < |plainSeq|
      invariant retval + SymbolsAt(plainSeq, i) == Symbols(plainSeq)
    {
      var group := EncodeGroup(plainSeq, i);
      GroupTaken(plainSeq, i, retval, group);
      retval := retval + group;
      i := i + 3;
    }
    assert retval + [] == retval;
    outString := FoldLines(retval);
  }

  /** One round of the encoding loop. */
  method CutSextets(by1: byte, by2: byte, by3: byte) returns (by4: int, by5: int, by6: int, by7: int)
    ensures by4 == by1 / 4 && by5 == by1 % 4 * 16 + by2 / 16 && by6 == by2 % 16 * 4 + by3 / 64 && by7 == by3 % 64
  {
    var b1 := Word(by1);
    var b2 := Word(by2);
    var b3 := Word(by3);
    by4 := Sextet4(b1);
    by5 := Sextet5(b1, b2);
    by6 := Sextet6(b2, b3);
    by7 := Sextet7(b3);
  }

  method EncodeGroup(plainSeq: seq<byte>, i: nat) returns (retval: string)
    requires i < |plainSeq|
    ensures retval == Group(if i + 3 < |plainSeq| then plainSeq[i..i + 3] else plainSeq[i..])
  {
    var by1, by2: byte, by3: byte := plainSeq[i], 0, 0;
    if i + 1 < |plainSeq| {
      by2 := plainSeq[i + 1];
    }
    if i + 2 < |plainSeq| {
      by3 := plainSeq[i + 2];
    }
    var by4, by5, by6, by7 := CutSextets(by1, by2, by3);
    retval := [EncodeSymbol(by4)];
    retval := retval + [EncodeSymbol(by5)];
    if i + 1 < |plainSeq| {
      retval := retval + [EncodeSymbol(by6)];
    } else {
      retval := retval + "=";
    }
    if i + 2 < |plainSeq| {
      retval := retval + [EncodeSymbol(by7)];
    } else {
      retval := retval + "=";
    }
  }

  method FoldLines(retval: string) returns (outString: string)
    ensures outString == Fold(retval)
  {
    outString := [];
    var iter := 0;
    while |retval| - iter > 76
      invariant iter <= |retval| && outString + Fold(retval[iter..]) == Fold(retval)
    {
      ghost var rest := retval[iter..];
      outString := outString + retval[iter..iter + 76];
      outString := outString + "\r\n";
      assert rest[..76] == retval[iter..iter + 76] && rest[76..] == retval[iter + 76..];
      iter := iter + 76;
    }
    outString := outString + retval[iter..];
  }

  method Decode(str: string) returns (retval: seq<byte>)
    ensures retval == Unpack(Filter(str))
  {
    var newStr: string := [];
    for j := 0 to |str|
      invariant newStr == Filter(str[..j])
    {
      assert str[..j + 1][..j] == str[..j];
      if IsBase64(str[j]) {
        newStr := newStr + [str[j]];
      }
    }
    assert str[..|str|] == str;
    retval := [];
    if |newStr| == 0 {
      return;
    }
    var i := 0;
    assert newStr[0..] == newStr;
    while i < |newStr|
      invariant retval + Unpack(if i < |newStr| then newStr[i..] else []) == Unpack(newStr)
    {
      ghost var rest := newStr[i..];
      assert |rest| > 4 ==> rest[4..] == newStr[i + 4..];
      var group := DecodeGroup(newStr, i);
      retval := retval + group;
      i := i + 4;
    }
  }

  /** One round of the decoding loop. */
  method JoinSextets(by1: sextet, by2: sextet, by3: sextet, by4: sextet) returns (out1: int, out2: int, out3: int)
    ensures out1 == by1 * 4 + by2 / 16 && out2 == by2 % 16 * 16 + by3 / 4 && out3 == by3 % 4 * 64 + by4
  {
    var b1 := Word(by1);
    var b2 := Word(by2);
    var b3 := Word(by3);
    var b4 := Word(by4);
    out1 := Byte1(b1, b2);
    out2 := Byte2(b2, b3);
    out3 := Byte3(b3, b4);
  }

  method DecodeGroup(newStr: string, i: nat) returns (retval: seq<byte>)
    requires i < |newStr|
    ensures retval == Ungroup(newStr[i], CharAt(newStr[i..], 1), CharAt(newStr[i..], 2), CharAt(newStr[i..], 3))
  {
    var c1, c2, c3, c4 := newStr[i], 'A', 'A', 'A';
    if i + 1 < |newStr| {
      c2 := newStr[i + 1];
    }
    if i + 2 < |newStr| {
      c3 := newStr[i + 2];
    }
    if i + 3 < |newStr| {
      c4 := newStr[i + 3];
    }
    var by1, by2, by3, by4 := DecodeSymbol(c1), DecodeSymbol(c2), DecodeSymbol(c3), DecodeSymbol(c4);
    var out1, out2, out3 := JoinSextets(by1, by2, by3, by4);
    retval := [out1];
    if c3 != '=' {
      retval := retval + [out2];
    }
    if c4 != '=' {
      retval := retval + [out3];
    }
  }

  // --------------------------------------------------------------- round trip

  /** Twenty-four bits cut into four sextets, and put together again. */
  lemma {:induction false} PackedBits(by1: byte, by2: byte, by3: byte)
    ensures by1 % 4 * 16 + by2 / 16 < 64 && by2 % 16 * 4 + by3 / 64 < 64
    ensures by1 / 4 * 4 + (by1 % 4 * 16 + by2 / 16) / 16 == by1
    ensures (by1 % 4 * 16 + by2 / 16) % 16 * 16 + (by2 % 16 * 4 + by3 / 64) / 4 == by2
    ensures (by2 % 16 * 4 + by3 / 64) % 4 * 64 + by3 % 64 == by3
  {
  }

  lemma {:induction false} UngroupSymbols(a: sextet, b: sextet, c: sextet, d: sextet)
    ensures Ungroup(EncodeSymbol(a), EncodeSymbol(b), '=', '=') == [a * 4 + b / 16]
    ensures Ungroup(EncodeSymbol(a), EncodeSymbol(b), EncodeSymbol(c), '=') == [a * 4 + b / 16, b % 16 * 16 + c / 4]
    ensures Ungroup(EncodeSymbol(a), EncodeSymbol(b), EncodeSymbol(c), EncodeSymbol(d)) ==
            [a * 4 + b / 16, b % 16 * 16 + c / 4, c % 4 * 64 + d]
  {
    SymbolRoundTrip(a);
    SymbolRoundTrip(b);
    SymbolRoundTrip(c);
    SymbolRoundTrip(d);
  }

  lemma {:induction false} TwoBytes(a: byte, b: byte)
    ensures var g := Group([a, b]); Ungroup(g[0], g[1], g[2], g[3]) == [a, b]
  {
    PackedBits(a, b, 0);
    UngroupSymbols(a / 4, a % 4 * 16 + b / 16, b % 16 * 4, 0);
    assert Group([a, b]) == [EncodeSymbol(a / 4), EncodeSymbol(a % 4 * 16 + b / 16), EncodeSymbol(b % 16 * 4), '='];
  }

  lemma {:induction false} ThreeBytes(a: byte, b: byte, c: byte)
    ensures var g := Group([a, b, c]); Ungroup(g[0], g[1], g[2], g[3]) == [a, b, c]
  {
    PackedBits(a, b, c);
    Unpacked(Group([a, b, c]), a / 4, a % 4 * 16 + b / 16, b % 16 * 4 + c / 64, c % 64, a, b, c);
  }

  lemma {:induction false} Unpacked(g: string, p: sextet, q: sextet, r: sextet, s: sextet, a: byte, b: byte, c: byte)
    requires g == [EncodeSymbol(p), EncodeSymbol(q), EncodeSymbol(r), EncodeSymbol(s)]
    requires p * 4 + q / 16 == a && q % 16 * 16 + r / 4 == b && r % 4 * 64 + s == c
    ensures Ungroup(g[0], g[1], g[2], g[3]) == [a, b, c]
  {
    UngroupSymbols(p, q, r, s);
  }

  lemma {:induction false} GroupRoundTrip(x: seq<byte>)
    requires 0 < |x| <= 3
    ensures var g := Group(x); Ungroup(g[0], g[1], g[2], g[3]) == x
  {
    if |x| == 1 {
      assert x == [x[0]];
    } else if |x| == 2 {
      TwoBytes(x[0], x[1]);
      assert x == [x[0], x[1]];
    } else {
      ThreeBytes(x[0], x[1], x[2]);
      assert x == [x[0], x[1], x[2]];
    }
  }

  lemma {:induction false} GroupIsBase64(x: seq<byte>)
    requires 0 < |x| <= 3
    ensures forall c <- Group(x) :: IsBase64(c)
  {
  }

  lemma {:induction false} UnpackSymbols(x: seq<byte>)
    ensures Unpack(Symbols(x)) == x
    ensures forall c <- Symbols(x) :: IsBase64(c)
  {
    if |x| > 3 {
      GroupRoundTrip(x[..3]);
      GroupIsBase64(x[..3]);
      UnpackSymbols(x[3..]);
      var g := Group(x[..3]);
      var s := Symbols(x);
      assert s == g + Symbols(x[3..]);
      assert |Symbols(x[3..])| > 0;
      assert s[4..] == Symbols(x[3..]);
      assert x == x[..3] + x[3..];
    } else if |x| > 0 {
      GroupRoundTrip(x);
      GroupIsBase64(x);
    }
  }

  lemma {:induction false} FilterConcat(a: string, b: string)
    ensures Filter(a + b) == Filter(a) + Filter(b)
  {
    if b == [] {
      assert a + b == a;
    } else {
      FilterConcat(a, b[..|b| - 1]);
      assert (a + b)[..|a + b| - 1] == a + b[..|b| - 1];
    }
  }

  lemma {:induction false} FilterKeeps(s: string)
    requires forall c <- s :: IsBase64(c)
    ensures Filter(s) == s
  {
    if s != [] {
      assert s == s[..|s| - 1] + [s[|s| - 1]];
      FilterKeeps(s[..|s| - 1]);
    }
  }

  /** Line breaks vanish again when text is filtered. */
  lemma {:induction false} FilterFold(s: string)
    requires forall c <- s :: IsBase64(c)
    ensures Filter(Fold(s)) == s
  {
    if |s| > 76 {
      var head, tail := s[..76], s[76..];
      FilterFold(tail);
      FilterKeeps(head);
      FilterConcat(head + "\r\n", Fold(tail));
      FilterConcat(head, "\r\n");
      assert Filter("\r\n") == [] by {
        assert "\r\n"[..1] == "\r" && "\r"[..0] == "";
      }
      assert s == head + tail;
    } else {
      FilterKeeps(s);
    }
  }

  /** decode(encode(x)) == x, for every byte sequence. */
  lemma {:induction false} RoundTrip(x: seq<byte>)
    ensures Unpack(Filter(Fold(Symbols(x)))) == x
  {
    UnpackSymbols(x);
    FilterFold(Symbols(x));
  }

  /** Characters outside the alphabet may be inserted anywhere without changing what is decoded. */
  lemma {:induction false} NoiseIsIgnored(x: seq<byte>, a: string, noise: string, b: string)
    requires a + b == Fold(Symbols(x)) && forall c <- noise :: !IsBase64(c)
    ensures Unpack(Filter(a + noise + b)) == x
  {
    calc {
      Filter(a + noise + b);
      { FilterConcat(a + noise, b); }
      Filter(a + noise) + Filter(b);
      { FilterConcat(a, noise); FilterDrops(noise); }
      Filter(a) + [] + Filter(b);
      { FilterConcat(a, b); }
      Filter(a + b);
    }
    RoundTrip(x);
  }

  lemma {:induction false} FilterDrops(s: string)
    requires forall c <- s :: !IsBase64(c)
    ensures Filter(s) == []
  {
    if s != [] {
      assert s == s[..|s| - 1] + [s[|s| - 1]];
      FilterDrops(s[..|s| - 1]);
    }
  }

  // --------------------------------------------------------------- any other text

  /** Four characters that are no padding are the 24 bits of three bytes, whatever the characters are. */
  lemma {:induction false} UngroupIsOneNumber(c1: char, c2: char, c3: char, c4: char)
    requires c3 != '=' && c4 != '='
    ensures var d0, d1, d2, d3 := DecodeSymbol(c1), DecodeSymbol(c2), DecodeSymbol(c3), DecodeSymbol(c4);
            var x := Ungroup(c1, c2, c3, c4);
            |x| == 3 && (x[0] as int * 256 + x[1] as int) * 256 + x[2] as int == ((d0 * 64 + d1) * 64 + d2) * 64 + d3
  {
    JoinedBits(DecodeSymbol(c1), DecodeSymbol(c2), DecodeSymbol(c3), DecodeSymbol(c4));
  }

  lemma {:induction false} JoinedBits(d0: sextet, d1: sextet, d2: sextet, d3: sextet)
    ensures ((d0 * 4 + d1 / 16) * 256 + (d1 % 16 * 16 + d2 / 4)) * 256 + (d2 % 4 * 64 + d3) ==
            ((d0 * 64 + d1) * 64 + d2) * 64 + d3
  {
  }

  /** Padding drops the byte of its own place, and only that: the place before it need not be padding too. */
  lemma {:induction false} PaddingDrops(c1: char, c2: char, c3: char, c4: char)
    requires c3 != '=' && c4 != '='
    ensures var x := Ungroup(c1, c2, c3, c4);
            && Ungroup(c1, c2, c3, '=') == x[..2]
            && Ungroup(c1, c2, '=', '=') == x[..1]
            && Ungroup(c1, c2, '=', c4) == [x[0], 192 + DecodeSymbol(c4)]
  {
  }

  lemma {:induction false} ShortText(s: string, more: string)
    requires 0 < |s| && |s| + |more| == 4 && forall i | 0 <= i < |more| :: more[i] == 'A'
    ensures Unpack(s + more) == Unpack(s)
  {
    var t := s + more;
    assert forall i | |s| <= i < 4 :: t[i] == more[i - |s|];
  }

  lemma {:induction false} UnpackFirst(s: string, rest: string)
    requires |s| == 4
    ensures Unpack(s + rest) == Ungroup(s[0], s[1], s[2], s[3]) + Unpack(rest)
  {
    assert rest != [] ==> (s + rest)[4..] == rest;
  }

  /** Text that ends within a group is decoded as if 'A's, which stand for zero bits, filled the group. */
  lemma {:induction false} EndWithinAGroup(s: string, more: string)
    requires |more| < 4 && (|s| + |more|) % 4 == 0 && forall i | 0 <= i < |more| :: more[i] == 'A'
    ensures Unpack(s + more) == Unpack(s)
    decreases |s|
  {
    if |s| >= 4 {
      EndWithinAGroup(s[4..], more);
      OneGroupOn(s, more);
    } else if s != [] {
      ShortText(s, more);
    }
  }

  lemma {:induction false} OneGroupOn(s: string, more: string)
    requires |s| >= 4 && Unpack(s[4..] + more) == Unpack(s[4..])
    ensures Unpack(s + more) == Unpack(s)
  {
    UnpackFirst(s[..4], s[4..] + more);
    UnpackFirst(s[..4], s[4..]);
    assert s[..4] + (s[4..] + more) == s + more && s[..4] + s[4..] == s;
  }

  // --------------------------------------------------------------- the shape of the output

  lemma {:induction false} OneGroupLess(n: nat)
    requires n > 3
    ensures (n + 2) / 3 == 1 + (n - 3 + 2) / 3 && (n - 3) % 3 == n % 3
  {
  }

  /** How many padding characters end the text of n bytes. */
  function Padding(n: nat): nat {
    (3 - n % 3) % 3
  }

  lemma {:induction false} SymbolLength(x: seq<byte>)
    ensures |Symbols(x)| == 4 * ((|x| + 2) / 3)
  {
    if |x| > 3 {
      SymbolLength(x[3..]);
      OneGroupLess(|x|);
    }
  }

  lemma {:induction false} PaddingIsLast(x: seq<byte>)
    ensures forall i | 0 <= i < |Symbols(x)| :: Symbols(x)[i] == '=' <==> i >= |Symbols(x)| - Padding(|x|)
  {
    if |x| > 3 {
      PaddingIsLast(x[3..]);
      SymbolLength(x[3..]);
      GroupPadding(x[..3]);
      OneGroupLess(|x|);
    } else if |x| > 0 {
      GroupPadding(x);
    }
  }

  /** Four symbols for every three bytes begun, padded only at the very end. */
  lemma {:induction false} SymbolCount(x: seq<byte>)
    ensures |Symbols(x)| == 4 * ((|x| + 2) / 3)
    ensures forall i | 0 <= i < |Symbols(x)| :: Symbols(x)[i] == '=' <==> i >= |Symbols(x)| - Padding(|x|)
  {
    SymbolLength(x);
    PaddingIsLast(x);
  }

  lemma {:induction false} GroupPadding(x: seq<byte>)
    requires 0 < |x| <= 3
    ensures forall i | 0 <= i < 4 :: Group(x)[i] == '=' <==> i > |x|
  {
    var by1, by2, by3 := x[0], if |x| > 1 then x[1] else 0, if |x| > 2 then x[2] else 0;
    SymbolRoundTrip(by1 / 4);
    SymbolRoundTrip(by1 % 4 * 16 + by2 / 16);
    SymbolRoundTrip(by2 % 16 * 4 + by3 / 64);
    SymbolRoundTrip(by3 % 64);
  }

  /** What stands at position i of the folded text: a symbol, or half of a line break after each 76 symbols. */
  function FoldedAt(s: string, i: nat): Option<char> {
    if i % 78 == 76 then Some('\r')
    else if i % 78 == 77 then Some('\n')
    else if i / 78 * 76 + i % 78 < |s| then Some(s[i / 78 * 76 + i % 78])
    else None
  }

  lemma {:induction false} FoldedSize(s: string)
    requires s != []
    ensures |Fold(s)| == |s| + 2 * ((|s| - 1) / 76)
  {
    if |s| > 76 {
      FoldedSize(s[76..]);
    }
  }

  lemma {:induction false} FoldedLength(s: string)
    requires s != []
    ensures |Fold(s)| == |s| + 2 * ((|s| - 1) / 76)
    ensures 0 < |Fold(s)| % 78 <= 76
  {
    FoldedSize(s);
  }

  /** Every character of the folded text by position; it has no line break at its end, and no empty last line. */
  lemma {:induction false} FoldedText(s: string)
    requires s != []
    ensures |Fold(s)| == |s| + 2 * ((|s| - 1) / 76)
    ensures 0 < |Fold(s)| % 78 <= 76
    ensures forall i | 0 <= i < |Fold(s)| :: FoldedAt(s, i) == Some(Fold(s)[i])
  {
    FoldedLength(s);
    forall i | 0 <= i < |Fold(s)|
      ensures FoldedAt(s, i) == Some(Fold(s)[i])
    {
      FoldedChar(s, i);
    }
  }

  lemma {:induction false} FoldedChar(s: string, i: nat)
    requires i < |Fold(s)|
    ensures FoldedAt(s, i) == Some(Fold(s)[i])
  {
    if i < 76 {
      assert i / 78 == 0 && i % 78 == i;
    } else if i >= 78 {
      FoldedChar(s[76..], i - 78);
    }
  }
}

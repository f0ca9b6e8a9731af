/** The public stream's write() of an optional member, which goes on to write the value whether or not it wrote a tag. */
module OutputOptionals {
  import opened Prelude
  import opened Wire
  import opened WireProofs
  import opened Optionals
  import opened OptionalsProofs
  import opened Encaps
  import opened EncapsProofs

  predicate CanWrite(enc10: bool, tag: int, t: Type, v: OptValue) {
    0 <= tag <= MAX_INT && WellFormed(t) && (v.Present? ==> FitsOptional(enc10, t, v.v))
  }

  /** OutputStream::write(tag, optional): the result of writeOptional() is not looked at. */
  function OutputWrite(enc10: bool, tag: int, t: Type, v: OptValue): seq<byte>
    requires CanWrite(enc10, tag, t, v)
  {
    if v.Absent? then []
    else (if enc10 then [] else Header(tag, FormatOf(t))) + Payload(enc10, t, v.v)
  }

  /** The members a reader of encoding 1.1 sees in it. */
  function AsMembers(tag: int, t: Type, v: OptValue): seq<Member> {
    if v.Absent? then [] else [Member(tag, t, v.v)]
  }

  lemma {:induction false} WritesMembers(tag: int, t: Type, v: OptValue)
    requires CanWrite(false, tag, t, v)
    ensures AllWritable(AsMembers(tag, t, v)) && Ascending(Tags(AsMembers(tag, t, v)))
    ensures OptsBytes(false, AsMembers(tag, t, v)) == OutputWrite(false, tag, t, v)
  {
    if v.Present? {
      var ms := AsMembers(tag, t, v);
      assert WriteMembers(ms) == MemberBytes(ms[0]) + WriteMembers(ms[1..]);
    }
  }

  /**
   As the last thing in an encapsulation, what it wrote is read back under its tag, and the encapsulation ends with it,
   if and only if the encoding is 1.1 or there was no value.
   */
  lemma {:induction false} OutputReadsBack(b: seq<byte>, r: Reader, tag: int, t: Type, v: OptValue)
    requires r.stack != [] && |b| <= MAX_INT && Tracked(r.c, 0)
    requires var enc10 := ReadEncoding10(r);
             && CanWrite(enc10, tag, t, v) && At(b, r.c.i, OutputWrite(enc10, tag, t, v))
             && var f := r.stack[|r.stack| - 1]; f.start + f.sz == r.c.i + |OutputWrite(enc10, tag, t, v)|
    ensures var f := r.stack[|r.stack| - 1];
            EndsWith(b, r, [Request(tag, t)], [v], f.start + f.sz) <==> !ReadEncoding10(r) || v == Absent
  {
    var f, asks := r.stack[|r.stack| - 1], [Request(tag, t)];
    if !f.enc10 {
      var n := Encapsulation(false, [], AsMembers(tag, t, v));
      WritesMembers(tag, t, v);
      OptsThenEnd(b, r, asks, n, f);
      assert ExpectedAnswers(asks, n) == [v];
    } else if v.Absent? {
      assert ReadOpts(asks, b, r).values == [Absent];
    } else {
      assert ReadOpts(asks, b, r).values[0] == Absent;
    }
  }

  /** In encoding 1.0 the byte 7, optional under tag 1, is written bare; its reader finds no member and does not move. */
  lemma {:induction false} OutputLosesAByte(r: Reader)
    requires r.stack != [] && ReadEncoding10(r) && r.c.i == 0
    ensures CanWrite(true, 1, TByte, Present(VInt(7))) && OutputWrite(true, 1, TByte, Present(VInt(7))) == [7]
    ensures ReadOpts([Request(1, TByte)], [7], r) == GotMembers([Absent], r.c)
  {
    assert ReadOpts([Request(1, TByte)], [7], r).values == [Absent];
  }
}

/** The stream buffer: a byte vector over realloc() with capped doubling and a delayed shrink. */
module Container {
  import opened Prelude

  // size_t arithmetic wraps at `word`; whether an allocation succeeds is the caller's choice of `ok`.

  function Max(a: nat, b: nat): nat { if a < b then b else a }
  function Min(a: nat, b: nat): nat { if b < a then b else a }

  /** 2 * x in size_t: twice a number below `word` wraps at most once. */
  function Doubled(x: nat, word: nat): nat {
    if 2 * x < word then 2 * x else 2 * x - word
  }

  /** The capacity reserve(n) asks for when n exceeds the capacity c. */
  function Grown(n: nat, c: nat, maxCapacity: nat, word: nat): nat
  {
    Max(240, Max(n, Min(Doubled(c, word), maxCapacity)))
  }

  /**
   The policy asks for no more than it must: of all capacities that are at least 240, hold n bytes, and are double the
   old one or the maximum, it is the least. Where doubling wraps, what is left of the double takes its place.
   */
  lemma {:induction false} LeastCapacity(n: nat, c: nat, maxCapacity: nat, word: nat, k: nat)
    requires c < word
    ensures 2 * c < word ==>
              (Grown(n, c, maxCapacity, word) <= k <==> 240 <= k && n <= k && (2 * c <= k || maxCapacity <= k))
    ensures 2 * c >= word ==>
              (Grown(n, c, maxCapacity, word) <= k <==> 240 <= k && n <= k && (2 * c - word <= k || maxCapacity <= k))
  {
  }

  /** What a call of reset() did, for the history of a buffer. */
  datatype ResetEvent = Spared | Counted | Shrunk

  /** The number of resets counted since the last one that was spared or shrank the buffer. */
  function Streak(resets: seq<ResetEvent>): nat {
    if resets == [] || resets[|resets| - 1] != Counted then 0 else Streak(resets[..|resets| - 1]) + 1
  }

  /** The history with one more reset. */
  function Recorded(resets: seq<ResetEvent>, e: ResetEvent): (r: seq<ResetEvent>)
    ensures Streak(r) == if e == Counted then Streak(resets) + 1 else 0
  {
    assert (resets + [e])[..|resets|] == resets;
    resets + [e]
  }

  predicate EndsInTwoCounted(resets: seq<ResetEvent>) {
    |resets| >= 2 && resets[|resets| - 1] == Counted && resets[|resets| - 2] == Counted
  }

  lemma {:induction false} StreakOfTwo(resets: seq<ResetEvent>)
    ensures Streak(resets) >= 2 <==> EndsInTwoCounted(resets)
  {
    if resets != [] && resets[|resets| - 1] == Counted {
      assert Streak(resets[..|resets| - 1]) > 0 <==> |resets| >= 2 && resets[|resets| - 2] == Counted;
    }
  }

  /** A non-empty buffer that uses less than half of its capacity, as reset() computes it. */
  predicate UnderHalf(size: nat, capacity: nat, word: nat)
  {
    size > 0 && Doubled(size, word) < capacity
  }

  class Container {
    var buf: array?<byte>
    var size: nat
    var capacity: nat
    var maxCapacity: nat
    var shrinkCounter: int
    const word: nat                      // size_t is a number below this
    ghost var copied: nat                // bytes moved by reallocations so far
    ghost var resets: seq<ResetEvent>

    ghost predicate Valid()
      reads this
    {
      && (buf == null <==> capacity == 0)
      && (buf != null ==> buf.Length == capacity)
      && size <= capacity < word
      && maxCapacity < word
      && shrinkCounter == Streak(resets)
    }

    ghost function Contents(): seq<byte>
      requires Valid()
      reads this, buf
    {
      if buf == null then [] else buf[..size]
    }

    constructor (maxCapacity: nat, word: nat)
      requires maxCapacity < word && 240 < word
      ensures Valid() && Contents() == [] && capacity == 0 && copied == 0 && resets == []
      ensures this.maxCapacity == maxCapacity && this.word == word
    {
      buf, size, capacity, shrinkCounter := null, 0, 0, 0;
      this.maxCapacity, this.word := maxCapacity, word;
      copied, resets := 0, [];
    }

    /** realloc(): a block of the new size with the old contents, or nothing. */
    method Reallocate(n: nat, ok: bool) returns (p: array?<byte>)
      requires n > 0 && (buf != null ==> size <= buf.Length)
      ensures ok <==> p != null
      ensures p != null ==> fresh(p) && p.Length == n
      ensures p != null && buf != null ==> forall i | 0 <= i < n && i < buf.Length :: p[i] == buf[i]
    {
      if !ok {
        return null;
      }
      var block := new byte[n](_ => 0);
      if buf != null {
        for i := 0 to Min(n, buf.Length)
          invariant forall j | 0 <= j < i :: block[j] == buf[j]
        {
          block[i] := buf[i];
        }
      }
      return block;
    }

    method Reserve(n: nat, ok: bool) returns (thrown: bool)
      requires Valid() && size <= n < word && 240 < word
      requires n > 0
      modifies this`buf, this`capacity, this`copied
      ensures Valid()
      ensures thrown <==> n != old(capacity) && !ok
      ensures thrown ==> buf == old(buf) && capacity == old(capacity) && copied == old(copied)
      ensures !thrown ==> capacity == if n > old(capacity) then Grown(n, old(capacity), maxCapacity, word) else n
      ensures !thrown ==> copied == old(copied) + (if n == old(capacity) then 0 else Min(old(capacity), capacity))
      ensures buf == old(buf) || fresh(buf)
      ensures Contents() == old(Contents())
    {
      var c := capacity;
      if n > capacity {
        capacity := Max(n, Min(Doubled(capacity, word), maxCapacity));
        capacity := Max(240, capacity);
      } else if n < capacity {
        capacity := n;
      } else {
        return false;
      }
      var p := Reallocate(capacity, ok);
      if p == null {
        capacity := c;
        return true;
      }
      copied := copied + Min(c, capacity);
      buf := p;
      return false;
    }

    method Clear()
      requires Valid()
      modifies this`buf, this`size, this`capacity
      ensures Valid() && Contents() == [] && buf == null && capacity == 0 && size == 0
    {
      buf, size, capacity := null, 0, 0;
    }

    /** Growing keeps what was there, shrinking keeps a prefix, and zero frees the storage. */
    method Resize(n: nat, ok: bool) returns (thrown: bool)
      requires Valid() && n < word && 240 < word
      modifies this`buf, this`size, this`capacity, this`copied
      ensures Valid()
      ensures thrown <==> n > old(capacity) && !ok
      ensures thrown ==> size == old(size) && capacity == old(capacity) && buf == old(buf) && Contents() == old(Contents())
      ensures !thrown ==> |Contents()| == n == size && Contents()[..Min(n, old(size))] == old(Contents())[..Min(n, old(size))]
      ensures !thrown ==> capacity == (if n == 0 then 0 else if n > old(capacity) then Grown(n, old(capacity), maxCapacity, word)
                                       else old(capacity))
      ensures copied == old(copied) + (if n > old(capacity) && !thrown then old(capacity) else 0)
      ensures buf == old(buf) || buf == null || fresh(buf)
    {
      if n == 0 {
        Clear();
      } else if n > capacity {
        thrown := Reserve(n, ok);
        if thrown {
          return;
        }
      }
      size := n;
      return false;
    }

    method PushBack(v: byte, ok: bool) returns (thrown: bool)
      requires Valid() && size + 1 < word && 240 < word
      modifies this`buf, this`size, this`capacity, this`copied, buf
      ensures Valid()
      ensures thrown <==> old(size) == old(capacity) && !ok
      ensures Contents() == if thrown then old(Contents()) else old(Contents()) + [v]
      ensures !thrown ==> capacity == AfterPush(old(size), old(capacity), maxCapacity, word)
      ensures !thrown ==> copied == old(copied) + PushCost(old(size), old(capacity))
      ensures thrown ==> copied == old(copied) && capacity == old(capacity)
      ensures buf == old(buf) || fresh(buf)
    {
      thrown := Resize(size + 1, ok);
      if thrown {
        return;
      }
      buf[size - 1] := v;
    }

    /**
     A client that fills an empty container byte by byte, up to the first allocation that fails: fewer than two bytes
     are moved for each byte.
     */
    method Fill(vs: seq<byte>, oks: seq<bool>) returns (pushed: nat)
      requires Valid() && capacity == 0 && |oks| == |vs| && 240 < word
      requires 2 * |vs| <= word && |vs| <= maxCapacity
      modifies this`buf, this`size, this`capacity, this`copied
      ensures Valid() && pushed <= |vs| && Contents() == vs[..pushed]
      ensures pushed < |vs| ==> !oks[pushed]
      ensures vs != [] ==> copied - old(copied) < 2 * |vs|
      ensures capacity == CapacityAfter(pushed, maxCapacity, word)
    {
      pushed := 0;
      while pushed < |vs|
        invariant Valid() && pushed <= |vs| && Contents() == vs[..pushed] && size == pushed
        invariant buf == null || fresh(buf)
        invariant capacity == CapacityAfter(pushed, maxCapacity, word)
        invariant copied == old(copied) + CopiedAfter(pushed, maxCapacity, word)
      {
        var thrown := PushBack(vs[pushed], oks[pushed]);
        if thrown {
          break;
        }
        pushed := pushed + 1;
      }
      if pushed > 0 {
        AmortisedGrowth(pushed, maxCapacity, word);
      }
    }

    /** Empty the buffer, keeping its storage unless it was under half full three times in a row. */
    method Reset(ok: bool) returns (thrown: bool)
      requires Valid() && 240 < word
      modifies this`buf, this`size, this`capacity, this`copied, this`shrinkCounter, this`resets
      ensures Valid() && maxCapacity == old(maxCapacity)
      ensures !thrown ==> Contents() == []
      ensures thrown ==> Contents() == old(Contents()) && capacity == old(capacity)
      ensures var under := UnderHalf(old(size), old(capacity), word);
              var due := under && EndsInTwoCounted(old(resets));
              && (thrown <==> due && old(size) != old(capacity) && !ok)
              && capacity == (if due && !thrown then old(size) else old(capacity))
              && resets == old(resets) + [if !under then Spared else if due && !thrown then Shrunk else Counted]
      ensures buf == old(buf) || fresh(buf)
    {
      StreakOfTwo(resets);
      ghost var before := resets;
      if size > 0 && Doubled(size, word) < capacity {
        shrinkCounter := shrinkCounter + 1;
        resets := Recorded(before, Counted);
        if shrinkCounter > 2 {
          thrown := Reserve(size, ok);
          if thrown {
            return;
          }
          resets := Recorded(before, Shrunk);
          shrinkCounter := 0;
        }
      } else {
        resets := Recorded(before, Spared);
        shrinkCounter := 0;
      }
      size := 0;
      return false;
    }

    /** Storage, size, capacity and the count of resets change hands; the limits stay with their containers. */
    method Swap(other: Container)
      requires Valid() && other.Valid() && other.word == word
      modifies this, other
      ensures Valid() && other.Valid()
      ensures Contents() == old(other.Contents()) && other.Contents() == old(Contents())
      ensures capacity == old(other.capacity) && other.capacity == old(capacity)
      ensures resets == old(other.resets) && other.resets == old(resets)
      ensures maxCapacity == old(maxCapacity) && other.maxCapacity == old(other.maxCapacity)
    {
      buf, other.buf := other.buf, buf;
      size, other.size := other.size, size;
      capacity, other.capacity := other.capacity, capacity;
      shrinkCounter, other.shrinkCounter := other.shrinkCounter, shrinkCounter;
      ghost var mine, theirs := resets, other.resets;
      resets, other.resets := theirs, mine;
    }
  }

  // --------------------------------------------------------------- repeated push_back

  /** The capacity after push_back() on a buffer with this size and capacity, and the bytes it moves. */
  function AfterPush(size: nat, c: nat, maxCapacity: nat, word: nat): nat
  {
    if size + 1 > c then Grown(size + 1, c, maxCapacity, word) else c
  }

  function PushCost(size: nat, c: nat): nat {
    if size + 1 > c then c else 0
  }

  /** The capacity of an empty container after n push_backs, and the bytes they moved in total. */
  function CapacityAfter(n: nat, maxCapacity: nat, word: nat): nat
  {
    if n == 0 then 0 else AfterPush(n - 1, CapacityAfter(n - 1, maxCapacity, word), maxCapacity, word)
  }

  function CopiedAfter(n: nat, maxCapacity: nat, word: nat): nat
  {
    if n == 0 then 0
    else CopiedAfter(n - 1, maxCapacity, word) + PushCost(n - 1, CapacityAfter(n - 1, maxCapacity, word))
  }

  /** The n-th push_back reallocates. */
  predicate Reallocates(n: nat, maxCapacity: nat, word: nat)
  {
    n > 0 && n > CapacityAfter(n - 1, maxCapacity, word)
  }

  /** The capacity just before the last reallocation. */
  function Outgrown(n: nat, maxCapacity: nat, word: nat): nat
  {
    if n == 0 then 0
    else if Reallocates(n, maxCapacity, word) then CapacityAfter(n - 1, maxCapacity, word)
    else Outgrown(n - 1, maxCapacity, word)
  }

  /** All reallocations together move at most twice the last capacity that was outgrown. */
  lemma {:induction false} CopiesBounded(n: nat, maxCapacity: nat, word: nat)
    requires 2 * n <= word && n <= maxCapacity
    ensures CopiedAfter(n, maxCapacity, word) <= 2 * Outgrown(n, maxCapacity, word)
    ensures n > 0 ==> Outgrown(n, maxCapacity, word) < n
    ensures CapacityAfter(n, maxCapacity, word) >= 2 * Outgrown(n, maxCapacity, word) ||
            CapacityAfter(n, maxCapacity, word) >= maxCapacity
  {
    if n > 0 {
      CopiesBounded(n - 1, maxCapacity, word);
    }
  }

  /** N push_backs move fewer than 2N bytes, whatever the maximum, as long as 2N is a size_t. */
  lemma {:induction false} AmortisedGrowth(n: nat, maxCapacity: nat, word: nat)
    requires 2 * n <= word && 0 < n <= maxCapacity
    ensures CopiedAfter(n, maxCapacity, word) < 2 * n
  {
    CopiesBounded(n, maxCapacity, word);
  }

  lemma {:induction false} CapacityGrows(n: nat, m: nat, maxCapacity: nat, word: nat)
    requires n <= m
    ensures CapacityAfter(n, maxCapacity, word) <= CapacityAfter(m, maxCapacity, word)
    decreases m
  {
    if n < m {
      CapacityGrows(n, m - 1, maxCapacity, word);
    }
  }

  /** Every reallocation that is followed by another at least doubles the capacity. */
  lemma {:induction false} AllButTheLastDouble(n: nat, later: nat, maxCapacity: nat, word: nat)
    requires 2 * n <= word && n < later <= maxCapacity
    requires Reallocates(n, maxCapacity, word) && Reallocates(later, maxCapacity, word)
    ensures CapacityAfter(n, maxCapacity, word) >= 240
    ensures CapacityAfter(n, maxCapacity, word) >= 2 * CapacityAfter(n - 1, maxCapacity, word)
  {
    CapacityGrows(n, later - 1, maxCapacity, word);
  }

  // --------------------------------------------------------------- where wrap-around shows

  /** Growing by one byte doubles (up to the maximum) if and only if doubling does not wrap, or one byte is all that is left. */
  lemma {:induction false} DoublingIffNoWrap(c: nat, maxCapacity: nat, word: nat)
    requires 240 <= c < maxCapacity < word
    ensures Grown(c + 1, c, maxCapacity, word) >= Min(2 * c, maxCapacity) <==> 2 * c < word || maxCapacity == c + 1
  {
  }

  /** On 32 bits a container limited to 2^32 - 1 bytes grows from 3.75 GiB byte by byte. */
  lemma {:induction false} WrapStopsDoubling()
    ensures Grown(4026531841, 4026531840, 0xffff_ffff, 0x1_0000_0000) == 4026531841
  {
  }

  /** On 32 bits reset() takes a buffer of 2 GiB for under half full although it is full. */
  lemma {:induction false} WrapTakesFullForEmpty()
    ensures UnderHalf(0x8000_0000, 0x8000_0000, 0x1_0000_0000)
  {
  }

  /** reset() takes a buffer for under half full exactly when it is, if and only if its doubled size does not wrap. */
  lemma {:induction false} UnderHalfIffNoWrap(size: nat, capacity: nat, word: nat)
    requires 0 < size <= capacity < word
    ensures (UnderHalf(size, capacity, word) <==> size * 2 < capacity) <==> size * 2 < word
  {
  }
}

/** Keys are totally ordered, and inserting an entry is updating a map. */
module WireKeys {
  import opened Prelude
  import opened Wire

  lemma {:induction false} BytesAsymmetric(a: seq<byte>, b: seq<byte>)
    ensures !(BytesLess(a, b) && BytesLess(b, a))
  {
    if a != [] && b != [] {
      BytesAsymmetric(a[1..], b[1..]);
    }
  }

  lemma {:induction false} BytesTotal(a: seq<byte>, b: seq<byte>)
    ensures BytesLess(a, b) || BytesLess(b, a) || a == b
  {
    if a != [] && b != [] {
      BytesTotal(a[1..], b[1..]);
      assert a == [a[0]] + a[1..] && b == [b[0]] + b[1..];
    }
  }

  lemma {:induction false} BytesTransitive(a: seq<byte>, b: seq<byte>, c: seq<byte>)
    requires BytesLess(a, b) && BytesLess(b, c)
    ensures BytesLess(a, c)
  {
    if a != [] && a[0] == b[0] && b[0] == c[0] {
      BytesTransitive(a[1..], b[1..], c[1..]);
    }
  }

  lemma {:induction false} Asymmetric(a: Value, b: Value)
    ensures !(KeyLess(a, b) && KeyLess(b, a))
    decreases a, 0
  {
    if a.VBytes? && b.VBytes? {
      BytesAsymmetric(a.bytes, b.bytes);
    } else if a.VSeq? && b.VSeq? {
      AllAsymmetric(a.elems, b.elems);
    }
  }

  lemma {:induction false} AllAsymmetric(a: seq<Value>, b: seq<Value>)
    ensures !(KeysLess(a, b) && KeysLess(b, a))
    decreases a, 0
  {
    if a != [] && b != [] {
      Asymmetric(a[0], b[0]);
      AllAsymmetric(a[1..], b[1..]);
    }
  }

  lemma {:induction false} Total(a: Value, b: Value)
    ensures KeyLess(a, b) || KeyLess(b, a) || a == b
    decreases a, 0
  {
    if a.VBytes? && b.VBytes? {
      BytesTotal(a.bytes, b.bytes);
    } else if a.VSeq? && b.VSeq? {
      AllTotal(a.elems, b.elems);
    }
  }

  lemma {:induction false} AllTotal(a: seq<Value>, b: seq<Value>)
    ensures KeysLess(a, b) || KeysLess(b, a) || a == b
    decreases a, 0
  {
    if a != [] && b != [] {
      Total(a[0], b[0]);
      AllTotal(a[1..], b[1..]);
      assert a == [a[0]] + a[1..] && b == [b[0]] + b[1..];
    }
  }

  lemma {:induction false} Transitive(a: Value, b: Value, c: Value)
    requires KeyLess(a, b) && KeyLess(b, c)
    ensures KeyLess(a, c)
    decreases a, 0
  {
    if a.VBytes? && b.VBytes? && c.VBytes? {
      BytesTransitive(a.bytes, b.bytes, c.bytes);
    } else if a.VSeq? && b.VSeq? && c.VSeq? {
      AllTransitive(a.elems, b.elems, c.elems);
    }
  }

  lemma {:induction false} AllTransitive(a: seq<Value>, b: seq<Value>, c: seq<Value>)
    requires KeysLess(a, b) && KeysLess(b, c)
    ensures KeysLess(a, c)
    decreases a, 0
  {
    if a != [] {
      Asymmetric(b[0], b[0]);
      if a[0] == b[0] && b[0] == c[0] {
        AllTransitive(a[1..], b[1..], c[1..]);
      } else if KeyLess(a[0], b[0]) && KeyLess(b[0], c[0]) {
        Transitive(a[0], b[0], c[0]);
      }
    }
  }

  /** The value a map has for a key. */
  function Find(entries: seq<Value>, key: Value): Option<Value>
    requires AllEntries(entries)
  {
    if entries == [] then None
    else if KeyOf(entries[0]) == key then Some(entries[0].elems[1])
    else Find(entries[1..], key)
  }

  /** A key smaller than every key of these entries. */
  predicate Above(below: Value, entries: seq<Value>)
    requires AllEntries(entries)
  {
    forall k | 0 <= k < |entries| :: KeyLess(below, KeyOf(entries[k]))
  }

  /** What is above a key is above every smaller one, and above no key it contains. */
  lemma {:induction false} AboveLower(a: Value, b: Value, entries: seq<Value>)
    requires AllEntries(entries) && Above(b, entries) && KeyLess(a, b)
    ensures Above(a, entries)
  {
    forall k | 0 <= k < |entries|
      ensures KeyLess(a, KeyOf(entries[k]))
    {
      Transitive(a, b, KeyOf(entries[k]));
    }
  }

  /** Inserting an entry above some key keeps everything above it. */
  lemma {:induction false} InsertAbove(below: Value, entries: seq<Value>, entry: Value)
    requires IsEntry(entry) && AllEntries(entries) && Above(below, entries) && KeyLess(below, KeyOf(entry))
    ensures Above(below, Insert(entries, entry))
  {
    if entries != [] && !KeyLess(KeyOf(entry), KeyOf(entries[0])) && KeyLess(KeyOf(entries[0]), KeyOf(entry)) {
      InsertAbove(below, entries[1..], entry);
    }
  }

  /** Inserting into a map keeps it one: its entries stay sorted by distinct keys. */
  lemma {:induction false} InsertSorted(entries: seq<Value>, entry: Value)
    requires IsEntry(entry) && AllEntries(entries) && Sorted(entries)
    ensures Sorted(Insert(entries, entry))
  {
    if entries != [] {
      var first, rest, r := KeyOf(entries[0]), entries[1..], Insert(entries, entry);
      if KeyLess(KeyOf(entry), first) {
        AboveLower(KeyOf(entry), first, rest);
        assert r[1..] == entries;
      } else if KeyLess(first, KeyOf(entry)) {
        InsertSorted(rest, entry);
        InsertAbove(first, rest, entry);
        assert r[1..] == Insert(rest, entry);
      } else {
        assert r[1..] == rest;
      }
    }
  }

  /** Inserting gives the key the new value and leaves every other key as it was. */
  lemma {:induction false} InsertUpdates(entries: seq<Value>, entry: Value, key: Value)
    requires IsEntry(entry) && AllEntries(entries)
    ensures Find(Insert(entries, entry), key) ==
            if key == KeyOf(entry) then Some(entry.elems[1]) else Find(entries, key)
  {
    var r := Insert(entries, entry);
    if entries != [] {
      var first := KeyOf(entries[0]);
      Total(KeyOf(entry), first);
      Asymmetric(KeyOf(entry), first);
      if KeyLess(KeyOf(entry), first) {
        assert r[1..] == entries;
      } else if KeyLess(first, KeyOf(entry)) {
        InsertUpdates(entries[1..], entry, key);
        assert r[1..] == Insert(entries[1..], entry);
      } else {
        assert r[1..] == entries[1..];
      }
    }
  }

  /** What is read for a dictionary is a map, whatever the bytes: its keys are distinct and in order. */
  lemma {:induction false} DecodedIsMap(enc10: bool, e: Type, n: nat, b: seq<byte>, c: Cursor, got: seq<Value>)
    requires WellFormed(e) && e.TStruct? && |e.members| == 2 && AllEntries(got) && Sorted(got)
    ensures var r := DecEntries(enc10, e, n, b, c, got);
            r.Got? ==> r.value.VSeq? && AllEntries(r.value.elems) && Sorted(r.value.elems)
    decreases n
  {
    if n > 0 {
      var r := DecMembers(enc10, e.members, b, c);
      if r.Got? {
        InsertSorted(got, r.value);
        DecodedIsMap(enc10, e, n - 1, b, r.at, Insert(got, r.value));
      }
    }
  }

  // --------------------------------------------------------------- what the order is

  /** The strings agree before position k, and the first is lower there. */
  predicate LowerAt(a: seq<byte>, b: seq<byte>, k: nat) {
    k < |a| && k < |b| && a[..k] == b[..k] && a[k] < b[k]
  }

  /** Strings are in the order of a dictionary: a proper prefix first, else what is lower at the first difference. */
  lemma {:induction false} BytesInOrder(a: seq<byte>, b: seq<byte>)
    ensures BytesLess(a, b) <==> a < b || exists k :: LowerAt(a, b, k)
  {
    if a != [] && b != [] && a[0] == b[0] {
      BytesInOrder(a[1..], b[1..]);
      if a[1..] < b[1..] {
        assert a == [a[0]] + a[1..] && b == [b[0]] + b[1..];
      }
      if k: nat :| LowerAt(a[1..], b[1..], k) {
        assert a[..k + 1] == [a[0]] + a[1..][..k] && b[..k + 1] == [b[0]] + b[1..][..k];
        assert LowerAt(a, b, k + 1);
      }
      if k: nat :| LowerAt(a, b, k) {
        assert a[1..][..k - 1] == a[..k][1..] && b[1..][..k - 1] == b[..k][1..];
        assert LowerAt(a[1..], b[1..], k - 1);
      }
    } else if BytesLess(a, b) && a != [] {
      assert LowerAt(a, b, 0);
    }
  }

  /** The structs agree before member k, and the first has the lower one there. */
  predicate LowerMember(a: seq<Value>, b: seq<Value>, k: nat) {
    k < |a| && k < |b| && a[..k] == b[..k] && KeyLess(a[k], b[k])
  }

  lemma {:induction false} LowerLater(a: seq<Value>, b: seq<Value>, k: nat)
    requires a != [] && b != [] && a[0] == b[0]
    ensures LowerMember(a, b, k + 1) <==> LowerMember(a[1..], b[1..], k)
  {
    if k + 1 < |a| && k + 1 < |b| {
      assert a[..k + 1] == [a[0]] + a[1..][..k] && b[..k + 1] == [b[0]] + b[1..][..k];
      assert a[1..][..k] == a[..k + 1][1..] && b[1..][..k] == b[..k + 1][1..];
    }
  }

  lemma {:induction false} MembersInOrder(a: seq<Value>, b: seq<Value>)
    ensures KeysLess(a, b) <==> a < b || exists k :: LowerMember(a, b, k)
  {
    if a != [] && b != [] && a[0] == b[0] {
      MembersInOrder(a[1..], b[1..]);
      Asymmetric(a[0], b[0]);
      if a[1..] < b[1..] {
        assert a == [a[0]] + a[1..] && b == [b[0]] + b[1..];
      }
      if k: nat :| LowerMember(a[1..], b[1..], k) {
        LowerLater(a, b, k);
      }
      if k: nat :| LowerMember(a, b, k) && k > 0 {
        LowerLater(a, b, k - 1);
      }
    } else if KeysLess(a, b) && a != [] {
      assert LowerMember(a, b, 0);
    }
  }

  /** Keys are in the order of numbers, of their bytes, or of their members; false comes before true. */
  lemma {:induction false} KeysInOrder(a: Value, b: Value)
    ensures a.VInt? && b.VInt? ==> (KeyLess(a, b) <==> a.n < b.n)
    ensures a.VBool? && b.VBool? ==> (KeyLess(a, b) <==> a == VBool(false) && b == VBool(true))
    ensures a.VBytes? && b.VBytes? ==> (KeyLess(a, b) <==> a.bytes < b.bytes || exists k :: LowerAt(a.bytes, b.bytes, k))
    ensures a.VSeq? && b.VSeq? ==> (KeyLess(a, b) <==> a.elems < b.elems || exists k :: LowerMember(a.elems, b.elems, k))
  {
    if a.VBytes? && b.VBytes? {
      BytesInOrder(a.bytes, b.bytes);
    } else if a.VSeq? && b.VSeq? {
      MembersInOrder(a.elems, b.elems);
    }
  }
}

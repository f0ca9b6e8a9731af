/** What getMatching() answers and detach() leaves, read off the index; and which detached entries a map retains. */
module MetricsAnswers {
  import opened Prelude
  import opened MetricsMap
  import opened MetricsRetention

  // --------------------------------------------------------------- one call

  /**
   getMatching() answers a key unless the map is destroyed: with the entry indexed for the key, or with the new one, which
   is indexed from then on. Whatever is attached counts in its total, and nothing else changes.
   */
  ghost predicate Answered(s: MapState, s': MapState, key: Option<Key>, newborn: EntryId, found: Option<EntryId>) {
    && (found.Some? <==> key.Some? && !s.destroyed)
    && (found.Some? ==> found.value == if key.value in s.objects then s.objects[key.value] else newborn)
    && s'.objects == (if found.Some? then s.objects[key.value := found.value] else s.objects)
    && s'.entries.Keys == s.entries.Keys + (if found == Some(newborn) then {newborn} else {})
    && (found == Some(newborn) ==> s'.entries[newborn] == Entry(key.value, 1, 1, None))
    && (forall e <- s.entries ::
          && s'.entries[e].id == s.entries[e].id && s'.entries[e].pos == s.entries[e].pos
          && s'.entries[e].total - s.entries[e].total == s'.entries[e].current - s.entries[e].current)
    && s'.queue == s.queue && s'.retain == s.retain && s'.destroyed == s.destroyed
  }

  lemma {:induction false} MatchAnswers(s: MapState, key: Option<Key>, previous: Option<EntryId>, newborn: EntryId)
    requires MapInv(s) && MatchOk(s, previous, newborn)
    ensures var (s', found) := GetMatching(s, key, previous, newborn);
            Answered(s, s', key, newborn, found)
  {
    if previous.Some? {
      assert EntryOk(s, previous.value);
    }
  }

  /** detach() takes one attachment from one entry. A last one evicts if the list is full, and then what was detached first. */
  ghost predicate Left(s: MapState, s': MapState, e: EntryId)
    requires e in s.entries
  {
    && s'.entries.Keys == s.entries.Keys
    && (forall x <- s.entries ::
          && s'.entries[x].id == s.entries[x].id && s'.entries[x].total == s.entries[x].total
          && s'.entries[x].current == s.entries[x].current - (if x == e then 1 else 0))
    && s'.retain == s.retain && s'.destroyed == s.destroyed
    && var l := Abs(s).lru;
       s'.objects == if s.entries[e].current == 1 && !s.destroyed && l != [] && |l| == s.retain && l[0] in s.entries
                     then s.objects - {s.entries[l[0]].id} else s.objects
  }

  lemma {:induction false} SameButCounts(s: MapState, s': MapState, e: EntryId)
    requires e in s.entries
    requires Core(s'.entries) == Core(s.entries)[e := Core(s.entries)[e].(current := s.entries[e].current - 1)]
    ensures s'.entries.Keys == s.entries.Keys
    ensures forall x <- s.entries ::
              && s'.entries[x].id == s.entries[x].id && s'.entries[x].total == s.entries[x].total
              && s'.entries[x].current == s.entries[x].current - (if x == e then 1 else 0)
  {
    var before, after := Core(s.entries), Core(s'.entries);
    assert after.Keys == s'.entries.Keys && before.Keys == s.entries.Keys;
    forall x <- s.entries
      ensures s'.entries[x].id == s.entries[x].id && s'.entries[x].total == s.entries[x].total
      ensures s'.entries[x].current == s.entries[x].current - (if x == e then 1 else 0)
    {
      assert after[x] == Metrics(s'.entries[x].id, s'.entries[x].total, s'.entries[x].current);
      assert before[x] == Metrics(s.entries[x].id, s.entries[x].total, s.entries[x].current);
    }
  }

  lemma {:induction false} LeftEagerly(s: MapState, s': MapState, e: EntryId)
    requires e in s.entries && (forall x <- Abs(s).lru :: x in s.entries) && |Abs(s).lru| <= s.retain
    requires Abs(s') == EagerDetach(Abs(s), e)
    ensures Left(s, s', e)
  {
    SameButCounts(s, s', e);
    var l := Abs(s).lru;
    if l != [] {
      assert l[0] in l && (l + [e])[0] == l[0];
      assert Core(s'.entries)[l[0]].id == s.entries[l[0]].id;
    }
  }

  lemma {:induction false} DetachTakes(s: MapState, e: EntryId)
    requires MapInv(s) && Attached(s, e)
    ensures forall i | 0 <= i < |s.queue| :: s.queue[i].entry in s.entries
    ensures Left(s, DetachEntry(s, e), e)
  {
    DetachRefines(s, e);
    LiveNodesAre(s.queue, s.entries);
    LeftEagerly(s, DetachEntry(s, e), e);
  }

  // --------------------------------------------------------------- which entries are retained

  /** The position in a history of the last detach() of an entry. */
  function LastDetachOf(ops: seq<Op>, e: EntryId): int {
    if ops == [] then -1
    else if ops[|ops| - 1] == Detach(e) then |ops| - 1
    else LastDetachOf(ops[..|ops| - 1], e)
  }

  /** The entries that were detached after this one was. */
  ghost function Later(entries: set<EntryId>, ops: seq<Op>, e: EntryId): set<EntryId> {
    set x | x in entries && LastDetachOf(ops, x) > LastDetachOf(ops, e)
  }

  lemma {:induction false} OneMoreOp(ops: seq<Op>, op: Op, e: EntryId)
    ensures LastDetachOf(ops + [op], e) == if op == Detach(e) then |ops| else LastDetachOf(ops, e)
    ensures LastDetachOf(ops, e) < |ops|
    decreases |ops|
  {
    assert (ops + [op])[..|ops|] == ops;
    if ops != [] {
      OneMoreOp(ops[..|ops| - 1], ops[|ops| - 1], e);
      assert ops[..|ops| - 1] + [ops[|ops| - 1]] == ops;
    }
  }

  ghost predicate InOrderOf(l: seq<EntryId>, ops: seq<Op>) {
    forall i, j | 0 <= i < j < |l| :: LastDetachOf(ops, l[i]) < LastDetachOf(ops, l[j])
  }

  /** A detached entry is off the list only if as many entries as the map retains were detached after it. */
  ghost predicate Outlived(m: EagerMap, ops: seq<Op>, e: EntryId) {
    && |Later(m.metrics.Keys, ops, e)| >= m.retain
    && (forall x <- m.lru :: LastDetachOf(ops, e) < LastDetachOf(ops, x))
  }

  ghost predicate Recent(m: EagerMap, ops: seq<Op>) {
    && (forall x <- m.lru :: x in m.metrics && m.metrics[x].current == 0)
    && InOrderOf(m.lru, ops)
    && |m.lru| <= m.retain
    && (forall e <- m.metrics | m.metrics[e].current == 0 && e !in m.lru :: Outlived(m, ops, e))
  }

  lemma {:induction false} RemoveIs(l: seq<EntryId>, e: EntryId, ops: seq<Op>)
    requires InOrderOf(l, ops)
    ensures forall x :: x in Remove(l, e) <==> x in l && x != e
    ensures InOrderOf(Remove(l, e), ops) && |Remove(l, e)| <= |l|
  {
    if l != [] {
      var p, x := l[..|l| - 1], l[|l| - 1];
      RemoveIs(p, e, ops);
      assert l == p + [x];
      var r := Remove(p, e);
      forall i | 0 <= i < |r|
        ensures LastDetachOf(ops, r[i]) < LastDetachOf(ops, x)
      {
        assert r[i] in p;
      }
    }
  }

  lemma {:induction false} LaterGrows(a: set<EntryId>, b: set<EntryId>, ops: seq<Op>, op: Op, e: EntryId)
    requires a <= b && op != Detach(e)
    ensures |Later(a, ops, e)| <= |Later(b, ops + [op], e)|
  {
    var before, after := Later(a, ops, e), Later(b, ops + [op], e);
    forall x <- before
      ensures x in after
    {
      OneMoreOp(ops, op, x);
      OneMoreOp(ops, op, e);
    }
    Subset(before, after);
  }

  lemma {:induction false} Subset(a: set<EntryId>, b: set<EntryId>)
    requires a <= b
    ensures |a| <= |b|
  {
    assert b == a + (b - a);
  }

  /** Entries listed in order of their last detach() are distinct. */
  lemma {:induction false} ListedAreLater(l: seq<EntryId>, entries: set<EntryId>, ops: seq<Op>, e: EntryId)
    requires InOrderOf(l, ops) && (forall x <- l :: x in entries && LastDetachOf(ops, e) < LastDetachOf(ops, x))
    ensures |Later(entries, ops, e)| >= |l|
  {
    if l != [] {
      var p, x := l[..|l| - 1], l[|l| - 1];
      assert x in l;
      forall y | y in p
        ensures y in l && y != x
      {
        var i :| 0 <= i < |p| && l[i] == y;
        assert LastDetachOf(ops, l[i]) < LastDetachOf(ops, x);
      }
      ListedAreLater(p, entries - {x}, ops, e);
      assert Later(entries, ops, e) == Later(entries - {x}, ops, e) + {x};
    }
  }

  /** An operation that detaches nothing, and after which the list is what is left of it. */
  lemma {:induction false} StaysRecent(m: EagerMap, m': EagerMap, ops: seq<Op>, op: Op)
    requires Recent(m, ops) && m'.retain == m.retain && m.metrics.Keys <= m'.metrics.Keys
    requires forall x <- m'.lru :: x in m.lru && m'.metrics[x].current == 0
    requires op.Detach? ==> op.entry in m'.metrics && m'.metrics[op.entry].current > 0
    requires InOrderOf(m'.lru, ops) && |m'.lru| <= |m.lru|
    requires forall e <- m'.metrics | m'.metrics[e].current == 0 && e !in m'.lru :: e in m.metrics && m.metrics[e].current == 0 && e !in m.lru
    ensures Recent(m', ops + [op])
  {
    forall x: EntryId
      ensures LastDetachOf(ops + [op], x) == if op == Detach(x) then |ops| else LastDetachOf(ops, x)
    {
      OneMoreOp(ops, op, x);
    }
    assert forall x <- m'.lru :: op != Detach(x);
    forall e <- m'.metrics | m'.metrics[e].current == 0 && e !in m'.lru
      ensures Outlived(m', ops + [op], e)
    {
      assert Outlived(m, ops, e);
      LaterGrows(m.metrics.Keys, m'.metrics.Keys, ops, op, e);
    }
  }

  lemma {:induction false} MatchStaysRecent(m: EagerMap, ops: seq<Op>, op: Op)
    requires Recent(m, ops) && op.Match? && EagerLegal(m, op) && op.newborn !in m.metrics
    requires forall e <- m.metrics :: m.metrics[e].current >= 0
    ensures Recent(EagerStep(m, op).0, ops + [op])
  {
    var m' := EagerStep(m, op).0;
    if op.key.Some? && op.key.value in m.objects {
      RemoveIs(m.lru, m.objects[op.key.value], ops);
    }
    StaysRecent(m, m', ops, op);
  }

  /** A last detach() goes to the back of the list, and the head of a full list goes. */
  lemma {:induction false} DetachStaysRecent(m: EagerMap, ops: seq<Op>, e: EntryId)
    requires Recent(m, ops) && EagerLegal(m, Detach(e)) && m.metrics[e].current > 0 && m.retain > 0 && !m.destroyed
    ensures Recent(EagerDetach(m, e), ops + [Detach(e)])
  {
    var m' := EagerDetach(m, e);
    if m.metrics[e].current > 1 {
      StaysRecent(m, m', ops, Detach(e));
    } else {
      var ops', l := ops + [Detach(e)], m.lru + [e];
      Appended(m, ops, e);
      forall x <- m'.metrics | m'.metrics[x].current == 0 && x !in m'.lru
        ensures Outlived(m', ops', x)
      {
        if x in l {
          assert x == l[0] && m'.lru == l[1..];
          ListedAreLater(m'.lru, m'.metrics.Keys, ops', x);
        } else {
          assert Outlived(m, ops, x);
          OneMoreOp(ops, Detach(e), x);
          LaterGrows(m.metrics.Keys, m'.metrics.Keys, ops, Detach(e), x);
          forall y <- m'.lru
            ensures LastDetachOf(ops', x) < LastDetachOf(ops', y)
          {
            OneMoreOp(ops, Detach(e), y);
            assert y == e || y in m.lru;
          }
        }
      }
    }
  }

  lemma {:induction false} Appended(m: EagerMap, ops: seq<Op>, e: EntryId)
    requires Recent(m, ops) && e !in m.lru
    ensures InOrderOf(m.lru + [e], ops + [Detach(e)])
  {
    var l := m.lru + [e];
    forall i | 0 <= i < |l|
      ensures LastDetachOf(ops + [Detach(e)], l[i]) == if i == |m.lru| then |ops| else LastDetachOf(ops, l[i])
      ensures LastDetachOf(ops, l[i]) < |ops|
    {
      OneMoreOp(ops, Detach(e), l[i]);
      assert i < |m.lru| ==> l[i] in m.lru;
    }
  }

  // --------------------------------------------------------------- over whole runs

  ghost predicate RecentMap(s: MapState, past: seq<Op>) {
    MapInv(s) && s.retain > 0 && (s.destroyed || Recent(Abs(s), past))
  }

  lemma {:induction false} StepStaysRecent(s: MapState, past: seq<Op>, op: Op)
    requires RecentMap(s, past) && Legal(s, op)
    ensures RecentMap(Step(s, op).0, past + [op])
  {
    StepRefines(s, op);
    var m := Abs(s);
    forall e <- m.metrics
      ensures m.metrics[e].current >= 0
    {
      assert EntryOk(s, e);
    }
    if !s.destroyed {
      match op
      case Match(_, _, _) => MatchStaysRecent(m, past, op);
      case Detach(e) => DetachStaysRecent(m, past, e);
      case DestroyMap =>
    }
  }

  lemma {:induction false} RunStaysRecent(s: MapState, past: seq<Op>, ops: seq<Op>)
    requires RecentMap(s, past) && LegalRun(s, ops)
    ensures RecentMap(Run(s, ops).0, past + ops)
    decreases |ops|
  {
    if ops == [] {
      assert past + ops == past;
    } else {
      StepRefines(s, ops[0]);
      StepStaysRecent(s, past, ops[0]);
      RunStaysRecent(Step(s, ops[0]).0, past + [ops[0]], ops[1..]);
      assert past + [ops[0]] + ops[1..] == past + ops;
    }
  }

  /** The list holds exactly the detached entries that are indexed. */
  lemma {:induction false} ListedIffIndexed(s: MapState, e: EntryId)
    requires MapInv(s) && s.retain > 0 && e in s.entries && s.entries[e].current == 0
    ensures e in Abs(s).lru <==> Indexed(s, e)
  {
    LiveNodesAre(s.queue, s.entries);
    var live := LiveNodes(s.queue, s.entries);
    if Indexed(s, e) {
      assert EntryOk(s, e);
      var i :| 0 <= i < |s.queue| && s.queue[i].entry == e;
      assert s.queue[i] in live;
      var j :| 0 <= j < |live| && live[j] == s.queue[i];
      assert Abs(s).lru[j] == e;
    }
    if e in Abs(s).lru {
      var j :| 0 <= j < |live| && live[j].entry == e;
      assert live[j] in s.queue;
      var i :| 0 <= i < |s.queue| && s.queue[i] == live[j];
      assert Indexed(s, s.queue[i].entry);
    }
  }

  /**
   Of the entries no observer is attached to, a map retains the most recently detached: one that has left the index was
   detached before every one that has not, and before as many others as the map retains.
   */
  lemma {:induction false} RetainedAreTheMostRecent(retain: nat, ops: seq<Op>, e: EntryId)
    requires retain > 0 && (NewMapInOrder(retain); LegalRun(NewMap(retain), ops))
    requires (NewMapInOrder(retain); var f := Run(NewMap(retain), ops).0;
              !f.destroyed && e in f.entries && f.entries[e].current == 0 && !Indexed(f, e))
    ensures (NewMapInOrder(retain); var f := Run(NewMap(retain), ops).0;
             && |Later(f.entries.Keys, ops, e)| >= retain
             && (forall d <- f.entries | f.entries[d].current == 0 && Indexed(f, d) ::
                   LastDetachOf(ops, e) < LastDetachOf(ops, d)))
  {
    NewMapInOrder(retain);
    var s := NewMap(retain);
    RunStaysRecent(s, [], ops);
    RunKeepsRetain(s, ops);
    assert [] + ops == ops;
    var f := Run(s, ops).0;
    ListedIffIndexed(f, e);
    assert Abs(f).metrics.Keys == f.entries.Keys;
    assert Outlived(Abs(f), ops, e);
    forall d <- f.entries | f.entries[d].current == 0 && Indexed(f, d)
      ensures LastDetachOf(ops, e) < LastDetachOf(ops, d)
    {
      ListedIffIndexed(f, d);
    }
  }

  lemma {:induction false} RunKeepsRetain(s: MapState, ops: seq<Op>)
    requires MapInv(s) && LegalRun(s, ops)
    ensures Run(s, ops).0.retain == s.retain
    decreases |ops|
  {
    if ops != [] {
      StepRefines(s, ops[0]);
      assert EagerStep(Abs(s), ops[0]).0.retain == s.retain;
      RunKeepsRetain(Step(s, ops[0]).0, ops[1..]);
    }
  }
}

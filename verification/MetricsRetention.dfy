/** The lazily cleaned queue of a metrics map refines an eager list, and retention is bounded by `retain`. */
module MetricsRetention {
  import opened Prelude
  import opened MetricsMap

  // --------------------------------------------------------------- the eager map

  datatype Metrics = Metrics(id: Key, total: int, current: int)

  /** The simple map: `lru` lists exactly the detached entries that are retained, in the order of their last detach. */
  datatype EagerMap = EagerMap(
    objects: map<Key, EntryId>, lru: seq<EntryId>, metrics: map<EntryId, Metrics>, retain: nat, destroyed: bool)

  function Remove(l: seq<EntryId>, e: EntryId): seq<EntryId> {
    if l == [] then []
    else Remove(l[..|l| - 1], e) + (if l[|l| - 1] == e then [] else [l[|l| - 1]])
  }

  function EagerAttach(m: EagerMap, e: EntryId): EagerMap
    requires e in m.metrics
  {
    var r := m.metrics[e];
    m.(metrics := m.metrics[e := Metrics(r.id, r.total + 1, r.current + 1)], lru := Remove(m.lru, e))
  }

  function EagerMatch(m: EagerMap, key: Option<Key>, previous: Option<EntryId>, newborn: EntryId): (EagerMap, Option<EntryId>)
    requires previous.Some? ==> previous.value in m.metrics
    requires forall k <- m.objects :: m.objects[k] in m.metrics
  {
    if key.None? || m.destroyed then (m, None)
    else if previous.Some? && m.metrics[previous.value].id == key.value then (m, previous)
    else if key.value in m.objects then (EagerAttach(m, m.objects[key.value]), Some(m.objects[key.value]))
    else (m.(objects := m.objects[key.value := newborn], metrics := m.metrics[newborn := Metrics(key.value, 1, 1)]),
          Some(newborn))
  }

  /** Detaching appends to the list, and drops its head when it has grown too long. */
  function EagerDetach(m: EagerMap, e: EntryId): EagerMap
    requires e in m.metrics
    requires forall x <- m.lru :: x in m.metrics
  {
    var r := m.metrics[e];
    var m1 := m.(metrics := m.metrics[e := r.(current := r.current - 1)]);
    if r.current != 1 || m.retain == 0 || m.destroyed then m1
    else
      var l := m.lru + [e];
      if |l| > m.retain then m1.(lru := l[1..], objects := m.objects - {m1.metrics[l[0]].id}) else m1.(lru := l)
  }

  function EagerDestroy(m: EagerMap): EagerMap {
    m.(destroyed := true, objects := map[], lru := [])
  }

  // --------------------------------------------------------------- the abstraction

  function Entries(q: seq<QNode>): seq<EntryId> {
    seq(|q|, i requires 0 <= i < |q| => q[i].entry)
  }

  /** The entries but for their positions in the queue. */
  function Core(entries: map<EntryId, Entry>): map<EntryId, Metrics> {
    map e | e in entries :: Metrics(entries[e].id, entries[e].total, entries[e].current)
  }

  lemma {:induction false} CoreUpdate(entries: map<EntryId, Entry>, e: EntryId, r: Entry)
    ensures Core(entries[e := r]) == Core(entries)[e := Metrics(r.id, r.total, r.current)]
  {
  }

  /** What the lazy map stands for: the queue without the entries that were attached again. */
  ghost function Abs(s: MapState): EagerMap {
    EagerMap(s.objects, Entries(LiveNodes(s.queue, s.entries)), Core(s.entries), s.retain, s.destroyed)
  }

  function NewEagerMap(retain: nat): EagerMap {
    EagerMap(map[], [], map[], retain, false)
  }

  // --------------------------------------------------------------- operations a client may make

  ghost predicate Attached(s: MapState, e: EntryId) {
    e in s.entries && s.entries[e].current > 0
  }

  ghost predicate MatchOk(s: MapState, previous: Option<EntryId>, newborn: EntryId) {
    newborn !in s.entries && (previous.Some? ==> Attached(s, previous.value))
  }

  // --------------------------------------------------------------- attaching

  lemma {:induction false} RemoveLive(q: seq<QNode>, a: map<EntryId, Entry>, b: map<EntryId, Entry>, e: EntryId)
    requires e in b && b[e].current != 0
    requires forall x :: x != e ==> ((x in a && a[x].current == 0) <==> (x in b && b[x].current == 0))
    ensures Entries(LiveNodes(q, b)) == Remove(Entries(LiveNodes(q, a)), e)
  {
    if q != [] {
      var p, n := q[..|q| - 1], q[|q| - 1];
      RemoveLive(p, a, b, e);
      var l := LiveNodes(p, a);
      if n.entry in a && a[n.entry].current == 0 {
        assert Entries(l + [n])[..|l|] == Entries(l);
      } else {
        assert Entries(LiveNodes(q, a)) == Entries(l);
      }
    }
  }

  /** Attaching an indexed entry keeps the invariant and takes it off the eager list. */
  lemma {:induction false} AttachRefines(s: MapState, e: EntryId)
    requires MapInv(s) && Indexed(s, e)
    ensures MapInv(Attach(s, e)) && Abs(Attach(s, e)) == EagerAttach(Abs(s), e)
  {
    assert EntryOk(s, e);
    AttachKeeps(s, e);
    AttachIsEager(s, e);
  }

  lemma {:induction false} AttachIsEager(s: MapState, e: EntryId)
    requires e in s.entries && s.entries[e].current >= 0
    ensures Abs(Attach(s, e)) == EagerAttach(Abs(s), e)
  {
    var r := s.entries[e];
    RemoveAttached(s, e);
    CoreUpdate(s.entries, e, r.(total := r.total + 1, current := r.current + 1));
  }

  lemma {:induction false} RemoveAttached(s: MapState, e: EntryId)
    requires e in s.entries && s.entries[e].current >= 0
    ensures Entries(LiveNodes(s.queue, Attach(s, e).entries)) == Remove(Entries(LiveNodes(s.queue, s.entries)), e)
  {
    RemoveLive(s.queue, s.entries, Attach(s, e).entries, e);
  }

  lemma {:induction false} AttachKeeps(s: MapState, e: EntryId)
    requires MapInv(s) && Indexed(s, e)
    ensures MapInv(Attach(s, e)) && Attach(s, e).entries[e].current > 0
  {
    var s' := Attach(s, e);
    assert EntryOk(s, e);
    forall x <- s'.entries
      ensures EntryOk(s', x)
    {
      assert EntryOk(s, x);
    }
  }

  ghost predicate Created(s: MapState, s': MapState, k: Key, newborn: EntryId) {
    && k !in s.objects && newborn !in s.entries
    && s' == s.(objects := s.objects[k := newborn], entries := s.entries[newborn := Entry(k, 1, 1, None)])
  }

  lemma {:induction false} CreateKeeps(s: MapState, s': MapState, k: Key, newborn: EntryId)
    requires MapInv(s) && !s.destroyed && Created(s, s', k, newborn)
    ensures MapInv(s')
  {
    forall x <- s'.entries
      ensures EntryOk(s', x)
    {
      if x != newborn {
        assert EntryOk(s, x);
        assert Indexed(s', x) ==> Indexed(s, x);
        assert s.entries[x].current > 0 ==> Indexed(s', x);
      }
    }
    assert QueueOk(s') by {
      assert forall i | 0 <= i < |s.queue| :: Indexed(s, s.queue[i].entry);
    }
  }

  lemma {:induction false} CreateRefines(s: MapState, s': MapState, k: Key, newborn: EntryId)
    requires MapInv(s) && !s.destroyed && Created(s, s', k, newborn)
    ensures MapInv(s')
    ensures Abs(s') == Abs(s).(objects := s.objects[k := newborn], metrics := Abs(s).metrics[newborn := Metrics(k, 1, 1)])
  {
    CreateKeeps(s, s', k, newborn);
    LiveNodesSame(s.queue, s.entries, s'.entries);
    CoreUpdate(s.entries, newborn, Entry(k, 1, 1, None));
  }

  /** getMatching: the same entry as the eager map, and never an assertion failure about `previous`. */
  lemma {:induction false} MatchRefines(s: MapState, key: Option<Key>, previous: Option<EntryId>, newborn: EntryId)
    requires MapInv(s) && MatchOk(s, previous, newborn)
    ensures var (s', result) := GetMatching(s, key, previous, newborn);
            && MapInv(s')
            && EagerMatch(Abs(s), key, previous, newborn) == (Abs(s'), result)
            && (result == previous && previous.Some? && s.entries[previous.value].id == key.value ==>
                  s.objects[key.value] == previous.value)
  {
    var s' := GetMatching(s, key, previous, newborn).0;
    if previous.Some? {
      assert EntryOk(s, previous.value);
    }
    if key.Some? && !s.destroyed && !(previous.Some? && s.entries[previous.value].id == key.value) {
      if key.value in s.objects {
        AttachRefines(s, s.objects[key.value]);
      } else {
        CreateRefines(s, s', key.value, newborn);
      }
    }
  }

  // --------------------------------------------------------------- detaching

  /** The state between the decrement and detached(): the invariant, except that e is detached and not yet queued. */
  ghost predicate Pending(s: MapState, e: EntryId) {
    && !s.destroyed && s.retain > 0
    && (forall k <- s.objects :: s.objects[k] in s.entries && s.entries[s.objects[k]].id == k)
    && QueueOk(s)
    && Indexed(s, e) && s.entries[e].current == 0 && s.entries[e].total > 0
    && (s.entries[e].pos.Some? ==> Holds(s.queue, e))
    && (forall x <- s.entries :: x != e ==> EntryOk(s, x))
  }

  /** The entry is still queued from an earlier detach: its node moves to the back. */
  lemma {:induction false} RequeueIs(s: MapState, e: EntryId) returns (i: nat)
    requires Pending(s, e) && s.entries[e].pos.Some?
    ensures i < |s.queue| && s.queue[i].entry == e
    ensures Detached(s, e) == s.(queue := s.queue[..i] + s.queue[i + 1..] + [s.queue[i]])
  {
    i :| 0 <= i < |s.queue| && s.queue[i].entry == e;
    var q, node := s.queue, s.entries[e].pos.value;
    assert q[i] == QNode(node, e);
    if i != |q| - 1 {
      WithoutIs(q, i, node);
    } else {
      assert q[..i] + q[i + 1..] + [q[i]] == q;
    }
  }

  lemma {:induction false} RequeueRefines(s: MapState, e: EntryId)
    requires Pending(s, e) && s.entries[e].pos.Some?
    ensures MapInv(Detached(s, e))
    ensures Detached(s, e) == s.(queue := Detached(s, e).queue)
    ensures Entries(LiveNodes(Detached(s, e).queue, s.entries)) == Remove(Entries(LiveNodes(s.queue, s.entries)), e) + [e]
    ensures |Remove(Entries(LiveNodes(s.queue, s.entries)), e)| < s.retain
  {
    var i := RequeueIs(s, e);
    Rotated(s, Detached(s, e), i);
    RemoveOne(s.queue, s.entries, i, e);
  }

  /** Moving a node to the back keeps the queue in order. */
  lemma {:induction false} Rotated(s: MapState, s': MapState, i: nat)
    requires i < |s.queue| && Pending(s, s.queue[i].entry)
    requires s' == s.(queue := s.queue[..i] + s.queue[i + 1..] + [s.queue[i]])
    ensures MapInv(s')
  {
    RotatedQueueOk(s, s', i);
    forall x <- s'.entries
      ensures EntryOk(s', x)
    {
      if x == s.queue[i].entry {
        assert s'.queue[|s.queue| - 1].entry == x;
      } else {
        RotatedEntryOk(s, s', i, x);
      }
    }
  }

  lemma {:induction false} RotatedQueueOk(s: MapState, s': MapState, i: nat)
    requires i < |s.queue| && QueueOk(s)
    requires s' == s.(queue := s.queue[..i] + s.queue[i + 1..] + [s.queue[i]])
    ensures QueueOk(s')
  {
    forall j | 0 <= j < |s.queue|
      ensures s'.queue[j] == (if j < i then s.queue[j] else if j < |s.queue| - 1 then s.queue[j + 1] else s.queue[i])
    {
    }
    forall j | 0 <= j < |s.queue|
      ensures Indexed(s, s.queue[j].entry) <==> Indexed(s', s.queue[j].entry)
    {
    }
  }

  lemma {:induction false} RotatedEntryOk(s: MapState, s': MapState, i: nat, x: EntryId)
    requires i < |s.queue| && x in s.entries && x != s.queue[i].entry && EntryOk(s, x)
    requires s' == s.(queue := s.queue[..i] + s.queue[i + 1..] + [s.queue[i]])
    ensures EntryOk(s', x)
  {
    assert Indexed(s', x) <==> Indexed(s, x);
    if Indexed(s, x) && s.entries[x].pos.Some? {
      var j :| 0 <= j < |s.queue| && s.queue[j].entry == x;
      assert s'.queue[if j < i then j else j - 1].entry == x;
    }
  }

  lemma {:induction false} RemoveOne(q: seq<QNode>, entries: map<EntryId, Entry>, i: nat, e: EntryId)
    requires Distinct(q) && i < |q| && q[i].entry == e && e in entries && entries[e].current == 0
    ensures Entries(LiveNodes(q[..i] + q[i + 1..] + [q[i]], entries)) == Remove(Entries(LiveNodes(q, entries)), e) + [e]
    ensures |Remove(Entries(LiveNodes(q, entries)), e)| < |q|
  {
    var a, b := q[..i], q[i + 1..];
    var la, lb := Entries(LiveNodes(a, entries)), Entries(LiveNodes(b, entries));
    assert q == a + [q[i]] + b;
    LiveAround(a, q[i], b, entries);
    LiveWithout(a, entries, e);
    LiveWithout(b, entries, e);
    RemoveMiddle(la, lb, e);
  }

  lemma {:induction false} LiveAround(a: seq<QNode>, n: QNode, b: seq<QNode>, entries: map<EntryId, Entry>)
    requires n.entry in entries && entries[n.entry].current == 0
    ensures var la, lb := Entries(LiveNodes(a, entries)), Entries(LiveNodes(b, entries));
            && Entries(LiveNodes(a + [n] + b, entries)) == la + [n.entry] + lb
            && Entries(LiveNodes(a + b + [n], entries)) == la + lb + [n.entry]
  {
    EntriesConcat(a + [n], b, entries);
    EntriesConcat(a, [n], entries);
    EntriesConcat(a + b, [n], entries);
    EntriesConcat(a, b, entries);
    assert Entries(LiveNodes([n], entries)) == [n.entry];
  }

  lemma {:induction false} LiveWithout(a: seq<QNode>, entries: map<EntryId, Entry>, e: EntryId)
    requires forall n <- a :: n.entry != e
    ensures e !in Entries(LiveNodes(a, entries)) && |Entries(LiveNodes(a, entries))| <= |a|
  {
    LiveNodesAre(a, entries);
  }

  lemma {:induction false} EntriesConcat(p: seq<QNode>, q: seq<QNode>, entries: map<EntryId, Entry>)
    ensures Entries(LiveNodes(p + q, entries)) == Entries(LiveNodes(p, entries)) + Entries(LiveNodes(q, entries))
  {
    LiveNodesConcat(p, q, entries);
  }

  lemma {:induction false} RemoveMiddle(a: seq<EntryId>, b: seq<EntryId>, e: EntryId)
    requires e !in a && e !in b
    ensures Remove(a + [e] + b, e) == a + b
  {
    calc {
      Remove(a + [e] + b, e);
      { RemoveConcat(a + [e], b, e); }
      Remove(a + [e], e) + Remove(b, e);
      { RemoveAbsent(b, e); }
      Remove(a + [e], e) + b;
      { assert (a + [e])[..|a|] == a; RemoveAbsent(a, e); }
      a + [] + b;
    }
  }

  lemma {:induction false} RemoveConcat(a: seq<EntryId>, b: seq<EntryId>, e: EntryId)
    ensures Remove(a + b, e) == Remove(a, e) + Remove(b, e)
  {
    if b == [] {
      assert a + b == a;
    } else {
      RemoveConcat(a, b[..|b| - 1], e);
      assert (a + b)[..|a + b| - 1] == a + b[..|b| - 1];
    }
  }

  lemma {:induction false} RemoveAbsent(l: seq<EntryId>, e: EntryId)
    requires e !in l
    ensures Remove(l, e) == l
  {
    if l != [] {
      RemoveAbsent(l[..|l| - 1], e);
      assert l == l[..|l| - 1] + [l[|l| - 1]];
    }
  }

  lemma {:induction false} NotQueued(s: MapState, e: EntryId)
    requires QueueOk(s) && e in s.entries && s.entries[e].pos.None?
    ensures !Holds(s.queue, e)
  {
  }

  /** There is room: the entry goes to the back under a new node. */
  lemma {:induction false} PushKeeps(s: MapState, e: EntryId)
    requires Pending(s, e) && s.entries[e].pos.None? && |s.queue| < s.retain
    ensures MapInv(PushBack(s, e))
  {
    var s' := PushBack(s, e);
    NotQueued(s, e);
    assert forall i | 0 <= i < |s.queue| :: s'.queue[i] == s.queue[i] && Indexed(s, s.queue[i].entry);
    forall x <- s'.entries
      ensures EntryOk(s', x)
    {
      if x == e {
        assert s'.queue[|s.queue|].entry == e;
      } else {
        assert EntryOk(s, x);
        assert Indexed(s', x) <==> Indexed(s, x);
        if Indexed(s, x) && s.entries[x].pos.Some? {
          var i :| 0 <= i < |s.queue| && s.queue[i].entry == x;
          assert s'.queue[i].entry == x;
        }
      }
    }
  }

  lemma {:induction false} PushAppends(s: MapState, e: EntryId)
    requires e in s.entries && s.entries[e].current == 0
    ensures Entries(LiveNodes(PushBack(s, e).queue, PushBack(s, e).entries)) == Entries(LiveNodes(s.queue, s.entries)) + [e]
    ensures Core(PushBack(s, e).entries) == Core(s.entries)
  {
    var s', n := PushBack(s, e), QNode(s.nextNode, e);
    LiveNodesConcat(s.queue, [n], s'.entries);
    LiveNodesSame(s.queue, s.entries, s'.entries);
    assert LiveNodes([n], s'.entries) == [n];
  }

  /** c is s with the queue compressed to its live part. */
  ghost predicate CompressedTo(s: MapState, c: MapState) {
    && c == s.(queue := c.queue, entries := c.entries)
    && c.entries.Keys == s.entries.Keys
    && (forall e <- s.entries ::
          c.entries[e] == s.entries[e].(pos := if Holds(s.queue, e) && !IsDetached(s, e) then None else s.entries[e].pos))
    && |c.queue| <= |s.queue| && Distinct(c.queue)
    && (forall n <- c.queue :: n in s.queue && IsDetached(s, n.entry))
    && (forall n <- s.queue :: IsDetached(s, n.entry) ==> n in c.queue)
  }

  lemma {:induction false} CompressedEntryOk(s: MapState, c: MapState, x: EntryId)
    requires CompressedTo(s, c) && QueueOk(s) && x in s.entries && EntryOk(s, x)
    ensures EntryOk(c, x)
  {
    assert Indexed(c, x) <==> Indexed(s, x);
    if Indexed(c, x) && c.entries[x].pos.Some? {
      var i :| 0 <= i < |s.queue| && s.queue[i].entry == x;
      assert s.queue[i] in s.queue;
      assert s.queue[i] in c.queue;
    }
  }

  lemma {:induction false} CompressedQueueOk(s: MapState, c: MapState)
    requires CompressedTo(s, c) && QueueOk(s)
    ensures QueueOk(c)
  {
    forall i | 0 <= i < |c.queue|
      ensures c.queue[i].node < c.nextNode && Indexed(c, c.queue[i].entry) &&
              c.entries[c.queue[i].entry].pos == Some(c.queue[i].node)
    {
      assert c.queue[i] in c.queue;
      var k :| 0 <= k < |s.queue| && s.queue[k] == c.queue[i];
      assert Indexed(s, s.queue[k].entry);
    }
  }

  /** A full queue is compressed to its live part. */
  lemma {:induction false} CompressKeeps(s: MapState, e: EntryId)
    requires Pending(s, e) && s.entries[e].pos.None?
    ensures var c := Compress(s, s.queue);
            && Pending(c, e) && c.entries[e].pos.None?
            && c.queue == LiveNodes(s.queue, s.entries)
            && (forall n <- c.queue :: n.entry in c.entries && c.entries[n.entry].current == 0)
            && c.objects == s.objects && c.retain == s.retain && c.destroyed == s.destroyed
            && Core(c.entries) == Core(s.entries)
  {
    CompressIs(s, s.queue);
    LiveNodesAre(s.queue, s.entries);
    CompressedPending(s, Compress(s, s.queue), e);
  }

  lemma {:induction false} CompressedPending(s: MapState, c: MapState, e: EntryId)
    requires Pending(s, e) && s.entries[e].pos.None? && CompressedTo(s, c)
    ensures Pending(c, e) && c.entries[e].pos.None? && Core(c.entries) == Core(s.entries)
  {
    CompressedQueueOk(s, c);
    forall x <- c.entries | x != e
      ensures EntryOk(c, x)
    {
      CompressedEntryOk(s, c, x);
    }
  }

  /** Evicting the head makes room, and never concerns an attached entry. */
  lemma {:induction false} EvictKeeps(s: MapState, e: EntryId)
    requires Pending(s, e) && s.entries[e].pos.None? && |s.queue| == s.retain
    requires forall n <- s.queue :: n.entry in s.entries && s.entries[n.entry].current == 0
    ensures s.queue[0].entry in s.entries
    ensures Pending(Evict(s), e) && |Evict(s).queue| < s.retain
  {
    var head := s.queue[0].entry;
    var v := Evict(s);
    assert s.queue[0] in s.queue;
    NotQueued(s, e);
    assert head != e && Indexed(s, head);
    forall x <- v.entries | x != e
      ensures EntryOk(v, x)
    {
      assert EntryOk(s, x);
      assert Indexed(v, x) <==> Indexed(s, x) && x != head;
      if Indexed(v, x) && v.entries[x].pos.Some? {
        var i :| 0 <= i < |s.queue| && s.queue[i].entry == x;
        assert v.queue[i - 1].entry == x;
      }
    }
    assert forall i | 0 <= i < |v.queue| :: v.queue[i] == s.queue[i + 1] && Indexed(s, s.queue[i + 1].entry);
  }

  /** What enqueueing e does to a map whose live part is l: append, and drop the head of a list grown too long. */
  ghost predicate Enqueued(s: MapState, s': MapState, e: EntryId, l: seq<EntryId>) {
    && MapInv(s') && Core(s'.entries) == Core(s.entries) && s'.retain == s.retain && s'.destroyed == s.destroyed
    && |l| <= s.retain
    && l + [e] != [] && (l + [e])[0] in s.entries
    && Entries(LiveNodes(s'.queue, s'.entries)) == (if |l| == s.retain then (l + [e])[1..] else l + [e])
    && s'.objects == (if |l| == s.retain then s.objects - {s.entries[(l + [e])[0]].id} else s.objects)
  }

  lemma {:induction false} EnqueueWithRoom(s: MapState, e: EntryId)
    requires Pending(s, e) && s.entries[e].pos.None? && |s.queue| < s.retain
    ensures Enqueued(s, PushBack(s, e), e, Entries(LiveNodes(s.queue, s.entries)))
  {
    LiveNodesAre(s.queue, s.entries);
    PushKeeps(s, e);
    PushAppends(s, e);
    var l := LiveNodes(s.queue, s.entries);
    if l != [] { assert l[0] in l; }
  }

  lemma {:induction false} EnqueueEvicting(s: MapState, e: EntryId)
    requires Pending(s, e) && s.entries[e].pos.None? && |s.queue| == s.retain
    requires forall n <- s.queue :: n.entry in s.entries && s.entries[n.entry].current == 0
    ensures s.queue[0].entry in s.entries
    ensures Enqueued(s, PushBack(Evict(s), e), e, Entries(s.queue))
  {
    var v, l := Evict(s), Entries(s.queue);
    EvictKeeps(s, e);
    PushKeeps(v, e);
    PushedAfterEvict(s, e);
    assert (l + [e])[1..] == l[1..] + [e] && (l + [e])[0] == s.queue[0].entry;
  }

  lemma {:induction false} PushedAfterEvict(s: MapState, e: EntryId)
    requires s.queue != [] && e in s.entries && s.entries[e].current == 0
    requires forall n <- s.queue :: n.entry in s.entries && s.entries[n.entry].current == 0
    ensures s.queue[0].entry in s.entries
    ensures var s' := PushBack(Evict(s), e);
            && Entries(LiveNodes(s'.queue, s'.entries)) == Entries(s.queue)[1..] + [e]
            && Core(s'.entries) == Core(s.entries)
            && s'.objects == s.objects - {s.entries[s.queue[0].entry].id}
  {
    assert s.queue[0] in s.queue;
    var v := Evict(s);
    PushAppends(v, e);
    LiveNodesFixed(v.queue, v.entries);
    assert Entries(v.queue) == Entries(s.queue)[1..];
  }

  lemma {:induction false} EnqueueRefines(s: MapState, e: EntryId)
    requires Pending(s, e) && s.entries[e].pos.None?
    ensures Enqueued(s, Detached(s, e), e, Entries(LiveNodes(s.queue, s.entries)))
  {
    if |s.queue| < s.retain {
      EnqueueWithRoom(s, e);
    } else {
      var c := Compress(s, s.queue);
      CompressKeeps(s, e);
      EnqueueCompressed(c, e);
      SameCore(s, c, PushBack(Roomy(c), e), e, Entries(c.queue));
      RoomMadeIs(s);
    }
  }

  /** A compressed queue without its head if compressing was not enough. */
  function Roomy(c: MapState): MapState {
    if |c.queue| == c.retain && c.queue != [] && c.queue[0].entry in c.entries then Evict(c) else c
  }

  lemma {:induction false} RoomMadeIs(s: MapState)
    requires |s.queue| == s.retain
    ensures RoomMade(s) == Roomy(Compress(s, s.queue))
  {
    CompressIs(s, s.queue);
  }

  lemma {:induction false} EnqueueCompressed(c: MapState, e: EntryId)
    requires Pending(c, e) && c.entries[e].pos.None?
    requires forall n <- c.queue :: n.entry in c.entries && c.entries[n.entry].current == 0
    ensures Enqueued(c, PushBack(Roomy(c), e), e, Entries(c.queue))
  {
    if |c.queue| < c.retain {
      LiveNodesFixed(c.queue, c.entries);
      EnqueueWithRoom(c, e);
    } else {
      EnqueueEvicting(c, e);
    }
  }

  lemma {:induction false} SameCore(s: MapState, c: MapState, s': MapState, e: EntryId, l: seq<EntryId>)
    requires Enqueued(c, s', e, l)
    requires Core(c.entries) == Core(s.entries) && c.objects == s.objects && c.retain == s.retain && c.destroyed == s.destroyed
    ensures Enqueued(s, s', e, l)
  {
    var h := (l + [e])[0];
    assert h in Core(s.entries);
    assert Core(c.entries)[h] == Core(s.entries)[h];
  }

  lemma {:induction false} PendingAfterDecrement(s: MapState, e: EntryId)
    requires MapInv(s) && !s.destroyed && s.retain > 0 && Attached(s, e) && s.entries[e].current == 1
    ensures Pending(s.(entries := s.entries[e := s.entries[e].(current := 0)]), e)
  {
    var s1 := s.(entries := s.entries[e := s.entries[e].(current := 0)]);
    assert EntryOk(s, e);
    forall x <- s1.entries | x != e
      ensures EntryOk(s1, x)
    {
      assert EntryOk(s, x);
    }
  }

  lemma {:induction false} LruAllocated(s: MapState)
    ensures forall x <- Abs(s).lru :: x in s.entries
  {
    LiveNodesAre(s.queue, s.entries);
  }

  lemma {:induction false} PlainDetachKeeps(s: MapState, e: EntryId)
    requires MapInv(s) && Attached(s, e) && (s.entries[e].current > 1 || s.retain == 0 || s.destroyed)
    ensures MapInv(DetachEntry(s, e))
  {
    var s' := DetachEntry(s, e);
    assert EntryOk(s, e);
    forall x <- s'.entries
      ensures EntryOk(s', x)
    {
      assert EntryOk(s, x);
    }
  }

  /** Detaches that leave the entry attached, or that the queue ignores. */
  lemma {:induction false} PlainDetachRefines(s: MapState, e: EntryId)
    requires MapInv(s) && Attached(s, e) && (s.entries[e].current > 1 || s.retain == 0 || s.destroyed)
    ensures forall x <- Abs(s).lru :: x in s.entries
    ensures Abs(DetachEntry(s, e)) == EagerDetach(Abs(s), e)
  {
    var s' := DetachEntry(s, e);
    LruAllocated(s);
    if s.queue != [] {
      LiveNodesSame(s.queue, s.entries, s'.entries);
    }
    CoreUpdate(s.entries, e, s.entries[e].(current := s.entries[e].current - 1));
  }

  /** detach(): the lazy queue and the eager list stay in step, and drop the same entry if any. */
  lemma {:induction false} DetachRefines(s: MapState, e: EntryId)
    requires MapInv(s) && Attached(s, e)
    ensures MapInv(DetachEntry(s, e))
    ensures forall x <- Abs(s).lru :: x in s.entries
    ensures Abs(DetachEntry(s, e)) == EagerDetach(Abs(s), e)
  {
    if s.entries[e].current > 1 || s.retain == 0 || s.destroyed {
      PlainDetachKeeps(s, e);
      PlainDetachRefines(s, e);
    } else {
      LastDetachRefines(s, e);
    }
  }

  lemma {:induction false} LastDetachRefines(s: MapState, e: EntryId)
    requires MapInv(s) && Attached(s, e) && s.entries[e].current == 1 && s.retain > 0 && !s.destroyed
    ensures MapInv(DetachEntry(s, e))
    ensures forall x <- Abs(s).lru :: x in s.entries
    ensures Abs(DetachEntry(s, e)) == EagerDetach(Abs(s), e)
  {
    LruAllocated(s);
    PendingAfterDecrement(s, e);
    if s.entries[e].pos.Some? {
      DetachRequeues(s, e);
    } else {
      DetachEnqueues(s, e);
    }
  }

  lemma {:induction false} DetachRequeues(s: MapState, e: EntryId)
    requires MapInv(s) && Attached(s, e) && s.entries[e].current == 1 && s.retain > 0 && !s.destroyed
    requires s.entries[e].pos.Some? && forall x <- Abs(s).lru :: x in s.entries
    requires Pending(s.(entries := s.entries[e := s.entries[e].(current := 0)]), e)
    ensures MapInv(DetachEntry(s, e)) && Abs(DetachEntry(s, e)) == EagerDetach(Abs(s), e)
  {
    var s1 := s.(entries := s.entries[e := s.entries[e].(current := 0)]);
    RemoveLive(s.queue, s1.entries, s.entries, e);
    RequeueRefines(s1, e);
    LastDetach(s, s1, e);
  }

  lemma {:induction false} DetachEnqueues(s: MapState, e: EntryId)
    requires MapInv(s) && Attached(s, e) && s.entries[e].current == 1 && s.retain > 0 && !s.destroyed
    requires s.entries[e].pos.None? && forall x <- Abs(s).lru :: x in s.entries
    requires Pending(s.(entries := s.entries[e := s.entries[e].(current := 0)]), e)
    ensures MapInv(DetachEntry(s, e)) && Abs(DetachEntry(s, e)) == EagerDetach(Abs(s), e)
  {
    var s1 := s.(entries := s.entries[e := s.entries[e].(current := 0)]);
    LiveBefore(s, s1, e);
    EnqueueRefines(s1, e);
    DetachedByEnqueueing(s, s1, e);
  }

  /** An entry that is not queued does not show in the list, attached or not. */
  lemma {:induction false} LiveBefore(s: MapState, s1: MapState, e: EntryId)
    requires QueueOk(s1) && e in s1.entries && s1.entries[e].pos.None?
    requires s1.queue == s.queue && forall x :: x != e ==> (x in s.entries <==> x in s1.entries)
    requires forall x | x in s.entries && x != e :: s1.entries[x] == s.entries[x]
    ensures LiveNodes(s.queue, s.entries) == LiveNodes(s1.queue, s1.entries)
  {
    NotQueued(s1, e);
    LiveNodesSame(s.queue, s.entries, s1.entries);
  }

  lemma {:induction false} DetachedByEnqueueing(s: MapState, s1: MapState, e: EntryId)
    requires MapInv(s) && Attached(s, e) && s.entries[e].current == 1 && s.retain > 0 && !s.destroyed
    requires s1 == s.(entries := s.entries[e := s.entries[e].(current := 0)])
    requires forall i | 0 <= i < |s1.queue| :: s1.queue[i].entry in s1.entries
    requires forall x <- Abs(s).lru :: x in s.entries
    requires Enqueued(s1, Detached(s1, e), e, Abs(s).lru)
    ensures MapInv(DetachEntry(s, e)) && Abs(DetachEntry(s, e)) == EagerDetach(Abs(s), e)
  {
    LastDetach(s, s1, e);
  }

  lemma {:induction false} LastDetach(s: MapState, s1: MapState, e: EntryId)
    requires MapInv(s) && Attached(s, e) && s.entries[e].current == 1 && s.retain > 0 && !s.destroyed
    requires s1 == s.(entries := s.entries[e := s.entries[e].(current := 0)])
    requires forall i | 0 <= i < |s1.queue| :: s1.queue[i].entry in s1.entries
    requires forall x <- Abs(s).lru :: x in s.entries
    requires var s', l := Detached(s1, e), Abs(s).lru + [e];
             && Core(s'.entries) == Core(s1.entries) && s'.retain == s.retain && s'.destroyed == s.destroyed
             && Abs(s').lru == (if |l| > s.retain then l[1..] else l)
             && s'.objects == (if |l| > s.retain then s.objects - {s1.entries[l[0]].id} else s.objects)
    ensures Abs(DetachEntry(s, e)) == EagerDetach(Abs(s), e)
  {
    CoreUpdate(s.entries, e, s.entries[e].(current := 0));
  }

  lemma {:induction false} DestroyRefines(s: MapState)
    requires MapInv(s)
    ensures MapInv(Destroy(s)) && Abs(Destroy(s)) == EagerDestroy(Abs(s))
  {
    forall e <- Destroy(s).entries
      ensures EntryOk(Destroy(s), e)
    {
      assert EntryOk(s, e);
    }
  }

  // --------------------------------------------------------------- whole runs

  datatype Op =
    | Match(key: Option<Key>, previous: Option<EntryId>, newborn: EntryId)
    | Detach(entry: EntryId)
    | DestroyMap

  /** What callers owe: a new entry is new, and only entries that are attached are passed on or detached. */
  ghost predicate Legal(s: MapState, op: Op) {
    match op
    case Match(_, previous, newborn) => MatchOk(s, previous, newborn)
    case Detach(e) => Attached(s, e)
    case DestroyMap => true
  }

  ghost function Step(s: MapState, op: Op): (MapState, Option<EntryId>)
    requires MapInv(s) && Legal(s, op)
  {
    match op
    case Match(key, previous, newborn) => GetMatching(s, key, previous, newborn)
    case Detach(e) => (DetachEntry(s, e), None)
    case DestroyMap => (Destroy(s), None)
  }

  ghost predicate EagerLegal(m: EagerMap, op: Op) {
    && (forall x <- m.lru :: x in m.metrics)
    && (forall k <- m.objects :: m.objects[k] in m.metrics)
    && (op.Match? && op.previous.Some? ==> op.previous.value in m.metrics)
    && (op.Detach? ==> op.entry in m.metrics)
  }

  ghost function EagerStep(m: EagerMap, op: Op): (EagerMap, Option<EntryId>)
    requires EagerLegal(m, op)
  {
    match op
    case Match(key, previous, newborn) => EagerMatch(m, key, previous, newborn)
    case Detach(e) => (EagerDetach(m, e), None)
    case DestroyMap => (EagerDestroy(m), None)
  }

  lemma {:induction false} LegalForBoth(s: MapState, op: Op)
    requires MapInv(s) && Legal(s, op)
    ensures EagerLegal(Abs(s), op)
  {
    LiveNodesAre(s.queue, s.entries);
  }

  lemma {:induction false} StepRefines(s: MapState, op: Op)
    requires MapInv(s) && Legal(s, op)
    ensures MapInv(Step(s, op).0) && EagerLegal(Abs(s), op)
    ensures EagerStep(Abs(s), op) == (Abs(Step(s, op).0), Step(s, op).1)
  {
    LegalForBoth(s, op);
    match op
    case Match(key, previous, newborn) => MatchRefines(s, key, previous, newborn);
    case Detach(e) => DetachRefines(s, e);
    case DestroyMap => DestroyRefines(s);
  }

  ghost predicate LegalRun(s: MapState, ops: seq<Op>)
    requires MapInv(s)
    decreases |ops|
  {
    ops == [] || (Legal(s, ops[0]) && (StepRefines(s, ops[0]); LegalRun(Step(s, ops[0]).0, ops[1..])))
  }

  /** The state a run ends in and the answers it gave. */
  ghost function Run(s: MapState, ops: seq<Op>): (MapState, seq<Option<EntryId>>)
    requires MapInv(s) && LegalRun(s, ops)
    decreases |ops|
  {
    if ops == [] then (s, [])
    else
      StepRefines(s, ops[0]);
      var (s', answer) := Step(s, ops[0]);
      var (f, answers) := Run(s', ops[1..]);
      (f, [answer] + answers)
  }

  /** The same operations on the eager map; None if one of them would make no sense there. */
  ghost function EagerRun(m: EagerMap, ops: seq<Op>): Option<(EagerMap, seq<Option<EntryId>>)>
    decreases |ops|
  {
    if ops == [] then Some((m, []))
    else if !EagerLegal(m, ops[0]) then None
    else
      var (m', answer) := EagerStep(m, ops[0]);
      match EagerRun(m', ops[1..])
      case None => None
      case Some((f, answers)) => Some((f, [answer] + answers))
  }

  lemma {:induction false} RunRefines(s: MapState, ops: seq<Op>)
    requires MapInv(s) && LegalRun(s, ops)
    ensures MapInv(Run(s, ops).0)
    ensures EagerRun(Abs(s), ops) == Some((Abs(Run(s, ops).0), Run(s, ops).1))
    decreases |ops|
  {
    if ops != [] {
      StepRefines(s, ops[0]);
      RunRefines(Step(s, ops[0]).0, ops[1..]);
    }
  }

  /** A map just made is in order, and is the eager map just made. */
  lemma {:induction false} NewMapInOrder(retain: nat)
    ensures MapInv(NewMap(retain)) && Abs(NewMap(retain)) == NewEagerMap(retain)
  {
  }

  /** Over every run the lazy map gives the eager map's answers, keeps its index and retains its entries in its order. */
  lemma {:induction false} LazyRefinesEager(retain: nat, ops: seq<Op>)
    requires (NewMapInOrder(retain); LegalRun(NewMap(retain), ops))
    ensures (NewMapInOrder(retain);
             var (f, answers) := Run(NewMap(retain), ops);
             MapInv(f) && EagerRun(NewEagerMap(retain), ops) == Some((Abs(f), answers)))
  {
    NewMapInOrder(retain);
    RunRefines(NewMap(retain), ops);
  }

  // --------------------------------------------------------------- retention

  ghost function AttachedEntries(s: MapState): set<EntryId> {
    set e | e in s.entries && s.entries[e].current > 0
  }

  /** At most `retain` entries are indexed beyond those that are attached, and every attached entry is indexed. */
  lemma {:induction false} RetentionBound(s: MapState)
    requires MapInv(s) && !s.destroyed && s.retain > 0
    ensures |s.objects| <= s.retain + |AttachedEntries(s)|
    ensures forall e <- AttachedEntries(s) :: Indexed(s, e)
    ensures forall k <- s.objects :: s.entries[s.objects[k]].current > 0 || Holds(s.queue, s.objects[k])
  {
    var queued := set i | 0 <= i < |s.queue| :: s.queue[i].entry;
    forall k <- s.objects
      ensures s.objects[k] in queued + AttachedEntries(s)
      ensures s.entries[s.objects[k]].current > 0 || Holds(s.queue, s.objects[k])
    {
      assert EntryOk(s, s.objects[k]);
      if s.entries[s.objects[k]].current == 0 {
        assert Holds(s.queue, s.objects[k]);
      }
    }
    forall e <- AttachedEntries(s)
      ensures Indexed(s, e)
    {
      assert EntryOk(s, e);
    }
    QueuedAtMost(s.queue, |s.queue|);
    KeysAtMost(s.objects, queued + AttachedEntries(s));
  }

  lemma {:induction false} QueuedAtMost(q: seq<QNode>, n: nat)
    requires n <= |q|
    ensures |set i | 0 <= i < n :: q[i].entry| <= n
  {
    if n > 0 {
      QueuedAtMost(q, n - 1);
      assert (set i | 0 <= i < n :: q[i].entry) == (set i | 0 <= i < n - 1 :: q[i].entry) + {q[n - 1].entry};
    }
  }

  /** An injective map has no more keys than a set containing its values has elements. */
  lemma {:induction false} KeysAtMost(objects: map<Key, EntryId>, values: set<EntryId>)
    requires forall k <- objects :: objects[k] in values
    requires forall k, k' | k in objects && k' in objects && objects[k] == objects[k'] :: k == k'
    ensures |objects| <= |values|
    decreases |objects|
  {
    if objects != map[] {
      var k :| k in objects;
      var rest := objects - {k};
      assert |objects| == |rest| + 1 by {
        assert objects.Keys == rest.Keys + {k};
      }
      KeysAtMost(rest, values - {objects[k]});
    }
  }

  /** Without retention nothing is ever queued and no entry leaves the index. */
  lemma {:induction false} NothingRetained(s: MapState, e: EntryId)
    requires MapInv(s) && s.retain == 0 && Attached(s, e)
    ensures s.queue == [] && DetachEntry(s, e).queue == [] && DetachEntry(s, e).objects == s.objects
  {
  }
}

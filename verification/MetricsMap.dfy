/**
 One metrics map: an index of entries by key, a count of attachments per entry, and a bounded queue of
 entries that were detached, cleaned only when it is full.
 */
module MetricsMap {
  import opened Prelude

  type Key = string
  type EntryId = nat

  /** The fields of an EntryT and of its metrics object; `pos` is _detachedPos, None standing for end(). */
  datatype Entry = Entry(id: Key, total: int, current: int, pos: Option<nat>)

  /** A list node: list iterators are node ids, which splice() keeps and which are never reused. */
  datatype QNode = QNode(node: nat, entry: EntryId)

  datatype MapState = MapState(
    objects: map<Key, EntryId>,
    queue: seq<QNode>,
    entries: map<EntryId, Entry>,
    retain: nat,
    destroyed: bool,
    nextNode: nat)

  predicate IsDetached(s: MapState, e: EntryId) {
    e in s.entries && s.entries[e].current == 0
  }

  function SetPos(s: MapState, e: EntryId, pos: Option<nat>): MapState {
    if e in s.entries then s.(entries := s.entries[e := s.entries[e].(pos := pos)]) else s
  }

  function Attach(s: MapState, e: EntryId): MapState
    requires e in s.entries
  {
    var r := s.entries[e];
    s.(entries := s.entries[e := r.(total := r.total + 1, current := r.current + 1)])
  }

  /**
   getMatching() after the filters and the key: `key` is None when a filter rejects the helper or its key cannot be
   computed; `newborn` is the entry allocated when the key has none.
   */
  function GetMatching(s: MapState, key: Option<Key>, previous: Option<EntryId>, newborn: EntryId): (MapState, Option<EntryId>)
    requires previous.Some? ==> previous.value in s.entries
    requires forall k <- s.objects :: s.objects[k] in s.entries
  {
    if key.None? || s.destroyed then (s, None)
    else if previous.Some? && s.entries[previous.value].id == key.value then (s, previous)
    else if key.value in s.objects then (Attach(s, s.objects[key.value]), Some(s.objects[key.value]))
    else
      var s1 := s.(objects := s.objects[key.value := newborn], entries := s.entries[newborn := Entry(key.value, 0, 0, None)]);
      (Attach(s1, newborn), Some(newborn))
  }

  /** The queue without the node an iterator points to. */
  function Without(q: seq<QNode>, node: nat): seq<QNode> {
    if q == [] then []
    else
      var last := |q| - 1;
      if q[last].node == node then Without(q[..last], node) else Without(q[..last], node) + [q[last]]
  }

  /** The loop that removes entries which are no longer detached, leaving their positions at end(). */
  function Compress(s: MapState, q: seq<QNode>): MapState {
    if q == [] then s.(queue := [])
    else
      var last := |q| - 1;
      var s' := Compress(s, q[..last]);
      if IsDetached(s, q[last].entry) then s'.(queue := s'.queue + [q[last]])
      else SetPos(s', q[last].entry, None)
  }

  function Evict(s: MapState): MapState
    requires s.queue != [] && s.queue[0].entry in s.entries
  {
    s.(objects := s.objects - {s.entries[s.queue[0].entry].id}, queue := s.queue[1..])
  }

  function PushBack(s: MapState, e: EntryId): MapState
  {
    SetPos(s, e, Some(s.nextNode)).(queue := s.queue + [QNode(s.nextNode, e)], nextNode := s.nextNode + 1)
  }

  /** What a full queue is turned into before an entry is added: compressed, and without its head if that was not enough. */
  function RoomMade(s: MapState): MapState {
    var s1 := if |s.queue| == s.retain then Compress(s, s.queue) else s;
    if |s1.queue| == s.retain && s1.queue != [] && s1.queue[0].entry in s1.entries then Evict(s1) else s1
  }

  /** MetricsMapT::detached(entry) */
  function Detached(s: MapState, e: EntryId): MapState
    requires e in s.entries
    requires forall i | 0 <= i < |s.queue| :: s.queue[i].entry in s.entries
  {
    if s.retain == 0 || s.destroyed then s
    else if s.entries[e].pos.Some? then
      var node := s.entries[e].pos.value;
      if s.queue != [] && s.queue[|s.queue| - 1].node == node then s
      else s.(queue := Without(s.queue, node) + [QNode(node, e)])
    else PushBack(RoomMade(s), e)
  }

  /** EntryT::detach() */
  function DetachEntry(s: MapState, e: EntryId): MapState
    requires e in s.entries
    requires forall i | 0 <= i < |s.queue| :: s.queue[i].entry in s.entries
  {
    var s1 := s.(entries := s.entries[e := s.entries[e].(current := s.entries[e].current - 1)]);
    if s1.entries[e].current == 0 then Detached(s1, e) else s1
  }

  /** MetricsMapT::destroy() */
  function Destroy(s: MapState): MapState {
    s.(destroyed := true, objects := map[], queue := [])
  }

  function NewMap(retain: nat): MapState {
    MapState(map[], [], map[], retain, false, 0)
  }

  // --------------------------------------------------------------- what a map keeps

  ghost predicate Indexed(s: MapState, e: EntryId) {
    e in s.entries && s.entries[e].id in s.objects && s.objects[s.entries[e].id] == e
  }

  ghost predicate Holds(q: seq<QNode>, e: EntryId) {
    exists i :: 0 <= i < |q| && q[i].entry == e
  }

  /** The queue: bounded, without duplicates, of indexed entries whose positions point back at their nodes. */
  ghost predicate QueueOk(s: MapState) {
    && |s.queue| <= s.retain
    && (forall i, j | 0 <= i < j < |s.queue| :: s.queue[i].node != s.queue[j].node && s.queue[i].entry != s.queue[j].entry)
    && (forall i | 0 <= i < |s.queue| ::
          && s.queue[i].node < s.nextNode
          && Indexed(s, s.queue[i].entry)
          && s.entries[s.queue[i].entry].pos == Some(s.queue[i].node))
  }

  ghost predicate EntryOk(s: MapState, e: EntryId)
    requires e in s.entries
  {
    var r := s.entries[e];
    && 0 <= r.current <= r.total && r.total > 0
    && (r.current > 0 && !s.destroyed ==> Indexed(s, e))
    && (Indexed(s, e) && r.pos.Some? ==> Holds(s.queue, e))
    && (s.retain > 0 && Indexed(s, e) && r.current == 0 ==> r.pos.Some?)
  }

  ghost predicate MapInv(s: MapState) {
    && (s.destroyed ==> s.objects == map[] && s.queue == [])
    && (forall k <- s.objects :: s.objects[k] in s.entries && s.entries[s.objects[k]].id == k)
    && QueueOk(s)
    && (forall e <- s.entries :: EntryOk(s, e))
  }

  // --------------------------------------------------------------- list lemmas

  ghost predicate Distinct(q: seq<QNode>) {
    forall i, j | 0 <= i < j < |q| :: q[i].node != q[j].node && q[i].entry != q[j].entry
  }

  /** Removing a node that sits at index i leaves what stood around it. */
  lemma {:induction false} WithoutIs(q: seq<QNode>, i: nat, node: nat)
    requires Distinct(q) && i < |q| && q[i].node == node
    ensures Without(q, node) == q[..i] + q[i + 1..]
  {
    var last := |q| - 1;
    if i == last {
      WithoutAbsent(q[..last], node);
    } else {
      WithoutIs(q[..last], i, node);
      assert q[..last][..i] == q[..i];
      assert q[..last][i + 1..] + [q[last]] == q[i + 1..];
    }
  }

  lemma {:induction false} WithoutAbsent(q: seq<QNode>, node: nat)
    requires forall i | 0 <= i < |q| :: q[i].node != node
    ensures Without(q, node) == q
  {
    if q != [] {
      WithoutAbsent(q[..|q| - 1], node);
    }
  }

  // --------------------------------------------------------------- compression

  /** The queue's nodes whose entries are still detached, oldest first. */
  function LiveNodes(q: seq<QNode>, entries: map<EntryId, Entry>): seq<QNode> {
    if q == [] then []
    else
      var n := q[|q| - 1];
      LiveNodes(q[..|q| - 1], entries) + (if n.entry in entries && entries[n.entry].current == 0 then [n] else [])
  }

  lemma {:induction false} HoldsSnoc(q: seq<QNode>, e: EntryId)
    requires q != []
    ensures Holds(q, e) <==> Holds(q[..|q| - 1], e) || q[|q| - 1].entry == e
  {
    if Holds(q, e) {
      var i :| 0 <= i < |q| && q[i].entry == e;
      if i < |q| - 1 { assert q[..|q| - 1][i].entry == e; }
    }
    if Holds(q[..|q| - 1], e) {
      var i :| 0 <= i < |q| - 1 && q[..|q| - 1][i].entry == e;
      assert q[i].entry == e;
    }
    if q[|q| - 1].entry == e { assert q[|q| - 1].entry == e; }
  }

  /** Compression keeps exactly the live nodes, and clears exactly the positions of the nodes it drops. */
  lemma {:induction false} CompressIs(s: MapState, q: seq<QNode>)
    ensures var c := Compress(s, q);
            && c == s.(queue := LiveNodes(q, s.entries), entries := c.entries)
            && c.entries.Keys == s.entries.Keys
            && (forall e <- s.entries ::
                  c.entries[e] == s.entries[e].(pos := if Holds(q, e) && !IsDetached(s, e) then None else s.entries[e].pos))
  {
    if q != [] {
      CompressIs(s, q[..|q| - 1]);
      forall e <- s.entries
        ensures Holds(q, e) <==> Holds(q[..|q| - 1], e) || q[|q| - 1].entry == e
      {
        HoldsSnoc(q, e);
      }
    }
  }

  lemma {:induction false} LiveNodesAre(q: seq<QNode>, entries: map<EntryId, Entry>)
    ensures |LiveNodes(q, entries)| <= |q|
    ensures forall n <- LiveNodes(q, entries) :: n in q && n.entry in entries && entries[n.entry].current == 0
    ensures forall n <- q :: n.entry in entries && entries[n.entry].current == 0 ==> n in LiveNodes(q, entries)
    ensures Distinct(q) ==> Distinct(LiveNodes(q, entries))
  {
    if q != [] {
      var p, n := q[..|q| - 1], q[|q| - 1];
      LiveNodesAre(p, entries);
      assert q == p + [n];
      if Distinct(q) {
        assert forall i | 0 <= i < |p| :: p[i].node != n.node && p[i].entry != n.entry;
        DistinctSnoc(LiveNodes(p, entries), n, p);
      }
    }
  }

  lemma {:induction false} DistinctSnoc(live: seq<QNode>, n: QNode, p: seq<QNode>)
    requires Distinct(live) && (forall x <- live :: x in p)
    requires forall i | 0 <= i < |p| :: p[i].node != n.node && p[i].entry != n.entry
    ensures Distinct(live + [n])
  {
    forall i | 0 <= i < |live|
      ensures live[i].node != n.node && live[i].entry != n.entry
    {
      assert live[i] in p;
    }
  }

  lemma {:induction false} LiveNodesSame(q: seq<QNode>, a: map<EntryId, Entry>, b: map<EntryId, Entry>)
    requires forall i | 0 <= i < |q| ::
               (q[i].entry in a && a[q[i].entry].current == 0) <==> (q[i].entry in b && b[q[i].entry].current == 0)
    ensures LiveNodes(q, a) == LiveNodes(q, b)
  {
    if q != [] {
      LiveNodesSame(q[..|q| - 1], a, b);
    }
  }

  lemma {:induction false} LiveNodesConcat(p: seq<QNode>, q: seq<QNode>, entries: map<EntryId, Entry>)
    ensures LiveNodes(p + q, entries) == LiveNodes(p, entries) + LiveNodes(q, entries)
  {
    if q == [] {
      assert p + q == p;
    } else {
      LiveNodesConcat(p, q[..|q| - 1], entries);
      assert (p + q)[..|p + q| - 1] == p + q[..|q| - 1];
    }
  }

  /** A queue in which every entry is detached is its own live part. */
  lemma {:induction false} LiveNodesFixed(q: seq<QNode>, entries: map<EntryId, Entry>)
    requires forall n <- q :: n.entry in entries && entries[n.entry].current == 0
    ensures LiveNodes(q, entries) == q
  {
    if q != [] {
      assert q == q[..|q| - 1] + [q[|q| - 1]];
      LiveNodesFixed(q[..|q| - 1], entries);
    }
  }
}

/**
 MetricsMapT and its EntryT objects, updated in place.

 Each method is proved to do what the map model does.
 */
module MetricsMapClass {
  import opened Prelude
  import opened MetricsMap
  import opened MetricsRetention

  class EntryT {
    const id: Key
    var total: int
    var current: int
    var detachedPos: Option<nat>

    constructor (id: Key)
      ensures this.id == id && Record() == Entry(id, 0, 0, None)
    {
      this.id, total, current, detachedPos := id, 0, 0, None;
    }

    function Record(): Entry
      reads this
    {
      Entry(id, total, current, detachedPos)
    }
  }

  /** What the methods look up without checking: indexed and queued entries exist, and a position implies a queue. */
  ghost predicate Linked(s: MapState) {
    && (forall k <- s.objects :: s.objects[k] in s.entries)
    && (forall n <- s.queue :: n.entry in s.entries)
  }

  /** Every map in order is linked, and detached() finds a queue behind the position of an entry it is given. */
  lemma {:induction false} InOrderIsLinked(s: MapState)
    requires MapInv(s)
    ensures Linked(s)
    ensures forall e | Attached(s, e) && s.entries[e].pos.Some? && !s.destroyed :: s.queue != []
  {
    forall e | Attached(s, e) && s.entries[e].pos.Some? && !s.destroyed
      ensures s.queue != []
    {
      assert EntryOk(s, e);
    }
    forall n <- s.queue
      ensures n.entry in s.entries
    {
      var i :| 0 <= i < |s.queue| && s.queue[i] == n;
      assert Indexed(s, s.queue[i].entry);
    }
  }

  lemma {:induction false} CompressedExist(s: MapState)
    ensures var c := Compress(s, s.queue); forall n <- c.queue :: n.entry in c.entries
  {
    CompressIs(s, s.queue);
    LiveNodesAre(s.queue, s.entries);
  }

  class MetricsMapT {
    var objects: map<Key, EntryId>
    var detachedQueue: seq<QNode>
    var entries: map<EntryId, EntryT>    // the EntryT object behind each identity
    const retain: nat
    var destroyed: bool
    var nextNode: nat
    var nextEntry: EntryId

    ghost predicate Valid()
      reads this
    {
      && (forall e, f | e in entries && f in entries && entries[e] == entries[f] :: e == f)
      && (forall e <- entries :: e < nextEntry)
    }

    ghost function State(): MapState
      reads this, entries.Values
    {
      MapState(objects, detachedQueue, map e | e in entries :: entries[e].Record(), retain, destroyed, nextNode)
    }

    constructor (retain: nat)
      ensures Valid() && State() == NewMap(retain)
    {
      this.retain := retain;
      objects, detachedQueue, entries, destroyed, nextNode, nextEntry := map[], [], map[], false, 0, 0;
    }

    /** EntryT::attach() */
    method Attach(e: EntryId)
      requires Valid() && e in entries
      modifies entries[e]
      ensures State() == MetricsMap.Attach(old(State()), e)
    {
      entries[e].total := entries[e].total + 1;
      entries[e].current := entries[e].current + 1;
      assert State().entries == MetricsMap.Attach(old(State()), e).entries;
    }

    method PutPosition(e: EntryId, pos: Option<nat>)
      requires Valid() && e in entries
      modifies entries[e]
      ensures State() == SetPos(old(State()), e, pos)
    {
      entries[e].detachedPos := pos;
      assert State().entries == SetPos(old(State()), e, pos).entries;
    }

    method Create(key: Key)
      requires Valid()
      modifies this`entries, this`objects, this`nextEntry
      ensures Valid() && fresh(entries.Values - old(entries.Values))
      ensures nextEntry == old(nextEntry) + 1 && old(nextEntry) !in old(State()).entries
      ensures State() == old(State()).(objects := old(objects)[key := old(nextEntry)],
                                       entries := old(State()).entries[old(nextEntry) := Entry(key, 0, 0, None)])
    {
      var newborn := new EntryT(key);
      entries := entries[nextEntry := newborn];
      objects := objects[key := nextEntry];
      nextEntry := nextEntry + 1;
      assert State().entries == old(State()).entries[old(nextEntry) := Entry(key, 0, 0, None)];
    }

    /** getMatching(); `key` is None when a filter rejects the helper or its key cannot be computed. */
    method Match(key: Option<Key>, previous: Option<EntryId>) returns (result: Option<EntryId>)
      requires Valid() && Linked(State()) && (previous.Some? ==> previous.value in State().entries)
      modifies this`entries, this`objects, this`nextEntry, entries.Values
      ensures Valid() && fresh(entries.Values - old(entries.Values))
      ensures old(nextEntry) !in old(State()).entries
      ensures (State(), result) == GetMatching(old(State()), key, previous, old(nextEntry))
    {
      if key == None || destroyed {
        return None;
      }
      if previous != None && entries[previous.value].id == key.value {
        return previous;
      }
      if key.value !in objects {
        Create(key.value);
      }
      assert objects[key.value] in State().entries;
      Attach(objects[key.value]);
      return Some(objects[key.value]);
    }

    /** EntryT::detach() */
    method Detach(e: EntryId)
      requires Valid() && Linked(State()) && e in State().entries
      requires State().entries[e].pos.Some? && !destroyed && retain > 0 ==> detachedQueue != []
      modifies this`detachedQueue, this`objects, this`nextNode, entries.Values
      ensures Valid()
      ensures State() == DetachEntry(old(State()), e)
    {
      ghost var s := State();
      entries[e].current := entries[e].current - 1;
      ghost var s1 := s.(entries := s.entries[e := s.entries[e].(current := s.entries[e].current - 1)]);
      assert State().entries == s1.entries;
      if entries[e].current == 0 {
        EnqueueDetached(e);
      }
    }

    /** detached(entry) */
    method EnqueueDetached(e: EntryId)
      requires Valid() && Linked(State()) && e in State().entries
      requires State().entries[e].pos.Some? && !destroyed && retain > 0 ==> detachedQueue != []
      modifies this`detachedQueue, this`objects, this`nextNode, entries.Values
      ensures State() == Detached(old(State()), e)
    {
      if retain == 0 || destroyed {
        return;
      }
      if entries[e].detachedPos != None {
        var node := entries[e].detachedPos.value;
        if detachedQueue[|detachedQueue| - 1].node != node {
          detachedQueue := Without(detachedQueue, node) + [QNode(node, e)];
        }
        return;
      }
      MakeRoom();
      Append(e);
    }

    method Append(e: EntryId)
      requires Valid() && e in State().entries
      modifies this`detachedQueue, this`nextNode, entries[e]
      ensures State() == PushBack(old(State()), e)
    {
      PutPosition(e, Some(nextNode));
      detachedQueue := detachedQueue + [QNode(nextNode, e)];
      nextNode := nextNode + 1;
    }

    /** Compress a full queue, and remove the oldest entry if there is still no room. */
    method MakeRoom()
      requires Valid() && Linked(State()) && retain > 0
      modifies this`detachedQueue, this`objects, entries.Values
      ensures Valid() && entries == old(entries)
      ensures State() == RoomMade(old(State()))
    {
      if |detachedQueue| == retain {
        CompressedExist(State());
        CompressQueue();
      }
      if |detachedQueue| == retain {
        assert State().queue[0] in State().queue;
        RemoveOldest();
      }
    }

    method RemoveOldest()
      requires Valid() && detachedQueue != [] && detachedQueue[0].entry in State().entries
      modifies this`detachedQueue, this`objects
      ensures State() == Evict(old(State()))
    {
      objects := objects - {entries[detachedQueue[0].entry].id};
      detachedQueue := detachedQueue[1..];
    }

    /** One round of the erasing loop, at the node with index p. */
    method EraseOrSkip(p: nat) returns (next: nat)
      requires Valid() && p < |detachedQueue| && detachedQueue[p].entry in State().entries
      modifies this`detachedQueue, entries.Values
      ensures var s, e := old(State()), old(detachedQueue)[p].entry;
              if s.entries[e].current == 0 then State() == s && next == p + 1
              else State() == SetPos(s, e, None).(queue := s.queue[..p] + s.queue[p + 1..]) && next == p
    {
      var e := detachedQueue[p].entry;
      if entries[e].current != 0 {
        PutPosition(e, None);
        detachedQueue := detachedQueue[..p] + detachedQueue[p + 1..];
        next := p;
      } else {
        next := p + 1;
      }
    }

    method EraseRound(p: nat, ghost s: MapState, ghost q: seq<QNode>, ghost k: nat) returns (next: nat)
      requires Valid() && k < |q| && q[k].entry in s.entries
      requires p == |Compress(s, q[..k]).queue| && State() == Rest(s, q, k)
      modifies this`detachedQueue, entries.Values
      ensures next == |Compress(s, q[..k + 1]).queue| && State() == Rest(s, q, k + 1)
      ensures Valid() && |detachedQueue| - next < |old(detachedQueue)| - p
    {
      CompressRound(s, q, k);
      next := EraseOrSkip(p);
    }

    /** The loop that erases the nodes of entries which are no longer detached. */
    method CompressQueue()
      requires Valid() && Linked(State())
      modifies this`detachedQueue, entries.Values
      ensures State() == Compress(old(State()), old(detachedQueue))
    {
      ghost var s, q, k := State(), detachedQueue, 0;
      var p := 0;
      while p < |detachedQueue|
        invariant k <= |q| && p == |Compress(s, q[..k]).queue|
        invariant State() == Rest(s, q, k)
        decreases |detachedQueue| - p
      {
        p := EraseRound(p, s, q, k);
        k := k + 1;
      }
      RestEnds(s, q, k);
    }

    /** destroy() */
    method Destroy()
      modifies this`destroyed, this`objects, this`detachedQueue
      ensures State() == MetricsMap.Destroy(old(State()))
    {
      destroyed := true;
      objects := map[];
      detachedQueue := [];
    }
  }

  /** The state of the erasing loop when k of the original nodes have been visited. */
  ghost function Rest(s: MapState, q: seq<QNode>, k: nat): MapState
    requires k <= |q|
  {
    var c := Compress(s, q[..k]);
    c.(queue := c.queue + q[k..])
  }

  lemma {:induction false} RestEnds(s: MapState, q: seq<QNode>, k: nat)
    requires k <= |q| && |Rest(s, q, k).queue| <= |Compress(s, q[..k]).queue|
    ensures Rest(s, q, k) == Compress(s, q)
  {
    assert k == |q| && q[..k] == q;
    assert Compress(s, q).queue + q[k..] == Compress(s, q).queue;
  }

  lemma {:induction false} CompressRound(s: MapState, q: seq<QNode>, k: nat)
    requires k < |q| && q[k].entry in s.entries
    ensures var r, r', p := Rest(s, q, k), Rest(s, q, k + 1), |Compress(s, q[..k]).queue|;
            && p < |r.queue| && r.queue[p] == q[k] && q[k].entry in r.entries
            && r.entries[q[k].entry].current == s.entries[q[k].entry].current
            && (s.entries[q[k].entry].current == 0 ==> r' == r && |Compress(s, q[..k + 1]).queue| == p + 1)
            && (s.entries[q[k].entry].current != 0 ==>
                  r' == SetPos(r, q[k].entry, None).(queue := r.queue[..p] + r.queue[p + 1..]) &&
                  |Compress(s, q[..k + 1]).queue| == p)
  {
    var c := Compress(s, q[..k]);
    CompressIs(s, q[..k]);
    assert q[..k + 1][..k] == q[..k];
    assert c.queue + q[k..] == c.queue + [q[k]] + q[k + 1..];
    var r := Rest(s, q, k);
    assert r.queue[..|c.queue|] + r.queue[|c.queue| + 1..] == c.queue + q[k + 1..];
  }
}

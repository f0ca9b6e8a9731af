/**
 The class itself: its map, its latches and the critical sections of its methods, statement by statement.
 What each section does to the fields is what the transition system takes as one step.
 */
module CacheClass {
  import opened Prelude
  import opened Cache
  import opened CacheSafety

  /** What a caller must find in order before it may look at a key's node. */
  ghost predicate Sound(m: Memory) {
    && (forall k <- m.index :: m.index[k] in m.nodes && m.nodes[m.index[k]].key == k)
    && (forall n <- m.nodes :: n < m.nextNode &&
          (m.nodes[n].latch.Some? ==> m.nodes[n].latch.value in m.latches && m.latches[m.nodes[n].latch.value].count == 1))
    && (forall l <- m.latches :: l < m.nextLatch)
  }

  /** In every reachable state each thread may run its next critical section: the methods' preconditions hold. */
  lemma {:induction false} SectionsMayRun(s: State, t: nat)
    requires Inv(s) && t < |s.pcs|
    ensures Sound(s.mem)
    ensures s.pcs[t].Woken? ==> s.pcs[t].latch in s.mem.latches && s.mem.latches[s.pcs[t].latch].count == 0
    ensures s.pcs[t].Loaded? ==> s.pcs[t].node in s.mem.nodes
    ensures s.pcs[t].Entering? && s.pcs[t].call.Unpin? ==> s.pcs[t].call.node in s.mem.nodes
  {
    assert PcOk(s.mem, s.handed, s.pcs[t]);
    forall n <- s.mem.nodes
      ensures s.mem.nodes[n].latch.Some? ==>
                s.mem.nodes[n].latch.value in s.mem.latches && s.mem.latches[s.mem.nodes[n].latch.value].count == 1
    {
      assert NodeOk(s, n);
    }
  }

  class LoadOnceCache {
    var index: map<Key, NodeId>
    var nodes: map<NodeId, Node>
    var latches: map<LatchId, Latch>
    var nextNode: NodeId
    var nextLatch: LatchId

    ghost function Mem(): Memory
      reads this
    {
      Memory(index, nodes, latches, nextNode, nextLatch, false)
    }

    constructor ()
      ensures Mem() == EmptyMemory
    {
      index, nodes, latches, nextNode, nextLatch := map[], map[], map[], 0, 0;
    }

    /** std::map::insert: the node of the key, and whether it was added by this call. */
    method InsertNode(key: Key, obj: Option<Obj>) returns (p: NodeId, inserted: bool)
      modifies this
      ensures inserted <==> key !in old(index)
      ensures inserted ==> p == old(nextNode) && Mem() == Insert(old(Mem()), key, obj)
      ensures !inserted ==> p == old(index)[key] && Mem() == old(Mem())
    {
      if key in index {
        return index[key], false;
      }
      p, inserted := nextNode, true;
      nodes := nodes[p := Node(key, obj, None)];
      index := index[key := p];
      nextNode := nextNode + 1;
    }

    method EraseNode(p: NodeId)
      requires p in nodes
      modifies this
      ensures Mem() == Erase(old(Mem()), p)
    {
      index := index - {nodes[p].key};
      nodes := nodes - {p};
    }

    /** A thread about to wait makes sure the node has a latch and counts itself in. */
    method Join(p: NodeId) returns (latch: LatchId)
      requires p in nodes && (nodes[p].latch.Some? ==> nodes[p].latch.value in latches)
      modifies this
      ensures (Mem(), latch) == JoinLatch(old(Mem()), p)
    {
      if nodes[p].latch == None {
        latches := latches[nextLatch := Latch(1, 0)];
        nodes := nodes[p := nodes[p].(latch := Some(nextLatch))];
        nextLatch := nextLatch + 1;
      }
      latch := nodes[p].latch.value;
      latches := latches[latch := latches[latch].(useCount := latches[latch].useCount + 1)];
      assert latches == JoinLatch(old(Mem()), p).0.latches;
    }

    /** Clean up the latch from the previous round of the loop. */
    method Leave(latch: LatchId)
      requires latch in latches
      modifies this
      ensures Mem() == LeaveLatch(old(Mem()), latch)
    {
      latches := latches[latch := latches[latch].(useCount := latches[latch].useCount - 1)];
      if latches[latch].useCount == 0 {
        latches := latches - {latch};
      }
      assert latch in latches ==> Mem() == LeaveLatch(old(Mem()), latch);
      assert latch !in latches ==> latches == old(latches) - {latch};
    }

    method OpenLatch(latch: Option<LatchId>)
      requires latch.Some? ==> latch.value in latches && latches[latch.value].count == 1
      modifies this
      ensures Mem() == CountDown(old(Mem()), latch)
    {
      if latch != None {
        latches := latches[latch.value := latches[latch.value].(count := latches[latch.value].count - 1)];
      }
    }

    /** The locked part of one round of pinImpl: clean up, insert or find, and return, wait or go on to load. */
    method PinImplRound(key: Key, newObj: Option<Obj>, previous: Option<LatchId>) returns (next: Next)
      requires Sound(Mem()) && (previous.Some? ==> previous.value in latches && latches[previous.value].count == 0)
      modifies this
      ensures (Mem(), next) ==
              LookSection(if previous.Some? then LeaveLatch(old(Mem()), previous.value) else old(Mem()), PinImpl(key, newObj))
    {
      if previous != None {
        Leave(previous.value);
      }
      var p, inserted := InsertNode(key, None);
      if !inserted {
        if nodes[p].obj != None {
          return Reply(Handle(nodes[p].obj));
        }
        var latch := Join(p);
        return Await(latch);
      }
      return Load(p);
    }

    /** The locked part of one round of getIfPinned. */
    method GetIfPinnedRound(key: Key, wait: bool, previous: Option<LatchId>) returns (next: Next)
      requires Sound(Mem()) && (previous.Some? ==> previous.value in latches && latches[previous.value].count == 0)
      modifies this
      ensures (Mem(), next) ==
              LookSection(if previous.Some? then LeaveLatch(old(Mem()), previous.value) else old(Mem()), GetIfPinned(key, wait))
    {
      if previous != None {
        Leave(previous.value);
      }
      if key in index {
        var p := index[key];
        var result := nodes[p].obj;
        if result != None || wait == false {
          return Reply(Handle(result));
        }
        var latch := Join(p);
        return Await(latch);
      } else {
        return Reply(Handle(None));
      }
    }

    /** bool pin(key, obj); `throws` is what pinned() does. */
    method Pin(key: Key, obj: Obj, throws: bool) returns (out: Outcome, given: set<NodeId>)
      modifies this
      ensures (Mem(), out, given) == PinObjSection(old(Mem()), key, obj, throws)
    {
      var p, inserted := InsertNode(key, Some(obj));
      given := {};
      if inserted {
        given := {p};
        if throws {
          return Threw, given;
        }
      }
      out := Flag(inserted);
    }

    /** The locked part of pinImpl after load(): publish, give up, or report that load() threw. */
    method PublishRound(p: NodeId, newObj: Option<Obj>, loaded: LoadResult, throws: bool)
      returns (out: Outcome, given: set<NodeId>)
      requires Sound(Mem()) && p in nodes
      modifies this
      ensures (Mem(), out, given) == PublishSection(old(Mem()), p, newObj, loaded, throws)
    {
      var latch := nodes[p].latch;
      nodes := nodes[p := nodes[p].(latch := None)];
      given := {};
      if loaded == Failed {
        EraseNode(p);
        OpenLatch(latch);
        return Threw, given;
      }
      var thrown := false;
      if loaded.Found? {
        nodes := nodes[p := nodes[p].(obj := Some(loaded.obj))];
        given := {p};
        thrown := throws;
      } else if newObj == None {
        EraseNode(p);
      } else {
        nodes := nodes[p := nodes[p].(obj := newObj)];
        given := {p};
        thrown := throws;
      }
      OpenLatch(latch);
      if thrown {
        return Threw, given;
      }
      out := Handle(if loaded.Found? then Some(loaded.obj) else None);
    }
  }
}

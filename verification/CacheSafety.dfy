/**
 What every reachable state of the cache keeps: no stale access, one loader a key, exact use counts of latches.

 Each kind of step keeps the invariant by a lemma of its own; every kind of change to the memory has a predicate that
 says what it leaves alone.
 */
module CacheSafety {
  import opened Prelude
  import opened Cache

  // --------------------------------------------------------------- the invariant

  /** The map and its nodes are one structure, and ids in use were allocated. */
  ghost predicate MapOk(m: Memory) {
    && (forall k <- m.index :: m.index[k] in m.nodes && m.nodes[m.index[k]].key == k)
    && (forall n <- m.nodes :: n < m.nextNode && m.nodes[n].key in m.index && m.index[m.nodes[n].key] == n)
    && (forall l <- m.latches :: l < m.nextLatch)
  }

  predicate Loads(pc: Pc, n: NodeId) {
    (pc.Loading? || pc.Loaded?) && pc.node == n
  }

  predicate WaitsOn(pc: Pc, l: LatchId) {
    (pc.Awaiting? || pc.Woken?) && pc.latch == l
  }

  /** What a program counter promises about the call it carries and about the memory it points to. */
  ghost predicate PcOk(m: Memory, handed: set<NodeId>, pc: Pc) {
    match pc
    case Idle => true
    case Entering(call) =>
      call.Unpin? ==> call.node !in handed && call.node in m.nodes && m.nodes[call.node].obj.Some?
    case Awaiting(call, l) => (call.PinImpl? || (call.GetIfPinned? && call.wait)) && l in m.latches
    case Woken(call, l) =>
      (call.PinImpl? || (call.GetIfPinned? && call.wait)) && l in m.latches && m.latches[l].count == 0
    case Loading(call, n) => call.PinImpl? && n in m.nodes && m.nodes[n].key == call.key && m.nodes[n].obj.None?
    case Loaded(call, n, _) => call.PinImpl? && n in m.nodes && m.nodes[n].key == call.key && m.nodes[n].obj.None?
    case Returned(_, _) => true
  }

  predicate Unpins(pc: Pc, n: NodeId) {
    pc.Entering? && pc.call.Unpin? && pc.call.node == n
  }

  /** No two threads load into the same node, and no two unpin the same position. */
  ghost predicate Exclusive(pcs: seq<Pc>) {
    && (forall t, u, n | 0 <= t < |pcs| && 0 <= u < |pcs| && Loads(pcs[t], n) && Loads(pcs[u], n) :: t == u)
    && (forall t, u, n | 0 <= t < |pcs| && 0 <= u < |pcs| && Unpins(pcs[t], n) && Unpins(pcs[u], n) :: t == u)
  }

  ghost predicate HasLoader(pcs: seq<Pc>, n: NodeId) {
    exists t :: 0 <= t < |pcs| && Loads(pcs[t], n)
  }

  ghost predicate NodeOk(s: State, n: NodeId)
    requires n in s.mem.nodes
  {
    var node := s.mem.nodes[n];
    && (node.obj.None? ==> HasLoader(s.pcs, n))
    && (node.latch.Some? ==> node.obj.None? && node.latch.value in s.mem.latches &&
                             s.mem.latches[node.latch.value].count == 1)
  }

  ghost predicate Holds(m: Memory, l: LatchId, n: NodeId) {
    n in m.nodes && m.nodes[n].latch == Some(l)
  }

  ghost function Waiters(pcs: seq<Pc>, l: LatchId): set<nat> {
    set t: nat | t < |pcs| && WaitsOn(pcs[t], l)
  }

  /** A live latch counts its waiters, has at least one, and is closed exactly while one node points to it. */
  ghost predicate LatchOk(s: State, l: LatchId)
    requires l in s.mem.latches
  {
    var latch := s.mem.latches[l];
    && latch.useCount == |Waiters(s.pcs, l)| >= 1
    && latch.count <= 1
    && (latch.count == 1 ==> exists n :: Holds(s.mem, l, n))
    && (forall n, n' | Holds(s.mem, l, n) && Holds(s.mem, l, n') :: n == n')
  }

  ghost predicate Inv(s: State) {
    && !s.mem.fault
    && MapOk(s.mem)
    && (forall t | 0 <= t < |s.pcs| :: PcOk(s.mem, s.handed, s.pcs[t]))
    && Exclusive(s.pcs)
    && (forall n <- s.mem.nodes :: NodeOk(s, n))
    && (forall n <- s.handed :: n in s.mem.nodes && s.mem.nodes[n].obj.Some?)
    && (forall l <- s.mem.latches :: LatchOk(s, l))
  }

  // --------------------------------------------------------------- how the waiters of a latch change

  lemma {:induction false} WaitersAfter(pcs: seq<Pc>, t: nat, pc: Pc, l: LatchId)
    requires t < |pcs|
    ensures Waiters(pcs[t := pc], l) == if WaitsOn(pc, l) then Waiters(pcs, l) + {t} else Waiters(pcs, l) - {t}
  {
  }

  /** Replacing one program counter changes the waiter count by what that thread gains or loses. */
  lemma {:induction false} WaiterCountAfter(pcs: seq<Pc>, t: nat, pc: Pc, l: LatchId)
    requires t < |pcs|
    ensures |Waiters(pcs[t := pc], l)| ==
            |Waiters(pcs, l)| + (if WaitsOn(pc, l) then 1 else 0) - (if WaitsOn(pcs[t], l) then 1 else 0)
  {
    WaitersAfter(pcs, t, pc, l);
    var W := Waiters(pcs, l);
    if WaitsOn(pcs[t], l) {
      assert t in W;
      assert W == (W - {t}) + {t};
    } else {
      assert t !in W;
    }
    if WaitsOn(pc, l) && t in W {
      assert W + {t} == W;
    }
    if !WaitsOn(pc, l) && t !in W {
      assert W - {t} == W;
    }
  }

  lemma {:induction false} LoaderAfter(pcs: seq<Pc>, t: nat, pc: Pc, n: NodeId)
    requires t < |pcs|
    requires Loads(pc, n) || (HasLoader(pcs, n) && !Loads(pcs[t], n))
    ensures HasLoader(pcs[t := pc], n)
  {
    if Loads(pc, n) {
      assert Loads(pcs[t := pc][t], n);
    } else {
      var u :| 0 <= u < |pcs| && Loads(pcs[u], n);
      assert Loads(pcs[t := pc][u], n);
    }
  }

  lemma {:induction false} ExclusiveAfter(pcs: seq<Pc>, t: nat, pc: Pc)
    requires t < |pcs| && Exclusive(pcs)
    requires forall u, n | 0 <= u < |pcs| && u != t && Loads(pc, n) :: !Loads(pcs[u], n)
    requires forall u, n | 0 <= u < |pcs| && u != t && Unpins(pc, n) :: !Unpins(pcs[u], n)
    ensures Exclusive(pcs[t := pc])
  {
  }

  /** A latch stays in order when its record, its waiters' number and the nodes pointing to it stay the same. */
  lemma {:induction false} LatchKept(s: State, s': State, l: LatchId)
    requires l in s.mem.latches && l in s'.mem.latches && s'.mem.latches[l] == s.mem.latches[l]
    requires LatchOk(s, l)
    requires |Waiters(s'.pcs, l)| == |Waiters(s.pcs, l)|
    requires forall n :: Holds(s'.mem, l, n) <==> Holds(s.mem, l, n)
    ensures LatchOk(s', l)
  {
    if s.mem.latches[l].count == 1 {
      var n :| Holds(s.mem, l, n);
      assert Holds(s'.mem, l, n);
    }
    forall n, n' | Holds(s'.mem, l, n) && Holds(s'.mem, l, n')
      ensures n == n'
    {
      assert Holds(s.mem, l, n) && Holds(s.mem, l, n');
    }
  }

  lemma {:induction false} NodeKept(s: State, s': State, t: nat, n: NodeId)
    requires t < |s.pcs| == |s'.pcs| && s'.pcs == s.pcs[t := s'.pcs[t]]
    requires n in s.mem.nodes && n in s'.mem.nodes && s'.mem.nodes[n] == s.mem.nodes[n] && NodeOk(s, n)
    requires Loads(s.pcs[t], n) ==> Loads(s'.pcs[t], n)
    requires s.mem.nodes[n].latch.Some? ==>
               var l := s.mem.nodes[n].latch.value;
               l in s'.mem.latches && s'.mem.latches[l].count == s.mem.latches[l].count
    ensures NodeOk(s', n)
  {
    if s.mem.nodes[n].obj.None? {
      LoaderAfter(s.pcs, t, s'.pcs[t], n);
    }
  }

  // --------------------------------------------------------------- preservation, one lemma per kind of step

  lemma {:induction false} InitInv(s: State)
    requires Init(s)
    ensures Inv(s)
  {
  }

  /** Steps that leave the memory alone and neither join nor leave a latch. */
  lemma {:induction false} KeepsMemory(s: State, s': State, t: nat)
    requires Inv(s) && t < |s.pcs| == |s'.pcs| && s'.pcs == s.pcs[t := s'.pcs[t]]
    requires s'.mem == s.mem && s'.handed <= s.handed
    requires PcOk(s.mem, s'.handed, s'.pcs[t])
    requires forall l :: WaitsOn(s'.pcs[t], l) == WaitsOn(s.pcs[t], l)
    requires forall n :: Loads(s'.pcs[t], n) == Loads(s.pcs[t], n)
    requires forall u, n | 0 <= u < |s.pcs| && u != t && Unpins(s.pcs[u], n) :: !Unpins(s'.pcs[t], n)
    ensures Inv(s')
  {
    forall u | 0 <= u < |s'.pcs|
      ensures PcOk(s'.mem, s'.handed, s'.pcs[u])
    {
      assert PcOk(s.mem, s.handed, s.pcs[u]);
    }
    forall l <- s'.mem.latches
      ensures LatchOk(s', l)
    {
      WaiterCountAfter(s.pcs, t, s'.pcs[t], l);
      LatchKept(s, s', l);
    }
    forall n <- s'.mem.nodes
      ensures NodeOk(s', n)
    {
      NodeKept(s, s', t, n);
    }
  }

  lemma {:induction false} KeepsSimple(s: State, a: Action)
    requires Inv(s) && Enabled(s, a)
    requires a.Invoke? || a.AwaitReturns? || a.LoadReturns? || a.Return?
    ensures Inv(Apply(s, a))
  {
    assert PcOk(s.mem, s.handed, s.pcs[a.t]);
    forall u, n | 0 <= u < |s.pcs| && u != a.t && Unpins(s.pcs[u], n)
      ensures !Unpins(Apply(s, a).pcs[a.t], n)
    {
      assert PcOk(s.mem, s.handed, s.pcs[u]);
    }
    KeepsMemory(s, Apply(s, a), a.t);
  }

  lemma {:induction false} KeepsUnpin(s: State, a: Action)
    requires Inv(s) && Enabled(s, a) && a.Enter? && s.pcs[a.t].call.Unpin?
    ensures Inv(Apply(s, a))
  {
    var s' := Apply(s, a);
    var n := s.pcs[a.t].call.node;
    assert PcOk(s.mem, s.handed, s.pcs[a.t]);
    assert Unpins(s.pcs[a.t], n);
    assert NodeOk(s, n);
    forall u | 0 <= u < |s'.pcs|
      ensures PcOk(s'.mem, s'.handed, s'.pcs[u])
    {
      assert PcOk(s.mem, s.handed, s.pcs[u]);
      if u != a.t && s.pcs[u].Entering? && s.pcs[u].call.Unpin? {
        assert Unpins(s.pcs[u], s.pcs[u].call.node);
      }
    }
    forall l <- s'.mem.latches
      ensures LatchOk(s', l)
    {
      WaiterCountAfter(s.pcs, a.t, s'.pcs[a.t], l);
      LatchKept(s, s', l);
    }
    forall h <- s'.mem.nodes
      ensures NodeOk(s', h)
    {
      NodeKept(s, s', a.t, h);
    }
  }

  /** A step that inserts a fresh node for an absent key: a placeholder its thread will load, or a pinned object. */
  lemma {:induction false} KeepsInsert(s: State, t: nat, pc: Pc, k: Key, o: Option<Obj>, given: set<NodeId>)
    requires Inv(s) && t < |s.pcs| && s.pcs[t].Entering? && !s.pcs[t].call.Unpin?
    requires k !in s.mem.index
    requires o.None? ==> pc.Loading? && pc.node == s.mem.nextNode && pc.call.PinImpl? && pc.call.key == k && given == {}
    requires o.Some? ==> pc.Returned? && given == {s.mem.nextNode}
    ensures Inv(State(Insert(s.mem, k, o), s.pcs[t := pc], s.handed + given))
  {
    var s' := State(Insert(s.mem, k, o), s.pcs[t := pc], s.handed + given);
    InsertKeepsPcs(s, s'.mem, t, k, o, given);
    ExclusiveAfter(s.pcs, t, pc);
    assert MapOk(s'.mem);
    InsertKeepsLatches(s, s', t);
    InsertKeepsNodes(s, s', t);
  }

  lemma {:induction false} InsertKeepsPcs(s: State, m: Memory, t: nat, k: Key, o: Option<Obj>, given: set<NodeId>)
    requires Inv(s) && m == Insert(s.mem, k, o) && k !in s.mem.index && given <= {s.mem.nextNode}
    ensures forall u | 0 <= u < |s.pcs| && u != t ::
              PcOk(m, s.handed + given, s.pcs[u]) && !Loads(s.pcs[u], s.mem.nextNode)
  {
    forall u | 0 <= u < |s.pcs| && u != t
      ensures PcOk(m, s.handed + given, s.pcs[u]) && !Loads(s.pcs[u], s.mem.nextNode)
    {
      assert PcOk(s.mem, s.handed, s.pcs[u]);
    }
  }

  lemma {:induction false} InsertKeepsLatches(s: State, s': State, t: nat)
    requires Inv(s) && t < |s.pcs| && |s'.pcs| == |s.pcs| && s'.pcs == s.pcs[t := s'.pcs[t]]
    requires s'.mem.latches == s.mem.latches && s.mem.nextNode !in s.mem.nodes
    requires s.mem.nextNode in s'.mem.nodes && s'.mem.nodes[s.mem.nextNode].latch.None?
    requires s'.mem.nodes == s.mem.nodes[s.mem.nextNode := s'.mem.nodes[s.mem.nextNode]]
    requires forall l :: WaitsOn(s'.pcs[t], l) == WaitsOn(s.pcs[t], l)
    ensures forall l <- s'.mem.latches :: LatchOk(s', l)
  {
    forall l <- s'.mem.latches
      ensures LatchOk(s', l)
    {
      WaiterCountAfter(s.pcs, t, s'.pcs[t], l);
      LatchKept(s, s', l);
    }
  }

  lemma {:induction false} InsertKeepsNodes(s: State, s': State, t: nat)
    requires Inv(s) && t < |s.pcs| == |s'.pcs| && s'.pcs == s.pcs[t := s'.pcs[t]]
    requires s'.mem.latches == s.mem.latches
    requires s.mem.nextNode in s'.mem.nodes && s'.mem.nodes[s.mem.nextNode].latch.None?
    requires s'.mem.nodes == s.mem.nodes[s.mem.nextNode := s'.mem.nodes[s.mem.nextNode]]
    requires forall n :: !Loads(s.pcs[t], n)
    requires s'.mem.nodes[s.mem.nextNode].obj.None? ==> Loads(s'.pcs[t], s.mem.nextNode)
    ensures forall n <- s'.mem.nodes :: NodeOk(s', n)
  {
    forall h <- s'.mem.nodes
      ensures NodeOk(s', h)
    {
      if h != s.mem.nextNode {
        NodeKept(s, s', t, h);
      } else if s'.mem.nodes[h].obj.None? {
        LoaderAfter(s.pcs, t, s'.pcs[t], h);
      }
    }
  }

  /** The memory after joining the latch l of node n: only l, and n's pointer to it, changed. */
  ghost predicate Joined(m: Memory, m': Memory, n: NodeId, l: LatchId) {
    && n in m.nodes && l in m'.latches
    && m' == m.(latches := m.latches[l := m'.latches[l]], nodes := m.nodes[n := m.nodes[n].(latch := Some(l))],
                nextLatch := m'.nextLatch)
    && m.nextLatch <= m'.nextLatch && l < m'.nextLatch
    && (m.nodes[n].latch.None? ==> l !in m.latches && m'.latches[l] == Latch(1, 1))
    && (m.nodes[n].latch.Some? ==> m.nodes[n].latch == Some(l) && l in m.latches && m.latches[l].count == 1 &&
                                   m'.latches[l] == Latch(1, m.latches[l].useCount + 1))
  }

  /** Queueing on a placeholder: the first waiter creates the latch, the others add a use. */
  lemma {:induction false} KeepsJoin(s: State, t: nat, n: NodeId)
    requires Inv(s) && t < |s.pcs| && s.pcs[t].Entering?
    requires s.pcs[t].call.PinImpl? || (s.pcs[t].call.GetIfPinned? && s.pcs[t].call.wait)
    requires n in s.mem.nodes && s.mem.nodes[n].obj.None?
    ensures var (m', l) := JoinLatch(s.mem, n);
            Inv(State(m', s.pcs[t := Awaiting(s.pcs[t].call, l)], s.handed))
  {
    var (m', l) := JoinLatch(s.mem, n);
    var pc := Awaiting(s.pcs[t].call, l);
    var s' := State(m', s.pcs[t := pc], s.handed);
    assert NodeOk(s, n);
    assert Joined(s.mem, m', n, l);
    forall u | 0 <= u < |s.pcs|
      ensures PcOk(s'.mem, s'.handed, s'.pcs[u])
    {
      assert PcOk(s.mem, s.handed, s.pcs[u]);
    }
    ExclusiveAfter(s.pcs, t, pc);
    assert MapOk(s'.mem);
    JoinKeepsNodes(s, s', t, n, l);
    JoinKeepsLatches(s, s', t, n, l);
  }

  lemma {:induction false} JoinKeepsNodes(s: State, s': State, t: nat, n: NodeId, l: LatchId)
    requires Inv(s) && t < |s.pcs| == |s'.pcs| && s'.pcs == s.pcs[t := s'.pcs[t]] && s.pcs[t].Entering?
    requires Joined(s.mem, s'.mem, n, l) && s.mem.nodes[n].obj.None?
    ensures forall h <- s'.mem.nodes :: NodeOk(s', h)
  {
    forall h <- s'.mem.nodes
      ensures NodeOk(s', h)
    {
      assert NodeOk(s, h);
      if s.mem.nodes[h].obj.None? {
        LoaderAfter(s.pcs, t, s'.pcs[t], h);
      }
    }
  }

  lemma {:induction false} JoinKeepsLatches(s: State, s': State, t: nat, n: NodeId, l: LatchId)
    requires Inv(s) && t < |s.pcs| == |s'.pcs| && s'.pcs == s.pcs[t := s'.pcs[t]]
    requires s.pcs[t].Entering? && s'.pcs[t].Awaiting? && s'.pcs[t].latch == l
    requires Joined(s.mem, s'.mem, n, l)
    ensures forall j <- s'.mem.latches :: LatchOk(s', j)
  {
    forall j <- s'.mem.latches
      ensures LatchOk(s', j)
    {
      WaiterCountAfter(s.pcs, t, s'.pcs[t], j);
      if j != l {
        assert forall h :: Holds(s'.mem, j, h) ==> Holds(s.mem, j, h);
        if s.mem.nodes[n].latch == Some(j) { assert false; }
        LatchKept(s, s', j);
      } else {
        JoinedLatch(s, s', n, l);
      }
    }
  }

  lemma {:induction false} JoinedLatch(s: State, s': State, n: NodeId, l: LatchId)
    requires Inv(s) && Joined(s.mem, s'.mem, n, l) && |Waiters(s'.pcs, l)| == |Waiters(s.pcs, l)| + 1
    ensures LatchOk(s', l)
  {
    assert Holds(s'.mem, l, n);
    if s.mem.nodes[n].latch.None? {
    } else {
      assert Holds(s.mem, l, n);
      assert LatchOk(s, l);
    }
    forall h | h in s.mem.nodes && h != n
      ensures !Holds(s'.mem, l, h)
    {
      assert NodeOk(s, h);
      assert Holds(s'.mem, l, h) <==> Holds(s.mem, l, h);
    }
  }

  lemma {:induction false} KeepsEnter(s: State, a: Action)
    requires Inv(s) && Enabled(s, a) && a.Enter? && !s.pcs[a.t].call.Unpin?
    ensures Inv(Apply(s, a))
  {
    var call := s.pcs[a.t].call;
    assert s.handed + {} == s.handed;
    if call.key in s.mem.index {
      var n := s.mem.index[call.key];
      if !call.PinObj? && s.mem.nodes[n].obj.None? && (call.PinImpl? || call.wait) {
        KeepsJoin(s, a.t, n);
      } else {
        KeepsMemory(s, Apply(s, a), a.t);
      }
    } else if call.PinImpl? {
      KeepsInsert(s, a.t, Loading(call, s.mem.nextNode), call.key, None, {});
    } else if call.PinObj? {
      KeepsInsert(s, a.t, Apply(s, a).pcs[a.t], call.key, Some(call.obj), {s.mem.nextNode});
    } else {
      KeepsMemory(s, Apply(s, a), a.t);
    }
  }

  /** Giving up a use of an open latch; the last one out deletes it, and the thread is back at the top of its loop. */
  lemma {:induction false} KeepsLeave(s: State, t: nat)
    requires Inv(s) && t < |s.pcs| && s.pcs[t].Woken?
    ensures Inv(State(LeaveLatch(s.mem, s.pcs[t].latch), s.pcs[t := Entering(s.pcs[t].call)], s.handed))
  {
    var l := s.pcs[t].latch;
    var pc := Entering(s.pcs[t].call);
    var s' := State(LeaveLatch(s.mem, l), s.pcs[t := pc], s.handed);
    assert PcOk(s.mem, s.handed, s.pcs[t]);
    assert LatchOk(s, l);
    LeaveKeepsPcs(s, s', t);
    WaiterCountAfter(s.pcs, t, pc, l);
    if l in s'.mem.latches {
      assert forall h :: Holds(s'.mem, l, h) <==> Holds(s.mem, l, h);
      assert LatchOk(s', l);
    }
    forall j <- s'.mem.latches
      ensures LatchOk(s', j)
    {
      if j != l {
        WaiterCountAfter(s.pcs, t, pc, j);
        LatchKept(s, s', j);
      }
    }
    forall h <- s'.mem.nodes
      ensures NodeOk(s', h)
    {
      NodeKept(s, s', t, h);
    }
  }

  lemma {:induction false} LeaveKeepsPcs(s: State, s': State, t: nat)
    requires Inv(s) && t < |s.pcs| && s.pcs[t].Woken? && s.pcs[t].latch in s.mem.latches
    requires s'.mem == LeaveLatch(s.mem, s.pcs[t].latch) && s'.handed == s.handed
    requires s'.pcs == s.pcs[t := Entering(s.pcs[t].call)]
    ensures forall u | 0 <= u < |s'.pcs| :: PcOk(s'.mem, s'.handed, s'.pcs[u])
  {
    assert LatchOk(s, s.pcs[t].latch);
    forall u | 0 <= u < |s.pcs|
      ensures PcOk(s'.mem, s'.handed, s'.pcs[u])
    {
      assert PcOk(s.mem, s.handed, s.pcs[u]) && PcOk(s.mem, s.handed, s.pcs[t]);
      if u != t && WaitsOn(s.pcs[u], s.pcs[t].latch) {
        TwoWaiters(s.pcs, t, u, s.pcs[t].latch);
      }
    }
  }

  lemma {:induction false} TwoWaiters(pcs: seq<Pc>, t: nat, u: nat, l: LatchId)
    requires t < |pcs| && u < |pcs| && t != u && WaitsOn(pcs[t], l) && WaitsOn(pcs[u], l)
    ensures |Waiters(pcs, l)| >= 2
  {
    var W := Waiters(pcs, l);
    assert W == {t} + (W - {t}) && W - {t} == {u} + (W - {t} - {u});
  }

  lemma {:induction false} KeepsRetry(s: State, a: Action)
    requires Inv(s) && Enabled(s, a) && a.Retry?
    ensures Inv(Apply(s, a))
  {
    assert PcOk(s.mem, s.handed, s.pcs[a.t]);
    var s1 := State(LeaveLatch(s.mem, s.pcs[a.t].latch), s.pcs[a.t := Entering(s.pcs[a.t].call)], s.handed);
    KeepsLeave(s, a.t);
    KeepsEnter(s1, Enter(a.t, false));
    assert Apply(s1, Enter(a.t, false)).pcs == Apply(s, a).pcs;
  }

  /** The memory after the loader's last step: its node is erased, or holds an object; its latch is open. */
  ghost predicate Published(m: Memory, m': Memory, n: NodeId, erased: bool)
    requires n in m.nodes
  {
    var node := m.nodes[n];
    && !m'.fault
    && (erased ==> m'.nodes == m.nodes - {n} && m'.index == m.index - {node.key})
    && (!erased ==> n in m'.nodes && m'.nodes[n].obj.Some? && m'.nodes[n].key == node.key && m'.nodes[n].latch.None? &&
                    m'.nodes == m.nodes[n := m'.nodes[n]] && m'.index == m.index)
    && (node.latch.None? ==> m'.latches == m.latches)
    && (node.latch.Some? ==>
          && node.latch.value in m.latches
          && m'.latches == m.latches[node.latch.value := m.latches[node.latch.value].(count := 0)])
    && m'.nextNode == m.nextNode && m'.nextLatch == m.nextLatch
  }

  /** A node whose latch, if any, is there and closed. */
  ghost predicate MayPublish(m: Memory, n: NodeId) {
    && !m.fault && MapOk(m) && n in m.nodes
    && (m.nodes[n].latch.Some? ==> m.nodes[n].latch.value in m.latches && m.latches[m.nodes[n].latch.value].count == 1)
  }

  lemma {:induction false} ErasedShape(m: Memory, n: NodeId)
    requires MayPublish(m, n)
    ensures var (m1, latch) := TakeLatch(m, n); Published(m, CountDown(Erase(m1, n), latch), n, true)
  {
    var m1 := TakeLatch(m, n).0;
    assert Erase(m1, n).nodes == m.nodes - {n};
  }

  lemma {:induction false} PublishShape(s: State, a: Action) returns (erased: bool)
    requires Inv(s) && Enabled(s, a) && a.Publish?
    ensures s.pcs[a.t].call.PinImpl? && s.pcs[a.t].node in s.mem.nodes && s.mem.nodes[s.pcs[a.t].node].obj.None?
    ensures s.mem.nodes[s.pcs[a.t].node].key == s.pcs[a.t].call.key
    ensures Published(s.mem, Apply(s, a).mem, s.pcs[a.t].node, erased)
    ensures Apply(s, a).handed == if erased then s.handed else s.handed + {s.pcs[a.t].node}
    ensures erased <==> s.pcs[a.t].result.Failed? || (s.pcs[a.t].result.Missing? && s.pcs[a.t].call.newObj.None?)
    ensures !erased ==> Apply(s, a).mem.nodes[s.pcs[a.t].node].obj ==
                        (if s.pcs[a.t].result.Found? then Some(s.pcs[a.t].result.obj) else s.pcs[a.t].call.newObj)
  {
    var n, r, newObj := s.pcs[a.t].node, s.pcs[a.t].result, s.pcs[a.t].call.newObj;
    assert PcOk(s.mem, s.handed, s.pcs[a.t]);
    assert NodeOk(s, n);
    erased := r.Failed? || (r.Missing? && newObj.None?);
    if erased {
      ErasedShape(s.mem, n);
    }
  }

  lemma {:induction false} KeepsPublish(s: State, a: Action)
    requires Inv(s) && Enabled(s, a) && a.Publish?
    ensures Inv(Apply(s, a))
  {
    var erased := PublishShape(s, a);
    KeepsPublished(s, Apply(s, a), a.t, s.pcs[a.t].node, erased);
  }

  lemma {:induction false} KeepsPublished(s: State, s': State, t: nat, n: NodeId, erased: bool)
    requires Inv(s) && t < |s.pcs| == |s'.pcs| && s'.pcs == s.pcs[t := s'.pcs[t]] && s'.pcs[t].Returned?
    requires n in s.mem.nodes && Loads(s.pcs[t], n) && Published(s.mem, s'.mem, n, erased)
    requires s.mem.nodes[n].obj.None?
    requires s'.handed == if erased then s.handed else s.handed + {n}
    ensures Inv(s')
  {
    assert NodeOk(s, n);
    forall u | 0 <= u < |s.pcs|
      ensures PcOk(s'.mem, s'.handed, s'.pcs[u])
    {
      assert PcOk(s.mem, s.handed, s.pcs[u]);
      if u != t && (s.pcs[u].Loading? || s.pcs[u].Loaded?) {
        assert Loads(s.pcs[u], s.pcs[u].node);
      }
    }
    ExclusiveAfter(s.pcs, t, s'.pcs[t]);
    assert MapOk(s'.mem);
    forall h <- s'.mem.nodes
      ensures NodeOk(s', h)
    {
      if h != n {
        assert NodeOk(s, h);
        OwnLatch(s, n, h);
        NodeKept(s, s', t, h);
      }
    }
    forall j <- s'.mem.latches
      ensures LatchOk(s', j)
    {
      PublishedLatch(s, s', t, n, erased, j);
    }
  }

  lemma {:induction false} PublishedLatch(s: State, s': State, t: nat, n: NodeId, erased: bool, j: LatchId)
    requires Inv(s) && t < |s.pcs| == |s'.pcs| && s'.pcs == s.pcs[t := s'.pcs[t]] && s'.pcs[t].Returned?
    requires n in s.mem.nodes && Loads(s.pcs[t], n) && Published(s.mem, s'.mem, n, erased)
    requires s.mem.nodes[n].obj.None? && j in s'.mem.latches
    ensures LatchOk(s', j)
  {
    WaiterCountAfter(s.pcs, t, s'.pcs[t], j);
    assert LatchOk(s, j);
    if s.mem.nodes[n].latch == Some(j) {
      assert Holds(s.mem, j, n);
      forall h
        ensures !Holds(s'.mem, j, h)
      {
        assert Holds(s'.mem, j, h) ==> Holds(s.mem, j, h);
      }
    } else {
      LatchKept(s, s', j);
    }
  }

  lemma {:induction false} OwnLatch(s: State, n: NodeId, h: NodeId)
    requires Inv(s) && n in s.mem.nodes && h in s.mem.nodes && n != h
    ensures s.mem.nodes[n].latch.Some? ==> s.mem.nodes[n].latch != s.mem.nodes[h].latch
  {
    if s.mem.nodes[n].latch.Some? && s.mem.nodes[n].latch == s.mem.nodes[h].latch {
      var l := s.mem.nodes[n].latch.value;
      assert NodeOk(s, n) && LatchOk(s, l);
      assert Holds(s.mem, l, n) && Holds(s.mem, l, h);
      assert false;
    }
  }

  lemma {:induction false} StepKeepsInv(s: State, a: Action)
    requires Inv(s) && Enabled(s, a)
    ensures Inv(Apply(s, a))
  {
    match a
    case Enter(t, _) => if s.pcs[t].call.Unpin? { KeepsUnpin(s, a); } else { KeepsEnter(s, a); }
    case Retry(t) => KeepsRetry(s, a);
    case Publish(t, _) => KeepsPublish(s, a);
    case _ => KeepsSimple(s, a);
  }

  lemma {:induction false} RunKeepsInv(s: State, acts: seq<Action>)
    requires Inv(s) && IsRun(s, acts)
    ensures Inv(Final(s, acts))
    decreases |acts|
  {
    if acts != [] {
      StepKeepsInv(s, acts[0]);
      RunKeepsInv(Apply(s, acts[0]), acts[1..]);
    }
  }
}

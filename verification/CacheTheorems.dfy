/** The promises of the cache's synchronisation, for every interleaving from an empty cache. */
module CacheTheorems {
  import opened Prelude
  import opened Cache
  import opened CacheSafety

  /** No run touches a deleted latch, a stale iterator or a position twice, and no assertion of the class fails. */
  lemma {:induction false} NoStaleAccess(s: State, acts: seq<Action>)
    requires Init(s) && IsRun(s, acts)
    ensures !Final(s, acts).mem.fault
  {
    InitInv(s);
    RunKeepsInv(s, acts);
  }

  /** Use counts are exact, waiters' latches are live, and an open latch is no longer reachable from the map. */
  lemma {:induction false} LatchLifetime(s: State, acts: seq<Action>)
    requires Init(s) && IsRun(s, acts)
    ensures var f := Final(s, acts);
            && (forall l <- f.mem.latches ::
                  f.mem.latches[l].useCount == |Waiters(f.pcs, l)| && f.mem.latches[l].useCount >= 1)
            && (forall t | 0 <= t < |f.pcs| && (f.pcs[t].Awaiting? || f.pcs[t].Woken?) :: f.pcs[t].latch in f.mem.latches)
            && (forall n, l | Holds(f.mem, l, n) :: l in f.mem.latches && f.mem.latches[l].count == 1)
            && (forall l <- f.mem.latches ::
                  f.mem.latches[l].count == 1 <==> exists n :: Holds(f.mem, l, n))
  {
    InitInv(s);
    RunKeepsInv(s, acts);
    var f := Final(s, acts);
    forall t | 0 <= t < |f.pcs| && (f.pcs[t].Awaiting? || f.pcs[t].Woken?)
      ensures f.pcs[t].latch in f.mem.latches
    {
      assert PcOk(f.mem, f.handed, f.pcs[t]);
    }
    forall n, l | Holds(f.mem, l, n)
      ensures l in f.mem.latches && f.mem.latches[l].count == 1
    {
      assert NodeOk(f, n);
    }
    forall l <- f.mem.latches
      ensures f.mem.latches[l].useCount == |Waiters(f.pcs, l)| && f.mem.latches[l].useCount >= 1
      ensures f.mem.latches[l].count == 1 <==> exists n :: Holds(f.mem, l, n)
    {
      assert LatchOk(f, l);
    }
  }

  /** A latch disappears only in the step of its last waiter, and that step does delete it. */
  lemma {:induction false} LastLeaverDeletes(s: State, a: Action, l: LatchId)
    requires Inv(s) && Enabled(s, a) && l in s.mem.latches
    ensures l !in Apply(s, a).mem.latches <==> a.Retry? && Waiters(s.pcs, l) == {a.t}
  {
    if a.Retry? {
      FreshLatch(s, a, l);
      LeavingDeletes(s, a.t, l);
    } else {
      OthersKeepLatches(s, a, l);
    }
  }

  lemma {:induction false} LeavingDeletes(s: State, t: nat, l: LatchId)
    requires Inv(s) && t < |s.pcs| && s.pcs[t].Woken? && l in s.mem.latches
    ensures l !in LeaveLatch(s.mem, s.pcs[t].latch).latches <==> Waiters(s.pcs, l) == {t}
  {
    assert LatchOk(s, l);
    if l == s.pcs[t].latch {
      OnlyOne(Waiters(s.pcs, l), t);
    } else {
      assert t !in Waiters(s.pcs, l);
    }
  }

  lemma {:induction false} OnlyOne(W: set<nat>, t: nat)
    requires t in W
    ensures |W| == 1 <==> W == {t}
  {
    assert W == {t} + (W - {t});
  }

  lemma {:induction false} OthersKeepLatches(s: State, a: Action, l: LatchId)
    requires Inv(s) && Enabled(s, a) && l in s.mem.latches && !a.Retry?
    ensures l in Apply(s, a).mem.latches
  {
    match a
    case Publish(t, throws) => PublishKeepsLatches(s.mem, s.pcs[t], throws, l);
    case Enter(t, _) => EnterKeepsLatches(s.mem, s.pcs[t].call, l);
    case _ =>
  }

  lemma {:induction false} PublishKeepsLatches(m: Memory, pc: Pc, throws: bool, l: LatchId)
    requires pc.Loaded? && pc.call.PinImpl? && l in m.latches
    ensures l in PublishSection(m, pc.node, pc.call.newObj, pc.result, throws).0.latches
  {
  }

  lemma {:induction false} EnterKeepsLatches(m: Memory, call: Call, l: LatchId)
    requires l in m.latches
    ensures call.PinImpl? || call.GetIfPinned? ==> l in LookSection(m, call).0.latches
  {
  }

  /** A latch id is never given out again. */
  lemma {:induction false} FreshLatch(s: State, a: Action, l: LatchId)
    requires Inv(s) && Enabled(s, a) && a.Retry? && l in s.mem.latches
    ensures l in Apply(s, a).mem.latches <==> l in LeaveLatch(s.mem, s.pcs[a.t].latch).latches
  {
    assert PcOk(s.mem, s.handed, s.pcs[a.t]);
    var m := LeaveLatch(s.mem, s.pcs[a.t].latch);
    var call := s.pcs[a.t].call;
    if call.key in m.index {
      assert NodeOk(s, m.index[call.key]);
    }
  }

  /** A placeholder exists exactly while one thread loads its key, and no handed-out position names one. */
  lemma {:induction false} SingleLoader(s: State, acts: seq<Action>)
    requires Init(s) && IsRun(s, acts)
    ensures var f := Final(s, acts);
            && (forall n <- f.mem.nodes :: f.mem.nodes[n].obj.None? <==> HasLoader(f.pcs, n))
            && (forall t, u | 0 <= t < |f.pcs| && 0 <= u < |f.pcs| && t != u &&
                              (f.pcs[t].Loading? || f.pcs[t].Loaded?) && (f.pcs[u].Loading? || f.pcs[u].Loaded?) ::
                  f.pcs[t].call.PinImpl? && f.pcs[u].call.PinImpl? && f.pcs[t].call.key != f.pcs[u].call.key)
            && (forall t | 0 <= t < |f.pcs| && (f.pcs[t].Loading? || f.pcs[t].Loaded?) ::
                  f.pcs[t].node in f.mem.nodes && f.mem.nodes[f.pcs[t].node].obj.None?)
            && (forall n <- f.handed :: n in f.mem.nodes && f.mem.nodes[n].obj.Some?)
  {
    InitInv(s);
    RunKeepsInv(s, acts);
    var f := Final(s, acts);
    forall n <- f.mem.nodes
      ensures f.mem.nodes[n].obj.None? <==> HasLoader(f.pcs, n)
    {
      assert NodeOk(f, n);
      if HasLoader(f.pcs, n) {
        var t :| 0 <= t < |f.pcs| && Loads(f.pcs[t], n);
        assert PcOk(f.mem, f.handed, f.pcs[t]);
      }
    }
    forall t | 0 <= t < |f.pcs| && (f.pcs[t].Loading? || f.pcs[t].Loaded?)
      ensures f.pcs[t].node in f.mem.nodes && f.mem.nodes[f.pcs[t].node].obj.None?
    {
      assert PcOk(f.mem, f.handed, f.pcs[t]);
    }
    forall t, u | 0 <= t < |f.pcs| && 0 <= u < |f.pcs| && t != u &&
                  (f.pcs[t].Loading? || f.pcs[t].Loaded?) && (f.pcs[u].Loading? || f.pcs[u].Loaded?)
      ensures f.pcs[t].call.PinImpl? && f.pcs[u].call.PinImpl? && f.pcs[t].call.key != f.pcs[u].call.key
    {
      assert PcOk(f.mem, f.handed, f.pcs[t]) && PcOk(f.mem, f.handed, f.pcs[u]);
      assert Loads(f.pcs[t], f.pcs[t].node) && Loads(f.pcs[u], f.pcs[u].node);
    }
  }

  // --------------------------------------------------------------- no lost wake-up

  /** A thread in await() either may return, or its latch hangs off a placeholder whose loader can take a step. */
  lemma {:induction false} NoLostWakeup(s: State, t: nat) returns (a: Action)
    requires Inv(s) && t < |s.pcs| && s.pcs[t].Awaiting?
    ensures Enabled(s, a)
    ensures a == AwaitReturns(t) ||
            (a.t != t && (a.LoadReturns? || a.Publish?) && Holds(s.mem, s.pcs[t].latch, s.pcs[a.t].node))
  {
    var l := s.pcs[t].latch;
    assert PcOk(s.mem, s.handed, s.pcs[t]);
    assert LatchOk(s, l);
    if s.mem.latches[l].count == 0 {
      a := AwaitReturns(t);
    } else {
      var n :| Holds(s.mem, l, n);
      assert NodeOk(s, n);
      var u :| 0 <= u < |s.pcs| && Loads(s.pcs[u], n);
      a := if s.pcs[u].Loading? then LoadReturns(u, Missing) else Publish(u, false);
    }
  }

  predicate Active(pc: Pc) {
    !pc.Idle? && !pc.Returned?
  }

  /** While a call is unfinished, some thread can take an internal step. */
  lemma {:induction false} NoDeadlock(s: State, t: nat) returns (a: Action)
    requires Inv(s) && t < |s.pcs| && Active(s.pcs[t])
    ensures Enabled(s, a) && Internal(a)
  {
    match s.pcs[t]
    case Entering(_) => a := Enter(t, false);
    case Awaiting(_, _) => a := NoLostWakeup(s, t);
    case Woken(_, _) => a := Retry(t);
    case Loading(_, _) => a := LoadReturns(t, Missing);
    case Loaded(_, _, _) => a := Publish(t, false);
  }

  // --------------------------------------------------------------- every schedule finishes every call

  function Rank(m: Memory, pc: Pc): nat {
    match pc
    case Idle => 0
    case Returned(_, _) => 0
    case Awaiting(_, l) => if l in m.latches && m.latches[l].count == 0 then 4 else 0
    case Loaded(_, _, _) => 1
    case Loading(_, _) => 2
    case Entering(_) => 3
    case Woken(_, _) => 3
  }

  function ActiveCount(pcs: seq<Pc>): nat {
    if pcs == [] then 0 else ActiveCount(pcs[..|pcs| - 1]) + (if Active(pcs[|pcs| - 1]) then 1 else 0)
  }

  function RankSum(m: Memory, pcs: seq<Pc>): nat {
    if pcs == [] then 0 else RankSum(m, pcs[..|pcs| - 1]) + Rank(m, pcs[|pcs| - 1])
  }

  /** Bounds the internal steps still possible: an unfinished call weighs more than all ranks together. */
  function Potential(s: State): nat {
    ActiveCount(s.pcs) * (4 * |s.pcs| + 1) + RankSum(s.mem, s.pcs)
  }

  lemma {:induction false} ActiveCountAfter(pcs: seq<Pc>, t: nat, pc: Pc)
    requires t < |pcs|
    ensures ActiveCount(pcs[t := pc]) == ActiveCount(pcs) + (if Active(pc) then 1 else 0) - (if Active(pcs[t]) then 1 else 0)
  {
    var last := |pcs| - 1;
    if t == last {
      assert pcs[t := pc][..last] == pcs[..last];
    } else {
      ActiveCountAfter(pcs[..last], t, pc);
      assert pcs[t := pc][..last] == pcs[..last][t := pc];
    }
  }

  lemma {:induction false} RankSumBounded(m: Memory, pcs: seq<Pc>)
    ensures RankSum(m, pcs) <= 4 * |pcs|
  {
    if pcs != [] {
      RankSumBounded(m, pcs[..|pcs| - 1]);
    }
  }

  /** If nobody's rank but t's changes, the sum changes by what t's changed. */
  lemma {:induction false} RankSumAfter(m: Memory, m': Memory, pcs: seq<Pc>, t: nat, pc: Pc)
    requires t < |pcs|
    requires forall u | 0 <= u < |pcs| && u != t :: Rank(m', pcs[u]) == Rank(m, pcs[u])
    ensures RankSum(m', pcs[t := pc]) == RankSum(m, pcs) + Rank(m', pc) - Rank(m, pcs[t])
  {
    var last := |pcs| - 1;
    if t == last {
      assert pcs[t := pc][..last] == pcs[..last];
      RankSumSame(m, m', pcs[..last]);
    } else {
      RankSumAfter(m, m', pcs[..last], t, pc);
      assert pcs[t := pc][..last] == pcs[..last][t := pc];
    }
  }

  lemma {:induction false} RankSumSame(m: Memory, m': Memory, pcs: seq<Pc>)
    requires forall u | 0 <= u < |pcs| :: Rank(m', pcs[u]) == Rank(m, pcs[u])
    ensures RankSum(m', pcs) == RankSum(m, pcs)
  {
    if pcs != [] {
      RankSumSame(m, m', pcs[..|pcs| - 1]);
    }
  }

  /** Whether an awaited latch is open changes only when a loader publishes. */
  lemma {:induction false} RanksKept(s: State, a: Action, u: nat)
    requires Inv(s) && Enabled(s, a) && Internal(a) && !a.Publish?
    requires u < |s.pcs| && u != a.t
    ensures Rank(Apply(s, a).mem, s.pcs[u]) == Rank(s.mem, s.pcs[u])
  {
    assert PcOk(s.mem, s.handed, s.pcs[u]);
    assert PcOk(s.mem, s.handed, s.pcs[a.t]);
    if s.pcs[u].Awaiting? {
      var l := s.pcs[u].latch;
      assert LatchOk(s, l);
      LastLeaverDeletes(s, a, l);
      assert u in Waiters(s.pcs, l);
      OpenKept(s, a, l);
    }
  }

  lemma {:induction false} OpenKept(s: State, a: Action, l: LatchId)
    requires Inv(s) && Enabled(s, a) && Internal(a) && !a.Publish?
    requires l in s.mem.latches && l in Apply(s, a).mem.latches
    ensures Apply(s, a).mem.latches[l].count == s.mem.latches[l].count
  {
    assert PcOk(s.mem, s.handed, s.pcs[a.t]);
    if a.Retry? {
      FreshLatch(s, a, l);
    }
  }

  lemma {:induction false} FinishingPays(active: nat, weight: nat, ranks: nat, ranks': nat)
    requires active > 0 && ranks' < weight
    ensures (active - 1) * weight + ranks' < active * weight + ranks
  {
    assert (active - 1) * weight == active * weight - weight;
  }

  /** Every internal step lowers the potential. */
  lemma {:induction false} InternalStepDescends(s: State, a: Action)
    requires Inv(s) && Enabled(s, a) && Internal(a)
    ensures |Apply(s, a).pcs| == |s.pcs|
    ensures Potential(Apply(s, a)) < Potential(s)
  {
    var s' := Apply(s, a);
    OnePcChanges(s, a);
    if Active(s'.pcs[a.t]) {
      RanksDescend(s, a);
    } else {
      RankSumBounded(s'.mem, s'.pcs);
      FinishingPays(ActiveCount(s.pcs), 4 * |s.pcs| + 1, RankSum(s.mem, s.pcs), RankSum(s'.mem, s'.pcs));
    }
  }

  lemma {:induction false} OnePcChanges(s: State, a: Action)
    requires Inv(s) && Enabled(s, a) && Internal(a)
    ensures |Apply(s, a).pcs| == |s.pcs|
    ensures ActiveCount(Apply(s, a).pcs) == ActiveCount(s.pcs) - (if Active(Apply(s, a).pcs[a.t]) then 0 else 1)
  {
    var pc := Apply(s, a).pcs[a.t];
    ActiveCountAfter(s.pcs, a.t, pc);
    assert Apply(s, a).pcs == s.pcs[a.t := pc];
  }

  lemma {:induction false} RanksDescend(s: State, a: Action)
    requires Inv(s) && Enabled(s, a) && Internal(a) && Active(Apply(s, a).pcs[a.t])
    ensures RankSum(Apply(s, a).mem, Apply(s, a).pcs) < RankSum(s.mem, s.pcs)
  {
    var s' := Apply(s, a);
    forall u | 0 <= u < |s.pcs| && u != a.t
      ensures Rank(s'.mem, s.pcs[u]) == Rank(s.mem, s.pcs[u])
    {
      RanksKept(s, a, u);
    }
    RankSumAfter(s.mem, s'.mem, s.pcs, a.t, s'.pcs[a.t]);
    assert s'.pcs == s.pcs[a.t := s'.pcs[a.t]];
    RankDrops(s, a);
  }

  lemma {:induction false} RankDrops(s: State, a: Action)
    requires Inv(s) && Enabled(s, a) && Internal(a) && Active(Apply(s, a).pcs[a.t])
    ensures Rank(Apply(s, a).mem, Apply(s, a).pcs[a.t]) < Rank(s.mem, s.pcs[a.t])
  {
    var s' := Apply(s, a);
    assert PcOk(s.mem, s.handed, s.pcs[a.t]);
    if s'.pcs[a.t].Awaiting? {
      StepKeepsInv(s, a);
      var l := s'.pcs[a.t].latch;
      JoinedIsClosed(s, a);
    }
  }

  /** A thread that starts to wait waits on a closed latch. */
  lemma {:induction false} JoinedIsClosed(s: State, a: Action)
    requires Inv(s) && Enabled(s, a) && Internal(a) && Apply(s, a).pcs[a.t].Awaiting?
    ensures var l := Apply(s, a).pcs[a.t].latch;
            l in Apply(s, a).mem.latches ==> Apply(s, a).mem.latches[l].count == 1
  {
    var call := s.pcs[a.t].call;
    assert PcOk(s.mem, s.handed, s.pcs[a.t]);
    if a.Retry? {
      KeepsLeave(s, a.t);
      var s1 := State(LeaveLatch(s.mem, s.pcs[a.t].latch), s.pcs[a.t := Entering(call)], s.handed);
      if call.key in s1.mem.index {
        assert NodeOk(s1, s1.mem.index[call.key]);
      }
    } else if call.key in s.mem.index {
      assert NodeOk(s, s.mem.index[call.key]);
    }
  }

  /** Without new calls, every schedule of the cache stops within its potential; by NoDeadlock, with every call answered. */
  lemma {:induction false} EveryScheduleFinishes(s: State, acts: seq<Action>)
    requires Inv(s) && IsRun(s, acts) && forall i | 0 <= i < |acts| :: Internal(acts[i])
    ensures |acts| + Potential(Final(s, acts)) <= Potential(s)
    decreases |acts|
  {
    if acts != [] {
      assert Internal(acts[0]);
      InternalStepDescends(s, acts[0]);
      StepKeepsInv(s, acts[0]);
      EveryScheduleFinishes(Apply(s, acts[0]), acts[1..]);
    }
  }
}

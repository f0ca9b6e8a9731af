/** When each call of the cache waits, loads or is answered, in terms of what its key is at that moment. */
module CacheAnswers {
  import opened Prelude
  import opened Cache
  import opened CacheSafety
  import opened CacheAtomic

  ghost predicate Bound(s: State, k: Key, o: Obj) {
    k in s.mem.index && s.mem.index[k] in s.mem.nodes && s.mem.nodes[s.mem.index[k]].obj == Some(o)
  }

  /** The thread waits for the load that is under way for the key. */
  ghost predicate WaitsFor(s: State, t: nat, k: Key) {
    && t < |s.pcs| && s.pcs[t].Awaiting? && BeingLoaded(s, k)
    && s.mem.nodes[s.mem.index[k]].latch == Some(s.pcs[t].latch)
  }

  /** The thread loads the key. */
  ghost predicate LoadsKey(s: State, t: nat, k: Key) {
    t < |s.pcs| && s.pcs[t].Loading? && BeingLoaded(s, k) && s.pcs[t].node == s.mem.index[k]
  }

  // --------------------------------------------------------------- getting an object

  /** A look at the map, by what the key is: free, bound, or being loaded. */
  ghost predicate Looked(m: Memory, call: Call, m': Memory, next: Next)
    requires MapOk(m) && (call.PinImpl? || call.GetIfPinned?)
  {
    var k := call.key;
    if k !in m.index then
      if call.GetIfPinned? then next == Reply(Handle(None)) && m' == m
      else next.Load? && k in m'.index && m'.index[k] == next.node && next.node in m'.nodes && m'.nodes[next.node].obj == None
    else if m.nodes[m.index[k]].obj.Some? then next == Reply(Handle(m.nodes[m.index[k]].obj)) && m' == m
    else if call.GetIfPinned? && !call.wait then next == Reply(Handle(None)) && m' == m
    else next.Await? && m'.index == m.index && m.index[k] in m'.nodes && m'.nodes[m.index[k]].obj.None? &&
         m'.nodes[m.index[k]].latch == Some(next.latch)
  }

  lemma {:induction false} LookIs(m: Memory, call: Call)
    requires MapOk(m) && (call.PinImpl? || call.GetIfPinned?)
    requires forall n <- m.nodes :: m.nodes[n].latch.Some? ==> m.nodes[n].latch.value in m.latches
    ensures Looked(m, call, LookSection(m, call).0, LookSection(m, call).1)
  {
  }

  lemma {:induction false} LatchesThere(s: State)
    requires Inv(s)
    ensures forall n <- s.mem.nodes :: s.mem.nodes[n].latch.Some? ==> s.mem.nodes[n].latch.value in s.mem.latches
  {
    forall n <- s.mem.nodes
      ensures s.mem.nodes[n].latch.Some? ==> s.mem.nodes[n].latch.value in s.mem.latches
    {
      assert NodeOk(s, n);
    }
  }

  /** The memory a thread looks at: its own latch, if it has waited, is left first, which leaves index and nodes alone. */
  lemma {:induction false} Looks(s: State, a: Action) returns (m: Memory)
    requires Inv(s) && Enabled(s, a) && (a.Enter? || a.Retry?) && (s.pcs[a.t].call.PinImpl? || s.pcs[a.t].call.GetIfPinned?)
    ensures m.index == s.mem.index && m.nodes == s.mem.nodes && MapOk(m)
    ensures exists next :: Looked(m, s.pcs[a.t].call, Apply(s, a).mem, next) && Apply(s, a).pcs[a.t] == NextPc(s.pcs[a.t].call, next)
  {
    var call := s.pcs[a.t].call;
    if a.Enter? {
      m := s.mem;
      LatchesThere(s);
    } else {
      RetryFinds(s, a);
      m := LeaveLatch(s.mem, s.pcs[a.t].latch);
    }
    LookIs(m, call);
    assert Looked(m, call, Apply(s, a).mem, LookSection(m, call).1);
  }

  lemma {:induction false} RetryFinds(s: State, a: Action)
    requires Inv(s) && Enabled(s, a) && a.Retry?
    ensures var m := LeaveLatch(s.mem, s.pcs[a.t].latch);
            && m.index == s.mem.index && m.nodes == s.mem.nodes && MapOk(m)
            && (forall n <- m.nodes :: m.nodes[n].latch.Some? ==> m.nodes[n].latch.value in m.latches)
  {
    KeepsLeave(s, a.t);
    LatchesThere(State(LeaveLatch(s.mem, s.pcs[a.t].latch), s.pcs[a.t := Entering(s.pcs[a.t].call)], s.handed));
    assert PcOk(s.mem, s.handed, s.pcs[a.t]);
  }

  /**
   A thread of pin, putIfAbsent or getIfPinned that looks at the map is answered at once with the object its key is
   bound to; while the key is being loaded it waits for that load, getIfPinned without wait excepted, which is answered
   with null; and for a free key getIfPinned is answered with null and the others load it.
   */
  lemma {:induction false} LookOutcome(s: State, a: Action)
    requires Inv(s) && Enabled(s, a) && (a.Enter? || a.Retry?) && (s.pcs[a.t].call.PinImpl? || s.pcs[a.t].call.GetIfPinned?)
    ensures var call, s' := s.pcs[a.t].call, Apply(s, a);
            var unwaiting := call.GetIfPinned? && !call.wait;
            && (forall o :: Bound(s, call.key, o) ==> Answers(s, a, Handle(Some(o))))
            && (BeingLoaded(s, call.key) ==> if unwaiting then Answers(s, a, Handle(None)) else WaitsFor(s', a.t, call.key))
            && (call.key !in s.mem.index ==>
                  if call.GetIfPinned? then Answers(s, a, Handle(None)) else LoadsKey(s', a.t, call.key))
  {
    var m := Looks(s, a);
    var next :| Looked(m, s.pcs[a.t].call, Apply(s, a).mem, next) && Apply(s, a).pcs[a.t] == NextPc(s.pcs[a.t].call, next);
    assert Apply(s, a).pcs[a.t] == NextPc(s.pcs[a.t].call, next);
  }

  /** getIfPinned that waits is answered with null only at a moment when its key is neither bound nor being loaded. */
  lemma {:induction false} NullMeansFree(s: State, acts: seq<Action>, a: Action, k: Key)
    requires Init(s) && IsRun(s, acts) && Enabled(Final(s, acts), a)
    requires !Final(s, acts).pcs[a.t].Idle? && Final(s, acts).pcs[a.t].call == GetIfPinned(k, true)
    requires Answers(Final(s, acts), a, Handle(None))
    ensures k !in Final(s, acts).mem.index && !BeingLoaded(Final(s, acts), k)
  {
    InitInv(s);
    RunKeepsInv(s, acts);
    var f := Final(s, acts);
    assert PcOk(f.mem, f.handed, f.pcs[a.t]);
    if a.Enter? || a.Retry? {
      LookOutcome(f, a);
      if k in f.mem.index && f.mem.nodes[f.mem.index[k]].obj.Some? {
        assert Bound(f, k, f.mem.nodes[f.mem.index[k]].obj.value);
      }
    }
  }

  // --------------------------------------------------------------- what load() returned

  /** A thread's counter is its own: what others do leaves it where it is. */
  lemma {:induction false} OthersLeaveIt(s: State, acts: seq<Action>, t: nat)
    requires Inv(s) && IsRun(s, acts) && t < |s.pcs| && forall a <- acts :: a.t != t
    ensures Inv(Final(s, acts)) && |Final(s, acts).pcs| == |s.pcs| && Final(s, acts).pcs[t] == s.pcs[t]
    decreases |acts|
  {
    if acts != [] {
      StepKeepsInv(s, acts[0]);
      AnsweredWhenItTakesEffect(s, acts[0]);
      OnePcChanges(s, acts[0]);
      OthersLeaveIt(Apply(s, acts[0]), acts[1..], t);
    }
  }

  lemma {:induction false} OnePcChanges(s: State, a: Action)
    requires Enabled(s, a)
    ensures |Apply(s, a).pcs| == |s.pcs|
  {
  }

  /** The call that a thread works on, until it returns, is the one it was invoked with. */
  lemma {:induction false} CallKept(s: State, a: Action)
    requires Inv(s) && Enabled(s, a)
    ensures a.Invoke? ==> Apply(s, a).pcs[a.t] == Entering(a.call)
    ensures !a.Invoke? && !a.Return? ==> !Apply(s, a).pcs[a.t].Idle? && Apply(s, a).pcs[a.t].call == s.pcs[a.t].call
    ensures a.Return? ==> Apply(s, a).pcs[a.t] == Idle
  {
    assert PcOk(s.mem, s.handed, s.pcs[a.t]);
  }

  /** Whatever others do meanwhile, a loader publishes what its load() returned. */
  lemma {:induction false} PublishesWhatLoadReturned(s: State, t: nat, r: LoadResult, rest: seq<Action>, throws: bool)
    requires Inv(s) && Enabled(s, LoadReturns(t, r)) && IsRun(Apply(s, LoadReturns(t, r)), rest)
    requires forall a <- rest :: a.t != t
    ensures var f := Final(Apply(s, LoadReturns(t, r)), rest);
            var call := s.pcs[t].call;
            && Inv(f) && Enabled(f, Publish(t, throws)) && call.PinImpl?
            && (r == Failed ==> Answers(f, Publish(t, throws), Threw))
            && (r == Missing && call.newObj.None? ==> Answers(f, Publish(t, throws), Handle(None)))
            && (r.Found? ==> Answers(f, Publish(t, throws), if throws then Threw else Handle(Some(r.obj))) &&
                             Bound(Apply(f, Publish(t, throws)), call.key, r.obj))
            && (r == Missing && call.newObj.Some? ==>
                  Answers(f, Publish(t, throws), if throws then Threw else Handle(None)) &&
                  Bound(Apply(f, Publish(t, throws)), call.key, call.newObj.value))
            && (r == Failed || (r == Missing && call.newObj.None?) ==> call.key !in Apply(f, Publish(t, throws)).mem.index)
  {
    assert PcOk(s.mem, s.handed, s.pcs[t]);
    StepKeepsInv(s, LoadReturns(t, r));
    OthersLeaveIt(Apply(s, LoadReturns(t, r)), rest, t);
    PublishOutcome(Final(Apply(s, LoadReturns(t, r)), rest), Publish(t, throws));
  }

  lemma {:induction false} PublishOutcome(s: State, a: Action)
    requires Inv(s) && Enabled(s, a) && a.Publish?
    ensures var call, r := s.pcs[a.t].call, s.pcs[a.t].result;
            && call.PinImpl?
            && (r == Failed ==> Answers(s, a, Threw))
            && (r == Missing && call.newObj.None? ==> Answers(s, a, Handle(None)))
            && (r.Found? ==> Answers(s, a, if a.throws then Threw else Handle(Some(r.obj))) &&
                             Bound(Apply(s, a), call.key, r.obj))
            && (r == Missing && call.newObj.Some? ==>
                  Answers(s, a, if a.throws then Threw else Handle(None)) && Bound(Apply(s, a), call.key, call.newObj.value))
            && (r == Failed || (r == Missing && call.newObj.None?) ==> call.key !in Apply(s, a).mem.index)
  {
    var erased := PublishShape(s, a);
    assert PcOk(s.mem, s.handed, s.pcs[a.t]);
    StepKeepsInv(s, a);
  }

  // --------------------------------------------------------------- positions

  /** Every pinned object can be unpinned: its position was handed to pinned(), or a thread is about to unpin it. */
  ghost predicate AllHanded(s: State) {
    forall n <- s.mem.nodes | s.mem.nodes[n].obj.Some? ::
      n in s.handed || exists t :: 0 <= t < |s.pcs| && Unpins(s.pcs[t], n)
  }

  lemma {:induction false} NewlyBound(s: State, a: Action, n: NodeId)
    requires Inv(s) && Enabled(s, a) && n in Apply(s, a).mem.nodes && Apply(s, a).mem.nodes[n].obj.Some?
    ensures n in Apply(s, a).handed || (n in s.mem.nodes && s.mem.nodes[n].obj.Some?)
  {
    if a.Publish? {
      var erased := PublishShape(s, a);
    } else if a.Retry? {
      RetryFinds(s, a);
      LookBindsNothing(LeaveLatch(s.mem, s.pcs[a.t].latch), s.pcs[a.t].call, n);
    } else if a.Enter? {
      EnterBinds(s, a, n);
    }
  }

  lemma {:induction false} EnterBinds(s: State, a: Action, n: NodeId)
    requires Inv(s) && Enabled(s, a) && a.Enter? && n in Apply(s, a).mem.nodes && Apply(s, a).mem.nodes[n].obj.Some?
    ensures n in Apply(s, a).handed || (n in s.mem.nodes && s.mem.nodes[n].obj.Some?)
  {
    var call := s.pcs[a.t].call;
    if call.PinImpl? || call.GetIfPinned? {
      LookBindsNothing(s.mem, call, n);
    }
  }

  lemma {:induction false} LookBindsNothing(m: Memory, call: Call, n: NodeId)
    requires call.PinImpl? || call.GetIfPinned?
    requires n in LookSection(m, call).0.nodes && LookSection(m, call).0.nodes[n].obj.Some?
    ensures n in m.nodes && m.nodes[n].obj.Some?
  {
  }

  lemma {:induction false} StillHanded(s: State, a: Action, n: NodeId)
    requires Inv(s) && Enabled(s, a) && n in s.handed
    ensures n in Apply(s, a).handed || Unpins(Apply(s, a).pcs[a.t], n)
  {
    if a.Publish? {
      var erased := PublishShape(s, a);
    }
  }

  lemma {:induction false} UnpinErases(s: State, a: Action, n: NodeId)
    requires Inv(s) && Enabled(s, a) && Unpins(s.pcs[a.t], n)
    ensures n !in Apply(s, a).mem.nodes
  {
    assert PcOk(s.mem, s.handed, s.pcs[a.t]);
  }

  lemma {:induction false} StepHands(s: State, a: Action)
    requires Inv(s) && Enabled(s, a) && AllHanded(s)
    ensures AllHanded(Apply(s, a))
  {
    var s' := Apply(s, a);
    OnePcChanges(s, a);
    AnsweredWhenItTakesEffect(s, a);
    forall n <- s'.mem.nodes | s'.mem.nodes[n].obj.Some?
      ensures n in s'.handed || exists t :: 0 <= t < |s'.pcs| && Unpins(s'.pcs[t], n)
    {
      NewlyBound(s, a, n);
      if n in s.handed {
        StillHanded(s, a, n);
      } else if n !in s'.handed {
        var t :| 0 <= t < |s.pcs| && Unpins(s.pcs[t], n);
        if t == a.t {
          UnpinErases(s, a, n);
        }
        assert Unpins(s'.pcs[t], n);
      }
    }
  }

  lemma {:induction false} RunHands(s: State, acts: seq<Action>)
    requires Inv(s) && IsRun(s, acts) && AllHanded(s)
    ensures AllHanded(Final(s, acts))
    decreases |acts|
  {
    if acts != [] {
      StepHands(s, acts[0]);
      StepKeepsInv(s, acts[0]);
      RunHands(Apply(s, acts[0]), acts[1..]);
    }
  }

  /** In every run, whatever is pinned can be unpinned: its position was handed out, and unpinned at most once. */
  lemma {:induction false} EveryPinnedIsHanded(s: State, acts: seq<Action>)
    requires Init(s) && IsRun(s, acts)
    ensures AllHanded(Final(s, acts))
  {
    InitInv(s);
    RunHands(s, acts);
  }
}

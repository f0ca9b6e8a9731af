/** The concurrent cache refines an atomic map: in every interleaving it answers as indivisible operations do. */
module CacheAtomic {
  import opened Prelude
  import opened Cache
  import opened CacheSafety

  // Each operation takes effect in the step in which its call gets its answer. The one exception is
  // bool pin(key, obj), which may refuse a key that is only being loaded.

  type Bindings = map<Key, Obj>

  /** What a client may observe: the pinned objects; placeholders are invisible. */
  ghost function Pinned(m: Memory): Bindings
    requires MapOk(m)
  {
    map k | k in m.index && m.nodes[m.index[k]].obj.Some? :: m.nodes[m.index[k]].obj.value
  }

  /** An operation with its answer and the choices of its environment, in the order in which they take effect. */
  datatype Event =
    | Fetch(key: Key, newObj: Option<Obj>, load: LoadResult, throws: bool, out: Outcome)
    | Put(key: Key, obj: Obj, throws: bool, out: Outcome, loading: bool)
    | Get(key: Key, out: Outcome)
    | Remove(key: Key)

  function Lookup(b: Bindings, k: Key): Option<Obj> {
    if k in b then Some(b[k]) else None
  }

  /** The sequential specification of each operation on a plain map. */
  ghost predicate Atomic(b: Bindings, e: Event, b': Bindings) {
    match e
    case Fetch(k, newObj, load, throws, out) =>
      if k in b then b' == b && out == Handle(Some(b[k]))
      else (match load
            case Failed => b' == b && out == Threw
            case Found(o) => b' == b[k := o] && out == (if throws then Threw else Handle(Some(o)))
            case Missing =>
              if newObj.None? then b' == b && out == Handle(None)
              else b' == b[k := newObj.value] && out == (if throws then Threw else Handle(None)))
    case Put(k, o, throws, out, loading) =>
      if k in b || loading then b' == b && out == Flag(false)
      else b' == b[k := o] && out == (if throws then Threw else Flag(true))
    case Get(k, out) => b' == b && out == Handle(Lookup(b, k))
    case Remove(k) => k in b && b' == b - {k}
  }

  /** The event a step contributes: one if it answers its thread's call, none otherwise. */
  ghost function EventOf(s: State, a: Action): Option<Event>
    requires Inv(s) && Enabled(s, a)
  {
    var s' := Apply(s, a);
    if !(Internal(a) && s'.pcs[a.t].Returned?) then None
    else
      assert PcOk(s.mem, s.handed, s.pcs[a.t]);
      var call, out := s.pcs[a.t].call, s'.pcs[a.t].out;
      match call
      case PinImpl(k, newObj) =>
        if a.Publish? then Some(Fetch(k, newObj, s.pcs[a.t].result, a.throws, out))
        else Some(Fetch(k, newObj, Missing, false, out))
      case PinObj(k, o) => Some(Put(k, o, a.Enter? && a.throws, out, BeingLoaded(s, k)))
      case GetIfPinned(k, _) => Some(Get(k, out))
      case Unpin(n) => Some(Remove(s.mem.nodes[n].key))
  }

  ghost predicate BeingLoaded(s: State, k: Key) {
    k in s.mem.index && s.mem.index[k] in s.mem.nodes && s.mem.nodes[s.mem.index[k]].obj.None?
  }

  // --------------------------------------------------------------- one step

  /** A look at the map inserts at most a placeholder, and answers from the bindings. */
  lemma {:induction false} LookIsAtomic(s: State, t: nat)
    requires Inv(s) && t < |s.pcs| && s.pcs[t].Entering? && (s.pcs[t].call.PinImpl? || s.pcs[t].call.GetIfPinned?)
    ensures var call := s.pcs[t].call;
            var (m', next) := LookSection(s.mem, call);
            && MapOk(m') && Pinned(m') == Pinned(s.mem)
            && (next.Reply? ==> next.out == Handle(Lookup(Pinned(s.mem), call.key)))
            && (next.Reply? && call.PinImpl? ==> call.key in Pinned(s.mem))
  {
    KeepsEnter(s, Enter(t, false));
    var call := s.pcs[t].call;
    if call.key in s.mem.index {
      LookFound(s.mem, call);
    }
  }

  lemma {:induction false} LookFound(m: Memory, call: Call)
    requires MapOk(m) && (call.PinImpl? || call.GetIfPinned?) && call.key in m.index && MapOk(LookSection(m, call).0)
    ensures var (m', next) := LookSection(m, call);
            && Pinned(m') == Pinned(m)
            && (next.Reply? ==> next.out == Handle(Lookup(Pinned(m), call.key)))
            && (next.Reply? && call.PinImpl? ==> call.key in Pinned(m))
  {
  }

  lemma {:induction false} PublishIsAtomic(s: State, a: Action)
    requires Inv(s) && Enabled(s, a) && a.Publish?
    ensures MapOk(Apply(s, a).mem) && EventOf(s, a).Some?
    ensures Atomic(Pinned(s.mem), EventOf(s, a).value, Pinned(Apply(s, a).mem))
  {
    var erased := PublishShape(s, a);
    StepKeepsInv(s, a);
    PublishedBindings(s.mem, Apply(s, a).mem, s.pcs[a.t].node, erased);
  }

  /** Publishing binds the loader's key, or leaves it unbound; no other key is affected. */
  lemma {:induction false} PublishedBindings(m: Memory, m': Memory, n: NodeId, erased: bool)
    requires MapOk(m) && MapOk(m') && n in m.nodes && m.nodes[n].obj.None? && Published(m, m', n, erased)
    ensures m.nodes[n].key !in Pinned(m)
    ensures erased ==> Pinned(m') == Pinned(m)
    ensures !erased ==> Pinned(m') == Pinned(m)[m.nodes[n].key := m'.nodes[n].obj.value]
  {
  }

  lemma {:induction false} PutIsAtomic(s: State, a: Action)
    requires Inv(s) && Enabled(s, a) && a.Enter? && s.pcs[a.t].call.PinObj?
    ensures MapOk(Apply(s, a).mem) && EventOf(s, a).Some?
    ensures Atomic(Pinned(s.mem), EventOf(s, a).value, Pinned(Apply(s, a).mem))
  {
    StepKeepsInv(s, a);
    var call := s.pcs[a.t].call;
    if call.key !in s.mem.index {
      assert Pinned(Apply(s, a).mem) == Pinned(s.mem)[call.key := call.obj];
    }
  }

  lemma {:induction false} RemoveIsAtomic(s: State, a: Action)
    requires Inv(s) && Enabled(s, a) && a.Enter? && s.pcs[a.t].call.Unpin?
    ensures MapOk(Apply(s, a).mem) && EventOf(s, a).Some?
    ensures Atomic(Pinned(s.mem), EventOf(s, a).value, Pinned(Apply(s, a).mem))
  {
    StepKeepsInv(s, a);
    assert PcOk(s.mem, s.handed, s.pcs[a.t]);
    var n := s.pcs[a.t].call.node;
    assert Pinned(Apply(s, a).mem) == Pinned(s.mem) - {s.mem.nodes[n].key};
  }

  lemma {:induction false} RetryIsAtomic(s: State, a: Action)
    requires Inv(s) && Enabled(s, a) && a.Retry?
    ensures MapOk(Apply(s, a).mem)
    ensures Explained(s, a)
  {
    RetryLooks(s, a.t);
    RetryEvent(s, a);
  }

  /** Leaving the latch and looking again. */
  lemma {:induction false} RetryLooks(s: State, t: nat)
    requires Inv(s) && t < |s.pcs| && s.pcs[t].Woken? && (s.pcs[t].call.PinImpl? || s.pcs[t].call.GetIfPinned?)
    ensures var call := s.pcs[t].call;
            var (m', next) := LookSection(LeaveLatch(s.mem, s.pcs[t].latch), call);
            && MapOk(m') && Pinned(m') == Pinned(s.mem)
            && (next.Reply? ==> next.out == Handle(Lookup(Pinned(s.mem), call.key)))
            && (next.Reply? && call.PinImpl? ==> call.key in Pinned(s.mem))
  {
    KeepsLeave(s, t);
    LeaveIsInvisible(s.mem, s.pcs[t].latch);
    LookIsAtomic(State(LeaveLatch(s.mem, s.pcs[t].latch), s.pcs[t := Entering(s.pcs[t].call)], s.handed), t);
  }

  lemma {:induction false} RetryEvent(s: State, a: Action)
    requires Inv(s) && Enabled(s, a) && a.Retry? && (s.pcs[a.t].call.PinImpl? || s.pcs[a.t].call.GetIfPinned?)
    ensures var call := s.pcs[a.t].call;
            var next := LookSection(LeaveLatch(s.mem, s.pcs[a.t].latch), call).1;
            EventOf(s, a) == if !next.Reply? then None
                             else if call.PinImpl? then Some(Fetch(call.key, call.newObj, Missing, false, next.out))
                             else Some(Get(call.key, next.out))
  {
  }

  lemma {:induction false} LeaveIsInvisible(m: Memory, l: LatchId)
    requires MapOk(m)
    ensures MapOk(LeaveLatch(m, l)) && Pinned(LeaveLatch(m, l)) == Pinned(m)
  {
  }

  ghost predicate Explained(s: State, a: Action)
    requires Inv(s) && Enabled(s, a) && MapOk(Apply(s, a).mem)
  {
    match EventOf(s, a)
    case None => Pinned(Apply(s, a).mem) == Pinned(s.mem)
    case Some(e) => Atomic(Pinned(s.mem), e, Pinned(Apply(s, a).mem))
  }

  /** Every step is invisible, or is exactly one atomic operation with the answer its thread receives. */
  lemma {:induction false} StepIsAtomic(s: State, a: Action)
    requires Inv(s) && Enabled(s, a)
    ensures MapOk(Apply(s, a).mem) && Explained(s, a)
  {
    match a
    case Publish(_, _) => PublishIsAtomic(s, a);
    case Retry(_) => RetryIsAtomic(s, a);
    case Enter(t, _) =>
      match s.pcs[t].call {
        case Unpin(_) => RemoveIsAtomic(s, a);
        case PinObj(_, _) => PutIsAtomic(s, a);
        case _ => LookIsAtomic(s, t);
      }
    case _ =>
      assert !Apply(s, a).pcs[a.t].Returned? || a.Return?;
  }

  // --------------------------------------------------------------- whole runs

  /** The events of a run, in the order in which they take effect. */
  ghost function History(s: State, acts: seq<Action>): seq<Event>
    requires Inv(s) && IsRun(s, acts)
    decreases |acts|
  {
    if acts == [] then []
    else
      StepKeepsInv(s, acts[0]);
      var rest := History(Apply(s, acts[0]), acts[1..]);
      match EventOf(s, acts[0])
      case None => rest
      case Some(e) => [e] + rest
  }

  /** A sequential history takes the map from b to b'. */
  ghost predicate Sequential(b: Bindings, events: seq<Event>, b': Bindings)
    decreases |events|
  {
    if events == [] then b' == b
    else exists mid :: Atomic(b, events[0], mid) && Sequential(mid, events[1..], b')
  }

  /** Every run of the concurrent cache is a run of the atomic map with the same answers. */
  lemma {:induction false} RefinesAtomicMap(s: State, acts: seq<Action>)
    requires Inv(s) && IsRun(s, acts)
    ensures Inv(Final(s, acts))
    ensures Sequential(Pinned(s.mem), History(s, acts), Pinned(Final(s, acts).mem))
    decreases |acts|
  {
    if acts != [] {
      var s' := Apply(s, acts[0]);
      StepKeepsInv(s, acts[0]);
      StepIsAtomic(s, acts[0]);
      RefinesAtomicMap(s', acts[1..]);
      if EventOf(s, acts[0]).Some? {
        var e := EventOf(s, acts[0]).value;
        var rest := History(s', acts[1..]);
        assert ([e] + rest)[1..] == rest;
        assert Atomic(Pinned(s.mem), ([e] + rest)[0], Pinned(s'.mem));
      }
    }
  }

  /** A thread is answered in the step that contributes its event, with that event's answer. */
  lemma {:induction false} AnsweredWhenItTakesEffect(s: State, a: Action)
    requires Inv(s) && Enabled(s, a)
    ensures EventOf(s, a).Some? <==> !s.pcs[a.t].Returned? && Apply(s, a).pcs[a.t].Returned?
    ensures EventOf(s, a).Some? ==>
              Apply(s, a).pcs[a.t].out == (if EventOf(s, a).value.Remove? then Done else EventOf(s, a).value.out)
    ensures forall u | 0 <= u < |s.pcs| && u != a.t :: Apply(s, a).pcs[u] == s.pcs[u]
  {
    assert PcOk(s.mem, s.handed, s.pcs[a.t]);
  }

  // --------------------------------------------------------------- what clients may conclude

  /** The step answers its thread's call: none before, this one after. */
  ghost predicate Answers(s: State, a: Action, out: Outcome)
    requires Enabled(s, a)
  {
    !s.pcs[a.t].Returned? && Apply(s, a).pcs[a.t].Returned? && Apply(s, a).pcs[a.t].out == out
  }

  /**
   In every reachable state, putIfAbsent is answered with null exactly in the step that installs its own object, its
   load having found nothing and pinned() having returned; any other object it is answered with is the one bound.
   */
  lemma {:induction false} PutIfAbsentNull(s: State, a: Action, k: Key, o: Obj, out: Outcome)
    requires Inv(s) && Enabled(s, a) && !s.pcs[a.t].Idle? && s.pcs[a.t].call == PinImpl(k, Some(o)) && Answers(s, a, out)
    ensures out == Handle(None) <==> a.Publish? && s.pcs[a.t].result == Missing && !a.throws
    ensures MapOk(Apply(s, a).mem) &&
            (out == Handle(None) ==>
               k !in Pinned(s.mem) && Pinned(Apply(s, a).mem) == Pinned(s.mem)[k := o])
    ensures out.Handle? && out.obj.Some? ==>
              k in Pinned(Apply(s, a).mem) && Pinned(Apply(s, a).mem)[k] == out.obj.value
  {
    StepIsAtomic(s, a);
    FetchEvent(s, a, k, o, out);
  }

  lemma {:induction false} FetchEvent(s: State, a: Action, k: Key, o: Obj, out: Outcome)
    requires Inv(s) && Enabled(s, a) && !s.pcs[a.t].Idle? && s.pcs[a.t].call == PinImpl(k, Some(o)) && Answers(s, a, out)
    ensures a.Publish? ==> EventOf(s, a) == Some(Fetch(k, Some(o), s.pcs[a.t].result, a.throws, out))
    ensures !a.Publish? ==> EventOf(s, a) == Some(Fetch(k, Some(o), Missing, false, out)) && k in Pinned(s.mem)
  {
    assert PcOk(s.mem, s.handed, s.pcs[a.t]);
    if a.Retry? {
      RetryLooks(s, a.t);
    } else if a.Enter? {
      LookIsAtomic(s, a.t);
    }
  }

  /** The key an event binds or unbinds, and the object its answer names for that key. */
  function Named(e: Event, k: Key): Option<Obj> {
    if (e.Fetch? || e.Get?) && e.key == k && e.out.Handle? then e.out.obj else None
  }

  /** The object a caller knows to be bound after its event: the one it obtained, or its own that was inserted. */
  function Known(e: Event, k: Key): Option<Obj> {
    if Named(e, k).Some? then Named(e, k)
    else if e.Fetch? && e.key == k && e.out == Handle(None) && e.load == Missing then e.newObj
    else if e.Put? && e.key == k && e.out == Flag(true) then Some(e.obj)
    else None
  }

  lemma {:induction false} KnownIsBound(b: Bindings, e: Event, b': Bindings, k: Key)
    requires Atomic(b, e, b') && Known(e, k).Some?
    ensures k in b' && b'[k] == Known(e, k).value
  {
  }

  /** The step answers a call for the key with this object, or accepts the object that the call brought. */
  ghost predicate Obtains(s: State, a: Action, k: Key, o: Obj)
    requires Enabled(s, a)
  {
    !s.pcs[a.t].Idle? &&
    match s.pcs[a.t].call
    case PinImpl(key, newObj) =>
      key == k && (Answers(s, a, Handle(Some(o))) || (newObj == Some(o) && Answers(s, a, Handle(None))))
    case PinObj(key, obj) => key == k && obj == o && Answers(s, a, Flag(true))
    case GetIfPinned(key, _) => key == k && Answers(s, a, Handle(Some(o)))
    case Unpin(_) => false
  }

  /** In every reachable state, the object that a call obtains or inserts is bound to the key when it is answered. */
  lemma {:induction false} ObtainedIsBound(s: State, a: Action, k: Key, o: Obj)
    requires Inv(s) && Enabled(s, a) && Obtains(s, a, k, o)
    ensures MapOk(Apply(s, a).mem) && k in Pinned(Apply(s, a).mem) && Pinned(Apply(s, a).mem)[k] == o
  {
    StepIsAtomic(s, a);
    AnsweredWhenItTakesEffect(s, a);
    KnownIsBound(Pinned(s.mem), EventOf(s, a).value, Pinned(Apply(s, a).mem), k);
  }

  lemma {:induction false} BoundUntilRemoved(b: Bindings, events: seq<Event>, b': Bindings, k: Key, j: nat)
    requires Sequential(b, events, b') && j < |events|
    requires k in b && Named(events[j], k).Some?
    requires forall i | 0 <= i < j :: events[i] != Remove(k)
    ensures Named(events[j], k) == Some(b[k])
    decreases j
  {
    var mid :| Atomic(b, events[0], mid) && Sequential(mid, events[1..], b');
    if j > 0 {
      assert events[0] != Remove(k);
      BoundUntilRemoved(mid, events[1..], b', k, j - 1);
    }
  }

  lemma {:induction false} SameInHistory(b: Bindings, events: seq<Event>, b': Bindings, k: Key, i: nat, j: nat)
    requires Sequential(b, events, b') && i < j < |events|
    requires Known(events[i], k).Some? && Named(events[j], k).Some?
    requires forall m | i < m < j :: events[m] != Remove(k)
    ensures Known(events[i], k) == Named(events[j], k)
    decreases i
  {
    var mid :| Atomic(b, events[0], mid) && Sequential(mid, events[1..], b');
    if i > 0 {
      SameInHistory(mid, events[1..], b', k, i - 1, j - 1);
    } else {
      KnownIsBound(b, events[0], mid, k);
      BoundUntilRemoved(mid, events[1..], b', k, j - 1);
    }
  }

  /**
   In every run of the cache, an object obtained for a key is the one that an earlier call obtained, or inserted, unless
   the key was unpinned in between.
   */
  lemma {:induction false} SameHandleUntilUnpin(s: State, acts: seq<Action>, events: seq<Event>, k: Key, i: nat, j: nat)
    requires Init(s) && IsRun(s, acts) && (InitInv(s); events == History(s, acts))
    requires i < j < |events| && Known(events[i], k).Some? && Named(events[j], k).Some?
    requires forall m | i < m < j :: events[m] != Remove(k)
    ensures Known(events[i], k) == Named(events[j], k)
  {
    InitInv(s);
    RefinesAtomicMap(s, acts);
    SameInHistory(Pinned(s.mem), events, Pinned(Final(s, acts).mem), k, i, j);
  }

  // --------------------------------------------------------------- the exception

  /** bool pin(key, obj) refuses exactly the keys that are pinned or being loaded. */
  lemma {:induction false} PutRefusals(s: State, a: Action)
    requires Inv(s) && Enabled(s, a) && a.Enter? && s.pcs[a.t].call.PinObj?
    ensures var k := s.pcs[a.t].call.key;
            Apply(s, a).pcs[a.t].out == Flag(false) <==> k in Pinned(s.mem) || BeingLoaded(s, k)
  {
  }

  /**
   Its answer is that of an atomic insert if and only if the key is not merely being loaded: an atomic insert
   refuses exactly the keys that are bound.
   */
  lemma {:induction false} PutIsAtomicInsertUnlessLoading(s: State, a: Action)
    requires Inv(s) && Enabled(s, a) && a.Enter? && s.pcs[a.t].call.PinObj?
    ensures var k := s.pcs[a.t].call.key;
            (Apply(s, a).pcs[a.t].out == Flag(false) <==> k in Pinned(s.mem)) <==> !BeingLoaded(s, k)
  {
  }

  /** A run in which pin("k", 7) is refused although "k" is bound at no moment: the load it collided with finds nothing. */
  lemma {:induction false} PutRefusedForNothing() returns (s: State, acts: seq<Action>)
    ensures Init(s) && IsRun(s, acts)
    ensures Final(s, acts).pcs == [Returned(PinImpl("k", None), Handle(None)), Returned(PinObj("k", 7), Flag(false))]
    ensures forall i {:trigger acts[..i]} | 0 <= i <= |acts| ::
              IsRun(s, acts[..i]) && forall n <- Final(s, acts[..i]).mem.nodes :: Final(s, acts[..i]).mem.nodes[n].obj.None?
  {
    s := State(EmptyMemory, [Idle, Idle], {});
    var fetch, put := PinImpl("k", None), PinObj("k", 7);
    acts := [Invoke(0, fetch), Enter(0, false), Invoke(1, put), Enter(1, false), LoadReturns(0, Missing), Publish(0, false)];
    var m := Memory(map["k" := 0], map[0 := Node("k", None, None)], map[], 1, 0, false);
    var s1 := State(EmptyMemory, [Entering(fetch), Idle], {});
    var s2 := State(m, [Loading(fetch, 0), Idle], {});
    var s3 := State(m, [Loading(fetch, 0), Entering(put)], {});
    var s4 := State(m, [Loading(fetch, 0), Returned(put, Flag(false))], {});
    var s5 := State(m, [Loaded(fetch, 0, Missing), Returned(put, Flag(false))], {});
    var s6 := State(Memory(map[], map[], map[], 1, 0, false), [Returned(fetch, Handle(None)), Returned(put, Flag(false))], {});
    RunsThrough(s, acts, [s, s1, s2, s3, s4, s5, s6]);
  }

  /** A list of states, each the result of applying the next action to the one before, is what a run passes through. */
  lemma {:induction false} RunsThrough(s: State, acts: seq<Action>, states: seq<State>)
    requires |states| == |acts| + 1 && states[0] == s
    requires forall i | 0 <= i < |acts| :: Enabled(states[i], acts[i]) && Apply(states[i], acts[i]) == states[i + 1]
    ensures forall i {:trigger acts[..i]} | 0 <= i <= |acts| :: IsRun(s, acts[..i]) && Final(s, acts[..i]) == states[i]
    ensures IsRun(s, acts) && Final(s, acts) == states[|acts|]
    decreases |acts|
  {
    forall i {:trigger acts[..i]} | 0 <= i <= |acts|
      ensures IsRun(s, acts[..i]) && Final(s, acts[..i]) == states[i]
    {
      if i > 0 {
        var rest := acts[1..];
        RunsThrough(states[1], rest, states[1..]);
        assert acts[..i][1..] == rest[..i - 1];
      }
    }
    assert acts[..|acts|] == acts;
  }
}

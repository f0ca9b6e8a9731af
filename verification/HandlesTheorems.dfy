/** What every run of handle operations keeps, and how every cascade of deletions ends. */
module HandlesTheorems {
  import opened Prelude
  import opened Handles
  import opened HandlesProofs

  /**
   In every run, every live object's count is the number of live handles to it, no handle dangles, nothing freed is
   touched, and no object is freed twice.
   */
  lemma {:induction false} EveryRunIsSafe(acts: seq<Action>)
    requires IsRun(EmptyHeap, acts)
    ensures var h := Final(EmptyHeap, acts);
            && !h.fault
            && (forall o <- h.objs :: h.objs[o].ref == |Holders(h.handles, o)|)
            && (forall id <- h.handles :: h.handles[id].target.Some? ==> h.handles[id].target.value in h.objs)
            && (forall i, j | 0 <= i < j < |h.freed| :: h.freed[i] != h.freed[j])
            && (forall o <- h.freed :: o !in h.objs)
  {
    RunKeepsInv(EmptyHeap, acts);
  }

  ghost predicate Held(h: Heap, o: ObjId) {
    exists id <- h.handles :: h.handles[id].target == Some(o)
  }

  lemma {:induction false} HeldIffCounted(h: Heap, o: ObjId)
    requires Inv(h) && o in h.objs
    ensures Held(h, o) <==> h.objs[o].ref > 0
  {
    NoHolders(h.handles, o);
  }

  lemma {:induction false} DyingIsGuarded(h: Heap, o: ObjId)
    requires Inv(h) && Dying(h, o)
    ensures o in h.objs && h.objs[o].noDelete
  {
    var i :| 0 <= i < |h.deleting| && h.deleting[i].obj == o;
    assert Guarded(h, h.deleting[i]);
  }

  lemma {:induction false} TargetIsCounted(h: Heap, id: HandleId)
    requires Inv(h) && id in h.handles
    ensures h.handles[id].target.Some? ==>
              h.handles[id].target.value in h.objs && h.objs[h.handles[id].target.value].ref > 0
  {
    if h.handles[id].target.Some? {
      HeldIffCounted(h, h.handles[id].target.value);
    }
  }

  lemma {:induction false} AssignStack(h: Heap, id: HandleId, p: Option<ObjId>, o: ObjId)
    requires Inv(h) && id in h.handles && Usable(h, p) && o in h.objs && !Dying(h, o)
    ensures var h' := Assign(h, id, p);
            && o in h'.objs
            && (Dying(h', o) <==> !h.objs[o].noDelete && h.objs[o].ref > 0 && h'.objs[o].ref == 0)
  {
    TargetIsCounted(h, id);
    if h.handles[id].target != p {
      IncRefMid(h, p);
      var m := IncRef(h, p).(handles := h.handles[id := h.handles[id].(target := p)]);
      assert !Dying(m, o);
    }
  }

  lemma {:induction false} DestroyStack(h: Heap, id: HandleId, o: ObjId)
    requires Inv(h) && id in h.handles && o in h.objs && !Dying(h, o)
    ensures var h' := Destroy(h, id);
            && o in h'.objs
            && (Dying(h', o) <==> !h.objs[o].noDelete && h.objs[o].ref > 0 && h'.objs[o].ref == 0)
  {
    TargetIsCounted(h, id);
  }

  /** What a step does to the stack of deletions. */
  lemma {:induction false} StackStep(h: Heap, a: Action, o: ObjId)
    requires Inv(h) && Enabled(h, a) && o in h.objs && !Dying(h, o)
    ensures var h' := Apply(h, a);
            && o in h'.objs
            && (Dying(h', o) <==> !h.objs[o].noDelete && h.objs[o].ref > 0 && h'.objs[o].ref == 0)
  {
    match a
    case AssignPointer(id, p) => AssignStack(h, id, p, o);
    case AssignHandle(id, r) => HeldIsUsable(h, r); AssignStack(h, id, h.handles[r].target, o);
    case LeaveScope(id) => DestroyStack(h, id, o);
    case DestroyMember(id) => DestroyStack(h, id, o);
    case FromPointer(id, owner, p) => NoDeletion(h, a, o);
    case FromHandle(id, owner, r) => HeldIsUsable(h, r); NoDeletion(h, a, o);
    case New(_) => NoDeletion(h, a, o);
    case SetNoDelete(_, _) => NoDeletion(h, a, o);
    case SwapHandles(_, _) => NoDeletion(h, a, o);
    case BodyEnds => PopStack(h, a, o);
    case Free => PopStack(h, a, o);
  }

  lemma {:induction false} NoDeletion(h: Heap, a: Action, o: ObjId)
    requires Inv(h) && Enabled(h, a) && o in h.objs && !Dying(h, o)
    requires a.FromPointer? || a.FromHandle? || a.New? || a.SetNoDelete? || a.SwapHandles?
    ensures var h' := Apply(h, a);
            && o in h'.objs && !Dying(h', o) && (h.objs[o].ref > 0 ==> h'.objs[o].ref > 0)
  {
  }

  lemma {:induction false} PopStack(h: Heap, a: Action, o: ObjId)
    requires Inv(h) && Enabled(h, a) && o in h.objs && !Dying(h, o)
    requires a.BodyEnds? || a.Free?
    ensures var h' := Apply(h, a); o in h'.objs && !Dying(h', o) && h'.objs[o] == h.objs[o]
  {
    var h', top := Apply(h, a), |h.deleting| - 1;
    assert h.deleting[top] in h.deleting && h.deleting[top].obj != o;
    assert forall f <- h'.deleting :: f in h.deleting || f == Unwinding(h.deleting[top].obj);
  }

  /** A step starts to delete an object exactly when it takes the last handle to it and _noDelete is not set. */
  lemma {:induction false} DeletedExactlyAtTheLastHandle(h: Heap, a: Action, o: ObjId)
    requires Inv(h) && Enabled(h, a) && o in h.objs && !Dying(h, o)
    ensures o in Apply(h, a).objs
    ensures Dying(Apply(h, a), o) <==> !h.objs[o].noDelete && Held(h, o) && !Held(Apply(h, a), o)
  {
    StackStep(h, a, o);
    StepKeepsInv(h, a);
    HeldIffCounted(h, o);
    HeldIffCounted(Apply(h, a), o);
  }

  /** Only an object whose deletion started is ever freed. */
  lemma {:induction false} OnlyTheDyingAreFreed(h: Heap, a: Action, o: ObjId)
    requires Inv(h) && Enabled(h, a) && o in h.objs
    ensures o !in Apply(h, a).objs ==> Dying(h, o) && !Held(h, o)
  {
    if a.Free? {
      assert Guarded(h, h.deleting[|h.deleting| - 1]);
      assert h.deleting[|h.deleting| - 1] in h.deleting;
    }
  }

  // --------------------------------------------------------------- cascades

  ghost predicate IsCascade(h: Heap, acts: seq<Action>) {
    IsRun(h, acts) && forall a <- acts :: Internal(a)
  }

  /** k is what some steps of a cascade may have left of h. */
  ghost predicate Evolved(h: Heap, k: Heap) {
    && (forall id <- k.handles :: id in h.handles && k.handles[id] == h.handles[id])
    && (forall id <- h.handles :: h.handles[id].owner == None ==> id in k.handles)
    && (forall o <- k.objs :: o in h.objs && (k.objs[o].noDelete == h.objs[o].noDelete || Dying(k, o)))
    && (forall o <- h.objs :: Dying(h, o) ==> Dying(k, o) || o !in k.objs)
    && (forall o <- h.objs :: !h.objs[o].noDelete && Held(h, o) ==> Held(k, o) || Dying(k, o) || o !in k.objs)
    && (forall o :: o in k.freed <==> o in h.freed || (o in h.objs && o !in k.objs))
  }

  lemma {:induction false} CascadeStepFrame(k: Heap, a: Action)
    requires Inv(k) && Internal(a) && Enabled(k, a)
    ensures var k' := Apply(k, a);
            && (forall id <- k'.handles :: id in k.handles && k'.handles[id] == k.handles[id])
            && (forall id <- k.handles :: k.handles[id].owner == None ==> id in k'.handles)
            && (forall o <- k'.objs :: o in k.objs && (k'.objs[o].noDelete == k.objs[o].noDelete || Dying(k', o)))
            && (forall o <- k.objs :: Dying(k, o) ==> Dying(k', o) || o !in k'.objs)
  {
    forall o | o in k.objs && Dying(k, o)
      ensures Dying(Apply(k, a), o) || o !in Apply(k, a).objs
    {
      DyingStays(k, a, o);
    }
    forall o | o in Apply(k, a).objs
      ensures o in k.objs && (Apply(k, a).objs[o].noDelete == k.objs[o].noDelete || Dying(Apply(k, a), o))
    {
      NoDeleteStays(k, a, o);
    }
  }

  lemma {:induction false} DyingStays(k: Heap, a: Action, o: ObjId)
    requires Inv(k) && Internal(a) && Enabled(k, a) && o in k.objs && Dying(k, o)
    ensures Dying(Apply(k, a), o) || o !in Apply(k, a).objs
  {
    var k', top := Apply(k, a), |k.deleting| - 1;
    var i :| 0 <= i < |k.deleting| && k.deleting[i].obj == o;
    if i < top {
      assert k'.deleting[i] == k.deleting[i];
      assert k'.deleting[i] in k'.deleting;
    } else if !a.Free? {
      assert k'.deleting[top].obj == o;
      assert k'.deleting[top] in k'.deleting;
    }
  }

  lemma {:induction false} NoDeleteStays(k: Heap, a: Action, o: ObjId)
    requires Inv(k) && Internal(a) && Enabled(k, a) && o in Apply(k, a).objs
    ensures o in k.objs && (Apply(k, a).objs[o].noDelete == k.objs[o].noDelete || Dying(Apply(k, a), o))
  {
    var k' := Apply(k, a);
    if k'.objs[o].noDelete != k.objs[o].noDelete {
      assert k'.deleting[|k'.deleting| - 1] in k'.deleting;
    }
  }

  lemma {:induction false} EvolvedOneStep(k: Heap, a: Action)
    requires Inv(k) && Internal(a) && Enabled(k, a)
    ensures Evolved(k, Apply(k, a))
  {
    var k' := Apply(k, a);
    CascadeStepFrame(k, a);
    forall o | o in k.objs && !k.objs[o].noDelete && Held(k, o)
      ensures Held(k', o) || Dying(k', o) || o !in k'.objs
    {
      if Dying(k, o) {
        DyingIsGuarded(k, o);
      } else {
        DeletedExactlyAtTheLastHandle(k, a, o);
      }
    }
    FreedOneStep(k, a);
  }

  lemma {:induction false} FreedOneStep(k: Heap, a: Action)
    requires Inv(k) && Internal(a) && Enabled(k, a)
    ensures forall o :: o in Apply(k, a).freed <==> o in k.freed || (o in k.objs && o !in Apply(k, a).objs)
  {
    if a.Free? {
      var top := k.deleting[|k.deleting| - 1];
      assert Guarded(k, top);
      assert forall o :: o in k.freed + [top.obj] <==> o in k.freed || o == top.obj;
    }
  }

  lemma {:induction false} EvolvedStep(h: Heap, k: Heap, a: Action)
    requires Inv(k) && Evolved(h, k) && Internal(a) && Enabled(k, a)
    ensures Evolved(h, Apply(k, a))
  {
    EvolvedOneStep(k, a);
    forall o | o in k.objs && Dying(k, o)
      ensures k.objs[o].noDelete
    {
      DyingIsGuarded(k, o);
    }
  }

  lemma {:induction false} CascadeEvolves(h: Heap, k: Heap, acts: seq<Action>)
    requires Inv(k) && Evolved(h, k) && IsCascade(k, acts)
    ensures Inv(Final(k, acts)) && Evolved(h, Final(k, acts))
    decreases |acts|
  {
    if acts != [] {
      StepKeepsInv(k, acts[0]);
      EvolvedStep(h, k, acts[0]);
      CascadeEvolves(h, Apply(k, acts[0]), acts[1..]);
    }
  }

  // --------------------------------------------------------------- termination

  ghost function Deletable(objs: map<ObjId, Object>): set<ObjId> {
    set o | o in objs && !objs[o].noDelete
  }

  ghost function Bodies(deleting: seq<Frame>): nat {
    if deleting == [] then 0
    else Bodies(deleting[..|deleting| - 1]) + if deleting[|deleting| - 1].Running? then 1 else 0
  }

  ghost function Potential(h: Heap): nat {
    |h.handles| + |h.objs| + 2 * |Deletable(h.objs)| + Bodies(h.deleting)
  }

  lemma {:induction false} DecRefPotential(h: Heap, p: Option<ObjId>)
    requires Mid(h, p)
    ensures Potential(DecRef(h, p)) <= Potential(h)
  {
    if p.Some? && p.value in h.objs {
      var o := p.value;
      var r := h.objs[o];
      OneObjectChanges(h.objs, o, r.(ref := r.ref - 1));
      OneObjectChanges(h.objs, o, Object(r.ref - 1, true));
    }
  }

  lemma {:induction false} OneObjectChanges(objs: map<ObjId, Object>, o: ObjId, r: Object)
    requires o in objs && (objs[o].noDelete ==> r.noDelete)
    ensures |objs[o := r]| == |objs|
    ensures |Deletable(objs[o := r])| == |Deletable(objs)| - (if r.noDelete && !objs[o].noDelete then 1 else 0)
  {
    var objs' := objs[o := r];
    assert objs'.Keys == objs.Keys;
    assert |objs'| == |objs'.Keys| && |objs| == |objs.Keys|;
    assert Deletable(objs') == if r.noDelete then Deletable(objs) - {o} else Deletable(objs);
  }

  lemma {:induction false} HandleGoes(h: Heap, id: HandleId)
    requires id in h.handles
    ensures Potential(h.(handles := h.handles - {id})) == Potential(h) - 1
  {
    var m := h.handles - {id};
    assert m.Keys == h.handles.Keys - {id} && |m| == |m.Keys| && |h.handles| == |h.handles.Keys|;
  }

  lemma {:induction false} DestroyPotential(h: Heap, id: HandleId)
    requires Inv(h) && id in h.handles
    ensures Potential(Destroy(h, id)) < Potential(h)
  {
    RemoveMid(h, id);
    HandleGoes(h, id);
    DecRefPotential(h.(handles := h.handles - {id}), h.handles[id].target);
  }

  /** Every step of a cascade brings it nearer to its end. */
  lemma {:induction false} CascadeStepDescends(h: Heap, a: Action)
    requires Inv(h) && Internal(a) && Enabled(h, a)
    ensures Potential(Apply(h, a)) < Potential(h)
  {
    var h' := Apply(h, a);
    var top := |h.deleting| - 1;
    match a
    case BodyEnds =>
      assert h'.deleting[..top] == h.deleting[..top];
    case DestroyMember(id) =>
      DestroyPotential(h, id);
    case Free =>
      assert Guarded(h, h.deleting[top]);
      OneObjectLess(h.objs, h.deleting[top].obj);
  }

  lemma {:induction false} OneObjectLess(objs: map<ObjId, Object>, o: ObjId)
    requires o in objs && objs[o].noDelete
    ensures |objs - {o}| == |objs| - 1 && Deletable(objs - {o}) == Deletable(objs)
  {
    var rest := objs - {o};
    assert |rest| == |rest.Keys| && |objs| == |objs.Keys| && rest.Keys == objs.Keys - {o};
  }

  /** No cascade runs forever: its length is bounded by what it started from. */
  lemma {:induction false} EveryCascadeFinishes(h: Heap, acts: seq<Action>)
    requires Inv(h) && IsCascade(h, acts)
    ensures |acts| + Potential(Final(h, acts)) <= Potential(h)
    decreases |acts|
  {
    if acts != [] {
      CascadeStepDescends(h, acts[0]);
      StepKeepsInv(h, acts[0]);
      EveryCascadeFinishes(Apply(h, acts[0]), acts[1..]);
    }
  }

  // --------------------------------------------------------------- termination with destructor bodies

  function InternalSteps(acts: seq<Action>): nat {
    if acts == [] then 0 else (if Internal(acts[0]) then 1 else 0) + InternalSteps(acts[1..])
  }

  lemma {:induction false} ClientStepRaises(h: Heap, a: Action)
    requires Inv(h) && Enabled(h, a) && !Internal(a)
    ensures Potential(Apply(h, a)) <= Potential(h) + 3
  {
    match a
    case New(o) => ObjectChanges(h.objs, o, Object(0, false));
    case SetNoDelete(o, b) => ObjectChanges(h.objs, o, h.objs[o].(noDelete := b));
    case FromPointer(id, owner, p) => ConstructRaises(h, id, owner, p);
    case FromHandle(id, owner, r) => ConstructRaises(h, id, owner, h.handles[r].target);
    case AssignPointer(id, p) => AssignPotential(h, id, p);
    case AssignHandle(id, r) => HeldIsUsable(h, r); AssignPotential(h, id, h.handles[r].target);
    case SwapHandles(id, r) => SwapPotential(h, id, r);
    case LeaveScope(id) => DestroyPotential(h, id);
  }

  lemma {:induction false} ObjectChanges(objs: map<ObjId, Object>, o: ObjId, r: Object)
    ensures |objs[o := r]| <= |objs| + 1 && (o in objs ==> |objs[o := r]| == |objs|)
    ensures |Deletable(objs[o := r])| <= |Deletable(objs)| + 1
    ensures o in objs && r.noDelete == objs[o].noDelete ==> Deletable(objs[o := r]) == Deletable(objs)
  {
    var objs' := objs[o := r];
    assert objs'.Keys == objs.Keys + {o} && |objs'| == |objs'.Keys| && |objs| == |objs.Keys|;
    assert Deletable(objs') <= Deletable(objs) + {o};
    Smaller(Deletable(objs'), Deletable(objs) + {o});
  }

  lemma {:induction false} Smaller(a: set<ObjId>, b: set<ObjId>)
    requires a <= b
    ensures |a| <= |b|
  {
    assert b == a + (b - a);
  }

  lemma {:induction false} IncRefPotential(h: Heap, p: Option<ObjId>)
    ensures Potential(IncRef(h, p)) == Potential(h)
  {
    if p.Some? && p.value in h.objs {
      ObjectChanges(h.objs, p.value, h.objs[p.value].(ref := h.objs[p.value].ref + 1));
    }
  }

  lemma {:induction false} HandleChanges(h: Heap, id: HandleId, v: Handle)
    ensures Potential(h.(handles := h.handles[id := v])) == Potential(h) + (if id in h.handles then 0 else 1)
  {
    var m := h.handles[id := v];
    assert m.Keys == h.handles.Keys + {id} && |m| == |m.Keys| && |h.handles| == |h.handles.Keys|;
  }

  lemma {:induction false} ConstructRaises(h: Heap, id: HandleId, owner: Option<ObjId>, p: Option<ObjId>)
    requires id !in h.handles
    ensures Potential(Construct(h, id, owner, p)) <= Potential(h) + 1
  {
    IncRefPotential(h, p);
    HandleChanges(IncRef(h, p), id, Handle(owner, p));
  }

  lemma {:induction false} AssignPotential(h: Heap, id: HandleId, p: Option<ObjId>)
    requires Inv(h) && id in h.handles && Usable(h, p)
    ensures Potential(Assign(h, id, p)) <= Potential(h)
  {
    if h.handles[id].target != p {
      var v := h.handles[id].(target := p);
      IncRefMid(h, p);
      RetargetMid(IncRef(h, p), id, p);
      IncRefPotential(h, p);
      HandleChanges(IncRef(h, p), id, v);
      DecRefPotential(IncRef(h, p).(handles := h.handles[id := v]), h.handles[id].target);
    }
  }

  lemma {:induction false} SwapPotential(h: Heap, id: HandleId, r: HandleId)
    requires id in h.handles && r in h.handles
    ensures Potential(Swap(h, id, r)) == Potential(h)
  {
    var v := h.handles[id].(target := h.handles[r].target);
    HandleChanges(h, id, v);
    HandleChanges(h.(handles := h.handles[id := v]), r, h.handles[r].(target := h.handles[id].target));
  }

  /**
   In every run, destructor bodies of any kind included, the deletions' own steps are bounded by what the heap held
   at the start and by what clients did: no deletion goes on forever unless a destructor body does.
   */
  lemma {:induction false} DeletionsArePaidFor(h: Heap, acts: seq<Action>)
    requires Inv(h) && IsRun(h, acts)
    ensures InternalSteps(acts) + Potential(Final(h, acts)) <= Potential(h) + 3 * (|acts| - InternalSteps(acts))
    decreases |acts|
  {
    if acts != [] {
      if Internal(acts[0]) {
        CascadeStepDescends(h, acts[0]);
      } else {
        ClientStepRaises(h, acts[0]);
      }
      StepKeepsInv(h, acts[0]);
      DeletionsArePaidFor(Apply(h, acts[0]), acts[1..]);
    }
  }

  /** A deletion under way can always take a step, unless a handle to the object in its destructor's body is left. */
  lemma {:induction false} NeverStuck(h: Heap)
    requires Inv(h) && h.deleting != []
    requires var f := h.deleting[|h.deleting| - 1]; f.Running? ==> !Held(h, f.obj)
    ensures exists a :: Internal(a) && Enabled(h, a)
  {
    var f := h.deleting[|h.deleting| - 1];
    if f.Running? {
      assert Enabled(h, BodyEnds);
    } else if id :| Owns(h, f.obj, id) {
      assert Enabled(h, DestroyMember(id));
    } else {
      assert Enabled(h, Free);
    }
  }

  // --------------------------------------------------------------- what survives

  /** A chain of handles from a variable, each of the others a member of the object the one before points to. */
  ghost predicate Chain(h: Heap, path: seq<HandleId>) {
    && path != []
    && (forall i | 0 <= i < |path| :: path[i] in h.handles && h.handles[path[i]].target.Some?)
    && h.handles[path[0]].owner == None
    && (forall i | 0 < i < |path| :: h.handles[path[i]].owner == h.handles[path[i - 1]].target)
  }

  /** A step that neither retargets nor destroys any of these handles by name. */
  predicate Spares(a: Action, path: seq<HandleId>) {
    match a
    case AssignPointer(id, _) => id !in path
    case AssignHandle(id, _) => id !in path
    case SwapHandles(id, r) => id !in path && r !in path
    case LeaveScope(id) => id !in path
    case _ => true
  }

  /** A deletion past its destructor's body does not own a handle of the chain: nothing points to its object. */
  lemma {:induction false} ChainIsNotUnwound(h: Heap, path: seq<HandleId>, i: nat)
    requires Inv(h) && Chain(h, path) && i < |path|
    requires h.deleting != [] && h.deleting[|h.deleting| - 1].Unwinding?
    ensures !Owns(h, h.deleting[|h.deleting| - 1].obj, path[i])
  {
    assert Guarded(h, h.deleting[|h.deleting| - 1]);
    if i > 0 {
      assert h.handles[path[i - 1]].target != Some(h.deleting[|h.deleting| - 1].obj);
    }
  }

  lemma {:induction false} HandleStays(h: Heap, a: Action, path: seq<HandleId>, i: nat)
    requires Inv(h) && Chain(h, path) && i < |path| && Enabled(h, a) && Spares(a, path)
    ensures path[i] in Apply(h, a).handles && Apply(h, a).handles[path[i]] == h.handles[path[i]]
  {
    match a
    case AssignPointer(id, p) => AssignChanges(h, id, p);
    case AssignHandle(id, r) => AssignChanges(h, id, h.handles[r].target);
    case DestroyMember(id) => ChainIsNotUnwound(h, path, i);
    case _ =>
  }

  lemma {:induction false} AssignChanges(h: Heap, id: HandleId, p: Option<ObjId>)
    requires id in h.handles
    ensures Assign(h, id, p).handles == h.handles[id := h.handles[id].(target := p)]
  {
  }

  lemma {:induction false} ChainStep(h: Heap, a: Action, path: seq<HandleId>)
    requires Inv(h) && Chain(h, path) && Enabled(h, a) && Spares(a, path)
    ensures Chain(Apply(h, a), path)
    ensures forall i | 0 <= i < |path| :: Apply(h, a).handles[path[i]] == h.handles[path[i]]
  {
    forall i | 0 <= i < |path|
      ensures path[i] in Apply(h, a).handles && Apply(h, a).handles[path[i]] == h.handles[path[i]]
    {
      HandleStays(h, a, path, i);
    }
  }

  /**
   What a variable leads to survives every run, destructor bodies and nested deletions included, in which nobody
   retargets or destroys a handle on the way by name: no handle on the way changes and no object on the way is freed,
   not even one whose deletion is under way.
   */
  lemma {:induction false} ReachableSurvives(h: Heap, acts: seq<Action>, path: seq<HandleId>)
    requires Inv(h) && IsRun(h, acts) && Chain(h, path) && forall a <- acts :: Spares(a, path)
    ensures Chain(Final(h, acts), path)
    ensures forall i | 0 <= i < |path| ::
              Final(h, acts).handles[path[i]] == h.handles[path[i]] &&
              h.handles[path[i]].target.value in Final(h, acts).objs
    decreases |acts|
  {
    if acts != [] {
      ChainStep(h, acts[0], path);
      StepKeepsInv(h, acts[0]);
      ReachableSurvives(Apply(h, acts[0]), acts[1..], path);
    }
  }

  /** A cascade destroys no handle and frees no object that a variable still leads to. */
  lemma {:induction false} CascadeSpares(h: Heap, acts: seq<Action>, path: seq<HandleId>)
    requires Inv(h) && IsCascade(h, acts) && Chain(h, path)
    ensures Chain(Final(h, acts), path)
    ensures forall i | 0 <= i < |path| ::
              Final(h, acts).handles[path[i]] == h.handles[path[i]] &&
              h.handles[path[i]].target.value in Final(h, acts).objs
  {
    forall a <- acts
      ensures Spares(a, path)
    {
      assert Internal(a);
    }
    ReachableSurvives(h, acts, path);
  }

  /**
   Assignment to a variable, whatever the cascade it sets off: the variable ends up on the new target, which lives,
   even when the handle assigned from went with the old target. Assigning a handle to itself changes nothing.
   */
  lemma {:induction false} AssignmentKeepsItsTarget(h: Heap, id: HandleId, r: HandleId, acts: seq<Action>)
    requires Inv(h) && Enabled(h, AssignHandle(id, r)) && h.handles[id].owner == None
    requires IsCascade(Apply(h, AssignHandle(id, r)), acts)
    ensures var f := Final(Apply(h, AssignHandle(id, r)), acts);
            && id in f.handles && f.handles[id].target == h.handles[r].target
            && (f.handles[id].target.Some? ==> f.handles[id].target.value in f.objs)
    ensures id == r ==> Apply(h, AssignHandle(id, r)) == h
  {
    var h' := Apply(h, AssignHandle(id, r));
    StepKeepsInv(h, AssignHandle(id, r));
    CascadeEvolves(h', h', acts);
  }

  // --------------------------------------------------------------- the order of destruction

  /** What is gone or going in a is gone in b. */
  ghost predicate GoneToo(h: Heap, a: Heap, b: Heap) {
    && (forall id <- h.handles :: id !in a.handles ==> id !in b.handles)
    && (forall o <- h.objs :: o !in a.objs || Dying(a, o) ==> o !in b.objs)
  }

  lemma {:induction false} GoneTooStep(h: Heap, k: Heap, a: Action, b: Heap)
    requires Inv(k) && Inv(b) && Evolved(h, k) && Evolved(h, b) && b.deleting == []
    requires GoneToo(h, k, b) && Internal(a) && Enabled(k, a)
    ensures GoneToo(h, Apply(k, a), b)
  {
    var k' := Apply(k, a);
    forall o | o in h.objs && (o !in k'.objs || Dying(k', o))
      ensures o !in b.objs
    {
      if o in k.objs && !Dying(k, o) {
        DeletedExactlyAtTheLastHandle(k, a, o);
        LastHandleGoneToo(h, k, b, a, o);
      }
    }
    forall id | id in h.handles && id !in k'.handles
      ensures id !in b.handles
    {
      if id in k.handles {
        DestroyedGoneToo(h, k, b, a, id);
      }
    }
  }

  lemma {:induction false} DestroyedHandleIsOwned(k: Heap, a: Action, id: HandleId) returns (o: ObjId)
    requires Inv(k) && Internal(a) && Enabled(k, a) && id in k.handles && id !in Apply(k, a).handles
    ensures k.handles[id].owner == Some(o) && Dying(k, o) && o in k.objs
  {
    var top := k.deleting[|k.deleting| - 1];
    assert top in k.deleting;
    o := top.obj;
    DyingIsGuarded(k, o);
  }

  lemma {:induction false} DestroyedGoneToo(h: Heap, k: Heap, b: Heap, a: Action, id: HandleId)
    requires Inv(k) && NothingDangles(b) && Evolved(h, k) && Evolved(h, b) && GoneToo(h, k, b)
    requires Internal(a) && Enabled(k, a) && id in k.handles && id !in Apply(k, a).handles
    ensures id !in b.handles
  {
    var o := DestroyedHandleIsOwned(k, a, id);
    assert o !in b.objs;
  }

  lemma {:induction false} LastHandleGoneToo(h: Heap, k: Heap, b: Heap, a: Action, o: ObjId)
    requires Inv(k) && NothingDangles(b) && Evolved(h, k) && Evolved(h, b) && b.deleting == [] && GoneToo(h, k, b)
    requires Internal(a) && Enabled(k, a) && o in k.objs
    requires !k.objs[o].noDelete && !Dying(k, o) && Held(k, o) && !Held(Apply(k, a), o)
    ensures o !in b.objs
  {
    assert !h.objs[o].noDelete;
    assert Held(h, o) by {
      var id :| id in k.handles && k.handles[id].target == Some(o);
      assert h.handles[id].target == Some(o);
    }
    if Held(b, o) {
      var id :| id in b.handles && b.handles[id].target == Some(o);
      assert h.handles[id] == b.handles[id];
      assert id in k.handles && k.handles[id] == h.handles[id];
      assert id !in Apply(k, a).handles by {
        CascadeStepFrame(k, a);
      }
      DestroyedGoneToo(h, k, b, a, id);
    }
  }

  lemma {:induction false} GoneTooRun(h: Heap, k: Heap, acts: seq<Action>, b: Heap)
    requires Inv(k) && Inv(b) && Evolved(h, k) && Evolved(h, b) && b.deleting == []
    requires GoneToo(h, k, b) && IsCascade(k, acts)
    ensures GoneToo(h, Final(k, acts), b)
    decreases |acts|
  {
    if acts != [] {
      GoneTooStep(h, k, acts[0], b);
      StepKeepsInv(k, acts[0]);
      EvolvedStep(h, k, acts[0]);
      GoneTooRun(h, Apply(k, acts[0]), acts[1..], b);
    }
  }

  /** Two heaps that are gone from each other are equal. */
  lemma {:induction false} SameHeap(h: Heap, a: Heap, b: Heap)
    requires Inv(a) && Inv(b) && Evolved(h, a) && Evolved(h, b) && GoneToo(h, a, b) && GoneToo(h, b, a)
    requires a.deleting == [] && b.deleting == []
    ensures a.objs == b.objs && a.handles == b.handles && forall o :: o in a.freed <==> o in b.freed
  {
    assert a.handles == b.handles;
    forall o | o in a.objs
      ensures o in b.objs && a.objs[o] == b.objs[o]
    {
      assert a.objs[o].ref == |Holders(a.handles, o)|;
    }
    assert a.objs.Keys == b.objs.Keys;
  }

  /** The order in which members are destroyed does not matter: two finished cascades leave the same heap. */
  lemma {:induction false} OrderIsIrrelevant(h: Heap, acts: seq<Action>, others: seq<Action>)
    requires Inv(h) && IsCascade(h, acts) && IsCascade(h, others)
    requires Final(h, acts).deleting == [] && Final(h, others).deleting == []
    ensures Final(h, acts).objs == Final(h, others).objs
    ensures Final(h, acts).handles == Final(h, others).handles
    ensures forall o :: o in Final(h, acts).freed <==> o in Final(h, others).freed
  {
    var a, b := Final(h, acts), Final(h, others);
    CascadeEvolves(h, h, acts);
    CascadeEvolves(h, h, others);
    DyingGoneAtTheEnd(h, a);
    DyingGoneAtTheEnd(h, b);
    GoneTooRun(h, h, acts, b);
    GoneTooRun(h, h, others, a);
    SameHeap(h, a, b);
  }

  lemma {:induction false} DyingGoneAtTheEnd(h: Heap, b: Heap)
    requires Inv(h) && Evolved(h, b) && b.deleting == []
    ensures GoneToo(h, h, b)
  {
    forall o | o in h.objs && Dying(h, o)
      ensures o !in b.objs
    {
      assert !Dying(b, o);
    }
  }
}

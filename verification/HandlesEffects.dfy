/** What every step does to handles and objects, told without the operations: which handle points where, and what exists. */
module HandlesEffects {
  import opened Prelude
  import opened Handles
  import opened HandlesProofs
  import opened HandlesTheorems

  type Pointers = map<HandleId, Option<ObjId>>

  /** Where each handle points, and whose member it is. */
  datatype Picture = Picture(targets: Pointers, owners: Pointers)

  function PictureOf(h: Heap): Picture {
    Picture(Targets(h.handles), HandleOwners(h.handles))
  }

  function Targets(handles: map<HandleId, Handle>): Pointers {
    map id | id in handles :: handles[id].target
  }

  function HandleOwners(handles: map<HandleId, Handle>): Pointers {
    map id | id in handles :: handles[id].owner
  }

  /** The handles that a step names exist. */
  predicate Names(p: Picture, a: Action) {
    match a
    case FromHandle(_, _, r) => r in p.targets
    case AssignHandle(_, r) => r in p.targets
    case SwapHandles(id, r) => id in p.targets && r in p.targets
    case _ => true
  }

  /** What a step means to a client: constructors and assignments point, swap exchanges, destructors remove. */
  function Drawn(p: Picture, a: Action): Picture
    requires Names(p, a)
  {
    var t, w := p.targets, p.owners;
    match a
    case FromPointer(id, owner, o) => Picture(t[id := o], w[id := owner])
    case FromHandle(id, owner, r) => Picture(t[id := t[r]], w[id := owner])
    case AssignPointer(id, o) => Picture(t[id := o], w)
    case AssignHandle(id, r) => Picture(t[id := t[r]], w)
    case SwapHandles(id, r) => Picture(t[id := t[r]][r := t[id]], w)
    case LeaveScope(id) => Picture(t - {id}, w - {id})
    case DestroyMember(id) => Picture(t - {id}, w - {id})
    case _ => p
  }

  lemma {:induction false} OnePut(handles: map<HandleId, Handle>, id: HandleId, v: Handle)
    ensures Targets(handles[id := v]) == Targets(handles)[id := v.target]
    ensures HandleOwners(handles[id := v]) == HandleOwners(handles)[id := v.owner]
    ensures id in handles && v.owner == handles[id].owner ==> HandleOwners(handles[id := v]) == HandleOwners(handles)
  {
  }

  lemma {:induction false} OneGone(handles: map<HandleId, Handle>, id: HandleId)
    ensures Targets(handles - {id}) == Targets(handles) - {id} && HandleOwners(handles - {id}) == HandleOwners(handles) - {id}
  {
  }

  lemma {:induction false} ConstructDraws(h: Heap, id: HandleId, owner: Option<ObjId>, p: Option<ObjId>)
    ensures PictureOf(Construct(h, id, owner, p)) == Picture(Targets(h.handles)[id := p], HandleOwners(h.handles)[id := owner])
  {
    OnePut(h.handles, id, Handle(owner, p));
  }

  lemma {:induction false} AssignDraws(h: Heap, id: HandleId, p: Option<ObjId>)
    requires id in h.handles
    ensures PictureOf(Assign(h, id, p)) == Picture(Targets(h.handles)[id := p], HandleOwners(h.handles))
  {
    AssignChanges(h, id, p);
    OnePut(h.handles, id, h.handles[id].(target := p));
  }

  lemma {:induction false} SwapDraws(h: Heap, id: HandleId, r: HandleId)
    requires id in h.handles && r in h.handles
    ensures var t := Targets(h.handles);
            PictureOf(Swap(h, id, r)) == Picture(t[id := t[r]][r := t[id]], HandleOwners(h.handles))
  {
    var v, w := h.handles[id].(target := h.handles[r].target), h.handles[r].(target := h.handles[id].target);
    OnePut(h.handles, id, v);
    OnePut(h.handles[id := v], r, w);
  }

  lemma {:induction false} DestroyDraws(h: Heap, id: HandleId)
    requires id in h.handles
    ensures PictureOf(Destroy(h, id)) == Picture(Targets(h.handles) - {id}, HandleOwners(h.handles) - {id})
  {
    OneGone(h.handles, id);
  }

  lemma {:induction false} StepDraws(h: Heap, a: Action)
    requires Inv(h) && Enabled(h, a)
    ensures Names(PictureOf(h), a) && PictureOf(Apply(h, a)) == Drawn(PictureOf(h), a)
  {
    match a
    case FromPointer(id, owner, p) => ConstructDraws(h, id, owner, p);
    case FromHandle(id, owner, r) => ConstructDraws(h, id, owner, h.handles[r].target);
    case AssignPointer(id, p) => AssignDraws(h, id, p);
    case AssignHandle(id, r) => AssignDraws(h, id, h.handles[r].target);
    case SwapHandles(id, r) => SwapDraws(h, id, r);
    case LeaveScope(id) => DestroyDraws(h, id);
    case DestroyMember(id) => DestroyDraws(h, id);
    case _ =>
  }

  ghost predicate Drawable(p: Picture, acts: seq<Action>)
    decreases |acts|
  {
    acts == [] || (Names(p, acts[0]) && Drawable(Drawn(p, acts[0]), acts[1..]))
  }

  ghost function DrawnAll(p: Picture, acts: seq<Action>): Picture
    requires Drawable(p, acts)
    decreases |acts|
  {
    if acts == [] then p else DrawnAll(Drawn(p, acts[0]), acts[1..])
  }

  /** After every run each handle points where the constructors, assignments and swaps of the run put it. */
  lemma {:induction false} HandlesPointWhereTold(h: Heap, acts: seq<Action>)
    requires Inv(h) && IsRun(h, acts)
    ensures Drawable(PictureOf(h), acts) && PictureOf(Final(h, acts)) == DrawnAll(PictureOf(h), acts)
    decreases |acts|
  {
    if acts != [] {
      StepDraws(h, acts[0]);
      StepKeepsInv(h, acts[0]);
      HandlesPointWhereTold(Apply(h, acts[0]), acts[1..]);
    }
  }

  lemma {:induction false} ObjectsThere(h: Heap, a: Action, o: ObjId)
    requires Inv(h) && Enabled(h, a)
    ensures o in Apply(h, a).objs <==> a == New(o) || (o in h.objs && !(a.Free? && h.deleting[|h.deleting| - 1].obj == o))
    ensures a == New(o) ==> Apply(h, a).objs[o] == Object(0, false)
  {
    match a
    case AssignPointer(id, p) => AssignObjects(h, id, p);
    case AssignHandle(id, r) => HeldIsUsable(h, r); AssignObjects(h, id, h.handles[r].target);
    case LeaveScope(id) => DestroyObjects(h, id);
    case DestroyMember(id) => DestroyObjects(h, id);
    case _ =>
  }

  lemma {:induction false} AssignObjects(h: Heap, id: HandleId, p: Option<ObjId>)
    requires Inv(h) && id in h.handles && Usable(h, p)
    ensures Assign(h, id, p).objs.Keys == h.objs.Keys && Assign(h, id, p).freed == h.freed
    ensures forall o <- h.objs | Dying(h, o) :: Assign(h, id, p).objs[o].noDelete
  {
    TargetIsCounted(h, id);
    forall o | Dying(h, o)
      ensures o in h.objs && h.objs[o].noDelete
    {
      DyingIsGuarded(h, o);
    }
  }

  lemma {:induction false} DestroyObjects(h: Heap, id: HandleId)
    requires Inv(h) && id in h.handles
    ensures Destroy(h, id).objs.Keys == h.objs.Keys && Destroy(h, id).freed == h.freed
    ensures forall o <- h.objs | Dying(h, o) :: Destroy(h, id).objs[o].noDelete
  {
    TargetIsCounted(h, id);
    forall o | Dying(h, o)
      ensures o in h.objs && h.objs[o].noDelete
    {
      DyingIsGuarded(h, o);
    }
  }

  lemma {:induction false} FreedAfter(h: Heap, a: Action, o: ObjId)
    requires Inv(h) && Enabled(h, a)
    ensures o in Apply(h, a).freed <==> o in h.freed || (o in h.objs && o !in Apply(h, a).objs)
  {
    ObjectsThere(h, a, o);
    match a
    case AssignPointer(id, p) => AssignObjects(h, id, p);
    case AssignHandle(id, r) => HeldIsUsable(h, r); AssignObjects(h, id, h.handles[r].target);
    case LeaveScope(id) => DestroyObjects(h, id);
    case DestroyMember(id) => DestroyObjects(h, id);
    case Free =>
      var top := h.deleting[|h.deleting| - 1];
      assert Guarded(h, top);
      assert o in h.freed + [top.obj] <==> o in h.freed || o == top.obj;
    case _ =>
  }

  /** What a step may do to the call stack of deletions: one more is begun, the innermost body ends, or it is over. */
  ghost predicate Stacked(h: Heap, h': Heap, o: ObjId)
    requires o in h.objs && o in h'.objs
  {
    var n := |h.deleting|;
    if |h'.deleting| == n then h'.deleting == h.deleting && h'.objs[o].noDelete == h.objs[o].noDelete
    else
      && |h'.deleting| == n + 1 && h'.deleting[..n] == h.deleting && h'.deleting[n].Running?
      && h'.objs[o].noDelete == (h.objs[o].noDelete || h'.deleting[n].obj == o)
  }

  lemma {:induction false} DecRefStack(h: Heap, p: Option<ObjId>, o: ObjId)
    requires o in h.objs
    ensures var h' := DecRef(h, p);
            o in h'.objs && Stacked(h, h', o)
  {
  }

  lemma {:induction false} IncRefStack(h: Heap, p: Option<ObjId>, o: ObjId)
    requires o in h.objs
    ensures var h' := IncRef(h, p); o in h'.objs && h'.deleting == h.deleting && h'.objs[o].noDelete == h.objs[o].noDelete
  {
  }

  lemma {:induction false} AssignStacks(h: Heap, id: HandleId, p: Option<ObjId>, o: ObjId)
    requires id in h.handles && o in h.objs
    ensures var h' := Assign(h, id, p); o in h'.objs && Stacked(h, h', o)
  {
    if h.handles[id].target != p {
      var m := IncRef(h, p).(handles := h.handles[id := h.handles[id].(target := p)]);
      IncRefStack(h, p, o);
      DecRefStack(m, h.handles[id].target, o);
    }
  }

  lemma {:induction false} DestroyStacks(h: Heap, id: HandleId, o: ObjId)
    requires id in h.handles && o in h.objs
    ensures var h' := Destroy(h, id); o in h'.objs && Stacked(h, h', o)
  {
    DecRefStack(h.(handles := h.handles - {id}), h.handles[id].target, o);
  }

  /**
   _noDelete is what its client set it to, until the deletion of the object begins. An assignment or a destructor begins
   at most one deletion, the innermost body returns when BodyEnds says so, and Free ends the innermost deletion.
   */
  lemma {:induction false} StackAfter(h: Heap, a: Action, o: ObjId)
    requires Inv(h) && Enabled(h, a) && o in h.objs && o in Apply(h, a).objs
    ensures var h', top := Apply(h, a), |h.deleting| - 1;
            match a
            case SetNoDelete(x, b) => h'.deleting == h.deleting && h'.objs[o].noDelete == if x == o then b else h.objs[o].noDelete
            case BodyEnds => h'.deleting == h.deleting[..top] + [Unwinding(h.deleting[top].obj)] && h'.objs[o] == h.objs[o]
            case Free => h'.deleting == h.deleting[..top] && h'.objs[o] == h.objs[o]
            case _ => Stacked(h, h', o)
  {
    match a
    case FromPointer(id, owner, p) => IncRefStack(h, p, o);
    case FromHandle(id, owner, r) => IncRefStack(h, h.handles[r].target, o);
    case AssignPointer(id, p) => AssignStacks(h, id, p, o);
    case AssignHandle(id, r) => AssignStacks(h, id, h.handles[r].target, o);
    case LeaveScope(id) => DestroyStacks(h, id, o);
    case DestroyMember(id) => DestroyStacks(h, id, o);
    case _ =>
  }
}

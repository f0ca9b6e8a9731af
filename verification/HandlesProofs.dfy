/**
 What each handle operation and each step of a deletion does to the counts: increments and decrements in mid-change,
 guarded deletions, and the invariant that every run of them keeps.
 */
module HandlesProofs {
  import opened Prelude
  import opened Handles

  // --------------------------------------------------------------- counting holders

  lemma {:induction false} HoldersRemove(handles: map<HandleId, Handle>, id: HandleId, o: ObjId)
    requires id in handles
    ensures |Holders(handles - {id}, o)| == |Holders(handles, o)| - Is(handles[id].target, o)
  {
    if handles[id].target == Some(o) {
      assert Holders(handles - {id}, o) == Holders(handles, o) - {id};
    } else {
      assert Holders(handles - {id}, o) == Holders(handles, o);
    }
  }

  lemma {:induction false} HoldersAdd(handles: map<HandleId, Handle>, id: HandleId, v: Handle, o: ObjId)
    requires id !in handles
    ensures |Holders(handles[id := v], o)| == |Holders(handles, o)| + Is(v.target, o)
  {
    if v.target == Some(o) {
      assert Holders(handles[id := v], o) == Holders(handles, o) + {id};
    } else {
      assert Holders(handles[id := v], o) == Holders(handles, o);
    }
  }

  lemma {:induction false} HoldersUpdate(handles: map<HandleId, Handle>, id: HandleId, v: Handle, o: ObjId)
    requires id in handles
    ensures |Holders(handles[id := v], o)| == |Holders(handles, o)| - Is(handles[id].target, o) + Is(v.target, o)
  {
    HoldersRemove(handles, id, o);
    HoldersAdd(handles - {id}, id, v, o);
    assert handles[id := v] == (handles - {id})[id := v];
  }

  /** A set of holders is empty exactly when no handle points there. */
  lemma {:induction false} NoHolders(handles: map<HandleId, Handle>, o: ObjId)
    ensures |Holders(handles, o)| == 0 <==> forall id <- handles :: handles[id].target != Some(o)
  {
    if |Holders(handles, o)| == 0 {
      assert Holders(handles, o) == {};
      forall id | id in handles
        ensures handles[id].target != Some(o)
      {
        assert id !in Holders(handles, o);
      }
    }
  }

  // --------------------------------------------------------------- the primitives

  /** The invariant with one reference counted too many. */
  ghost predicate Mid(h: Heap, extra: Option<ObjId>) {
    && !h.fault && CountsWith(h, extra) && NothingDangles(h) && StackSound(h) && FreedOnce(h)
    && (extra.Some? ==> extra.value in h.objs)
  }

  lemma {:induction false} IncRefMid(h: Heap, p: Option<ObjId>)
    requires Inv(h) && (p.Some? ==> p.value in h.objs)
    ensures Mid(IncRef(h, p), p)
  {
    var h' := IncRef(h, p);
    assert forall i | 0 <= i < |h.deleting| :: Guarded(h, h.deleting[i]) ==> Guarded(h', h.deleting[i]);
  }

  lemma {:induction false} DecRefMid(h: Heap, p: Option<ObjId>)
    requires Mid(h, p)
    ensures Inv(DecRef(h, p))
  {
    var h' := DecRef(h, p);
    if p.Some? {
      assert h.objs[p.value].ref == |Holders(h.handles, p.value)| + 1;
      assert forall i | 0 <= i < |h.deleting| :: Guarded(h, h.deleting[i]) ==> Guarded(h', h.deleting[i]);
    }
  }

  ghost predicate UnwindingFree(h: Heap, p: Option<ObjId>) {
    p.Some? ==> Unwinding(p.value) !in h.deleting
  }

  lemma {:induction false} AddMid(h: Heap, id: HandleId, owner: Option<ObjId>, p: Option<ObjId>)
    requires Mid(h, p) && id !in h.handles && UnwindingFree(h, p)
    requires owner.Some? ==> owner.value in h.objs
    ensures Inv(h.(handles := h.handles[id := Handle(owner, p)]))
  {
    var h' := h.(handles := h.handles[id := Handle(owner, p)]);
    forall o | o in h.objs
      ensures h'.objs[o].ref == |Holders(h'.handles, o)|
    {
      HoldersAdd(h.handles, id, Handle(owner, p), o);
    }
    GuardsKept(h, h', p);
  }

  /** Guards stand when no handle is newly pointed to an unwinding object. */
  lemma {:induction false} GuardsKept(h: Heap, h': Heap, p: Option<ObjId>)
    requires StackSound(h) && h'.deleting == h.deleting && h'.objs == h.objs && UnwindingFree(h, p)
    requires forall id <- h'.handles ::
               h'.handles[id].target == p || exists id0 <- h.handles :: h.handles[id0].target == h'.handles[id].target
    ensures StackSound(h')
  {
    forall i | 0 <= i < |h.deleting|
      ensures Guarded(h', h.deleting[i])
    {
      assert Guarded(h, h.deleting[i]);
    }
  }

  lemma {:induction false} RetargetMid(h: Heap, id: HandleId, p: Option<ObjId>)
    requires Mid(h, p) && id in h.handles && UnwindingFree(h, p)
    ensures Mid(h.(handles := h.handles[id := h.handles[id].(target := p)]), h.handles[id].target)
  {
    var v := h.handles[id].(target := p);
    var h' := h.(handles := h.handles[id := v]);
    forall o | o in h.objs
      ensures h'.objs[o].ref == |Holders(h'.handles, o)| + Is(h.handles[id].target, o)
    {
      HoldersUpdate(h.handles, id, v, o);
    }
    GuardsKept(h, h', p);
  }

  lemma {:induction false} RemoveMid(h: Heap, id: HandleId)
    requires Inv(h) && id in h.handles
    ensures Mid(h.(handles := h.handles - {id}), h.handles[id].target)
  {
    var h' := h.(handles := h.handles - {id});
    forall o | o in h.objs
      ensures h'.objs[o].ref == |Holders(h'.handles, o)| + Is(h.handles[id].target, o)
    {
      HoldersRemove(h.handles, id, o);
    }
    GuardsKept(h, h', None);
  }

  // --------------------------------------------------------------- the operations

  lemma {:induction false} HeldIsUsable(h: Heap, r: HandleId)
    requires Inv(h) && r in h.handles
    ensures Usable(h, h.handles[r].target)
  {
  }

  lemma {:induction false} ConstructKeeps(h: Heap, id: HandleId, owner: Option<ObjId>, p: Option<ObjId>)
    requires Inv(h) && id !in h.handles && Usable(h, p) && Usable(h, owner)
    ensures Inv(Construct(h, id, owner, p))
  {
    IncRefMid(h, p);
    AddMid(IncRef(h, p), id, owner, p);
  }

  lemma {:induction false} AssignKeeps(h: Heap, id: HandleId, p: Option<ObjId>)
    requires Inv(h) && id in h.handles && Usable(h, p)
    ensures Inv(Assign(h, id, p))
  {
    if h.handles[id].target != p {
      IncRefMid(h, p);
      RetargetMid(IncRef(h, p), id, p);
      DecRefMid(IncRef(h, p).(handles := h.handles[id := h.handles[id].(target := p)]), h.handles[id].target);
    }
  }

  lemma {:induction false} SwapKeeps(h: Heap, id: HandleId, r: HandleId)
    requires Inv(h) && id in h.handles && r in h.handles
    ensures Inv(Swap(h, id, r))
  {
    var p, q := h.handles[id].target, h.handles[r].target;
    var v, w := h.handles[id].(target := q), h.handles[r].(target := p);
    var h' := Swap(h, id, r);
    forall o | o in h.objs
      ensures h'.objs[o].ref == |Holders(h'.handles, o)|
    {
      HoldersUpdate(h.handles, id, v, o);
      HoldersUpdate(h.handles[id := v], r, w, o);
    }
    GuardsKept(h, h', None);
  }

  lemma {:induction false} DestroyKeeps(h: Heap, id: HandleId)
    requires Inv(h) && id in h.handles
    ensures Inv(Destroy(h, id))
  {
    RemoveMid(h, id);
    DecRefMid(h.(handles := h.handles - {id}), h.handles[id].target);
  }

  lemma {:induction false} BodyEndsKeeps(h: Heap)
    requires Inv(h) && Enabled(h, BodyEnds)
    ensures Inv(Apply(h, BodyEnds))
  {
    var h', top := Apply(h, BodyEnds), |h.deleting| - 1;
    forall i | 0 <= i < |h'.deleting|
      ensures Guarded(h', h'.deleting[i])
    {
      assert Guarded(h, h.deleting[i]);
    }
  }

  lemma {:induction false} FreeKeeps(h: Heap)
    requires Inv(h) && Enabled(h, Free)
    ensures Inv(Apply(h, Free))
  {
    var h', top := Apply(h, Free), |h.deleting| - 1;
    var o := h.deleting[top].obj;
    assert Guarded(h, h.deleting[top]);
    forall id | id in h.handles
      ensures h.handles[id].owner != Some(o) && h.handles[id].target != Some(o)
    {
      assert !Owns(h, o, id);
    }
    forall i | 0 <= i < |h'.deleting|
      ensures Guarded(h', h'.deleting[i])
    {
      assert Guarded(h, h.deleting[i]);
    }
  }

  lemma {:induction false} NewKeeps(h: Heap, o: ObjId)
    requires Inv(h) && Enabled(h, New(o))
    ensures Inv(Apply(h, New(o)))
  {
    var h' := Apply(h, New(o));
    NoHolders(h.handles, o);
    assert forall i | 0 <= i < |h.deleting| :: Guarded(h, h.deleting[i]) ==> Guarded(h', h.deleting[i]);
  }

  lemma {:induction false} SetNoDeleteKeeps(h: Heap, o: ObjId, b: bool)
    requires Inv(h) && Enabled(h, SetNoDelete(o, b))
    ensures Inv(Apply(h, SetNoDelete(o, b)))
  {
    var h' := Apply(h, SetNoDelete(o, b));
    forall i | 0 <= i < |h.deleting|
      ensures Guarded(h', h.deleting[i])
    {
      assert Guarded(h, h.deleting[i]);
      assert h.deleting[i] == Running(h.deleting[i].obj) || h.deleting[i] == Unwinding(h.deleting[i].obj);
    }
  }

  lemma {:induction false} StepKeepsInv(h: Heap, a: Action)
    requires Inv(h) && Enabled(h, a)
    ensures Inv(Apply(h, a))
  {
    match a
    case New(o) => NewKeeps(h, o);
    case SetNoDelete(o, b) => SetNoDeleteKeeps(h, o, b);
    case FromPointer(id, owner, p) => ConstructKeeps(h, id, owner, p);
    case FromHandle(id, owner, r) => HeldIsUsable(h, r); ConstructKeeps(h, id, owner, h.handles[r].target);
    case AssignPointer(id, p) => AssignKeeps(h, id, p);
    case AssignHandle(id, r) => HeldIsUsable(h, r); AssignKeeps(h, id, h.handles[r].target);
    case SwapHandles(id, r) => SwapKeeps(h, id, r);
    case LeaveScope(id) => DestroyKeeps(h, id);
    case BodyEnds => BodyEndsKeeps(h);
    case DestroyMember(id) => DestroyKeeps(h, id);
    case Free => FreeKeeps(h);
  }

  lemma {:induction false} RunKeepsInv(h: Heap, acts: seq<Action>)
    requires Inv(h) && IsRun(h, acts)
    ensures Inv(Final(h, acts))
    decreases |acts|
  {
    if acts != [] {
      StepKeepsInv(h, acts[0]);
      RunKeepsInv(Apply(h, acts[0]), acts[1..]);
    }
  }
}

/**
 Intrusive reference counts: handles, the objects they point to, and the deletions they cascade into.

 Objects and handles live under ids that are never reused. A handle is a variable or the member of an object.
 Deleting an object first runs its destructor body, in which its client may use handles freely, then destroys its
 member handles in some order, then frees its memory. Touching a freed object, or a failed assertion, raises `fault`.
 */
module Handles {
  import opened Prelude

  type ObjId = nat
  type HandleId = nat

  datatype Object = Object(ref: int, noDelete: bool)
  datatype Handle = Handle(owner: Option<ObjId>, target: Option<ObjId>)

  /** A deletion under way: in the destructor's body, or past it and destroying the members. */
  datatype Frame = Running(obj: ObjId) | Unwinding(obj: ObjId)

  datatype Heap = Heap(
    objs: map<ObjId, Object>,
    handles: map<HandleId, Handle>,
    deleting: seq<Frame>,          // the deletions on the call stack, innermost last
    freed: seq<ObjId>,
    fault: bool)

  // --------------------------------------------------------------- the counts

  /** __incRef() through a pointer that may be null. */
  function IncRef(h: Heap, p: Option<ObjId>): Heap {
    match p
    case None => h
    case Some(o) =>
      if o !in h.objs || h.objs[o].ref < 0 then h.(fault := true)
      else h.(objs := h.objs[o := h.objs[o].(ref := h.objs[o].ref + 1)])
  }

  /** __decRef() through a pointer that may be null: the last one sets _noDelete and starts `delete this`. */
  function DecRef(h: Heap, p: Option<ObjId>): Heap {
    match p
    case None => h
    case Some(o) =>
      if o !in h.objs || h.objs[o].ref <= 0 then h.(fault := true)
      else
        var ref := h.objs[o].ref - 1;
        if ref == 0 && !h.objs[o].noDelete then
          h.(objs := h.objs[o := Object(ref, true)], deleting := h.deleting + [Running(o)])
        else
          h.(objs := h.objs[o := h.objs[o].(ref := ref)])
  }

  // --------------------------------------------------------------- the handles

  function Construct(h: Heap, id: HandleId, owner: Option<ObjId>, p: Option<ObjId>): Heap {
    var h' := IncRef(h, p);
    h'.(handles := h'.handles[id := Handle(owner, p)])
  }

  /** operator=: a no-op on the same pointer; otherwise the new target is counted before the old one is let go. */
  function Assign(h: Heap, id: HandleId, p: Option<ObjId>): Heap
    requires id in h.handles
  {
    var was := h.handles[id].target;
    if was == p then h
    else
      var h' := IncRef(h, p);
      DecRef(h'.(handles := h'.handles[id := h.handles[id].(target := p)]), was)
  }

  function Swap(h: Heap, id: HandleId, other: HandleId): Heap
    requires id in h.handles && other in h.handles
  {
    var p, q := h.handles[id].target, h.handles[other].target;
    h.(handles := h.handles[id := h.handles[id].(target := q)][other := h.handles[other].(target := p)])
  }

  /** ~Handle() */
  function Destroy(h: Heap, id: HandleId): Heap
    requires id in h.handles
  {
    DecRef(h.(handles := h.handles - {id}), h.handles[id].target)
  }

  // --------------------------------------------------------------- steps

  datatype Action =
    | New(obj: ObjId)                                             // the object's constructor: counted zero times
    | SetNoDelete(obj: ObjId, b: bool)
    | FromPointer(id: HandleId, owner: Option<ObjId>, p: Option<ObjId>)
    | FromHandle(id: HandleId, owner: Option<ObjId>, r: HandleId)
    | AssignPointer(id: HandleId, p: Option<ObjId>)
    | AssignHandle(id: HandleId, r: HandleId)
    | SwapHandles(id: HandleId, r: HandleId)
    | LeaveScope(id: HandleId)                                    // a variable's destructor
    | BodyEnds                                                    // the innermost destructor body returns
    | DestroyMember(id: HandleId)
    | Free                                                        // its members are gone: the memory is released

  /** Steps that a deletion takes by itself. */
  predicate Internal(a: Action) {
    a.BodyEnds? || a.DestroyMember? || a.Free?
  }

  /** A pointer that a client may use: null, or an object that is not past its destructor's body. */
  predicate Usable(h: Heap, p: Option<ObjId>) {
    p.Some? ==> p.value in h.objs && Unwinding(p.value) !in h.deleting
  }

  /** Where a client's code runs: outside all deletions, or in the innermost destructor's body. */
  predicate ClientRuns(h: Heap) {
    h.deleting == [] || h.deleting[|h.deleting| - 1].Running?
  }

  predicate Dying(h: Heap, o: ObjId) {
    Running(o) in h.deleting || Unwinding(o) in h.deleting
  }

  predicate Owns(h: Heap, o: ObjId, id: HandleId) {
    id in h.handles && h.handles[id].owner == Some(o)
  }

  /** What a client owes: fresh ids, usable pointers, and no handle to an object that outlives its destructor's body. */
  predicate Enabled(h: Heap, a: Action) {
    var top := |h.deleting| - 1;
    match a
    case New(o) => ClientRuns(h) && o !in h.objs && o !in h.freed
    case SetNoDelete(o, _) => ClientRuns(h) && o in h.objs && !Dying(h, o)
    case FromPointer(id, owner, p) => ClientRuns(h) && id !in h.handles && Usable(h, owner) && Usable(h, p)
    case FromHandle(id, owner, r) => ClientRuns(h) && id !in h.handles && Usable(h, owner) && r in h.handles
    case AssignPointer(id, p) => ClientRuns(h) && id in h.handles && Usable(h, p)
    case AssignHandle(id, r) => ClientRuns(h) && id in h.handles && r in h.handles
    case SwapHandles(id, r) => ClientRuns(h) && id in h.handles && r in h.handles
    case LeaveScope(id) => ClientRuns(h) && id in h.handles && h.handles[id].owner == None
    case BodyEnds =>
      top >= 0 && h.deleting[top].Running? &&
      forall id <- h.handles :: h.handles[id].target != Some(h.deleting[top].obj)
    case DestroyMember(id) => top >= 0 && h.deleting[top].Unwinding? && Owns(h, h.deleting[top].obj, id)
    case Free => top >= 0 && h.deleting[top].Unwinding? && forall id <- h.handles :: !Owns(h, h.deleting[top].obj, id)
  }

  function Apply(h: Heap, a: Action): Heap
    requires Enabled(h, a)
  {
    var top := |h.deleting| - 1;
    match a
    case New(o) => h.(objs := h.objs[o := Object(0, false)])
    case SetNoDelete(o, b) => h.(objs := h.objs[o := h.objs[o].(noDelete := b)])
    case FromPointer(id, owner, p) => Construct(h, id, owner, p)
    case FromHandle(id, owner, r) => Construct(h, id, owner, h.handles[r].target)
    case AssignPointer(id, p) => Assign(h, id, p)
    case AssignHandle(id, r) => Assign(h, id, h.handles[r].target)
    case SwapHandles(id, r) => Swap(h, id, r)
    case LeaveScope(id) => Destroy(h, id)
    case BodyEnds => h.(deleting := h.deleting[..top] + [Unwinding(h.deleting[top].obj)])
    case DestroyMember(id) => Destroy(h, id)
    case Free =>
      h.(objs := h.objs - {h.deleting[top].obj},
         deleting := h.deleting[..top],
         freed := h.freed + [h.deleting[top].obj])
  }

  const EmptyHeap := Heap(map[], map[], [], [], false)

  ghost predicate IsRun(h: Heap, acts: seq<Action>)
    decreases |acts|
  {
    acts == [] || (Enabled(h, acts[0]) && IsRun(Apply(h, acts[0]), acts[1..]))
  }

  ghost function Final(h: Heap, acts: seq<Action>): Heap
    requires IsRun(h, acts)
    decreases |acts|
  {
    if acts == [] then h else Final(Apply(h, acts[0]), acts[1..])
  }

  // --------------------------------------------------------------- the invariant

  /** The live handles that point to an object. */
  function Holders(handles: map<HandleId, Handle>, o: ObjId): set<HandleId> {
    set id | id in handles && handles[id].target == Some(o)
  }

  function Is(p: Option<ObjId>, o: ObjId): int {
    if p == Some(o) then 1 else 0
  }

  /** Every count is the number of live handles to its object; one more for a reference in mid-change. */
  ghost predicate CountsWith(h: Heap, extra: Option<ObjId>) {
    forall o <- h.objs :: h.objs[o].ref == |Holders(h.handles, o)| + Is(extra, o)
  }

  ghost predicate CountsExact(h: Heap) {
    CountsWith(h, None)
  }

  /** Every live handle and its owner are in place: nothing dangles. */
  ghost predicate NothingDangles(h: Heap) {
    forall id <- h.handles ::
      && (h.handles[id].target.Some? ==> h.handles[id].target.value in h.objs)
      && (h.handles[id].owner.Some? ==> h.handles[id].owner.value in h.objs)
  }

  /** The deletions under way are of different live objects, guarded by _noDelete; past the body nothing points there. */
  ghost predicate StackSound(h: Heap) {
    && (forall i | 0 <= i < |h.deleting| :: Guarded(h, h.deleting[i]))
    && (forall i, j | 0 <= i < j < |h.deleting| :: h.deleting[i].obj != h.deleting[j].obj)
  }

  ghost predicate Guarded(h: Heap, f: Frame) {
    && f.obj in h.objs && h.objs[f.obj].noDelete
    && (f.Unwinding? ==> forall id <- h.handles :: h.handles[id].target != Some(f.obj))
  }

  ghost predicate FreedOnce(h: Heap) {
    && (forall i, j | 0 <= i < j < |h.freed| :: h.freed[i] != h.freed[j])
    && (forall o <- h.freed :: o !in h.objs)
  }

  ghost predicate Inv(h: Heap) {
    !h.fault && CountsExact(h) && NothingDangles(h) && StackSound(h) && FreedOnce(h)
  }
}

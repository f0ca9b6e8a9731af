/**
 The handle operations as the methods that update counts and pointers in place. What the destructor bodies of deleted
 objects do is a script that the store carries: each body takes steps from its front up to the next return.
 */
module HandlesClass {
  import opened Prelude
  import H = Handles
  import opened HandlesProofs
  import opened HandlesTheorems

  /** A statement of a destructor body: a client's step, or the return. */
  datatype Statement = Do(step: H.Action) | Return

  lemma {:induction false} Extended(log: seq<H.Action>, a: H.Action)
    requires H.IsRun(H.EmptyHeap, log) && H.Enabled(H.Final(H.EmptyHeap, log), a)
    ensures H.IsRun(H.EmptyHeap, log + [a])
    ensures H.Final(H.EmptyHeap, log + [a]) == H.Apply(H.Final(H.EmptyHeap, log), a)
  {
    ExtendedFrom(H.EmptyHeap, log, a);
  }

  lemma {:induction false} ExtendedFrom(h: H.Heap, log: seq<H.Action>, a: H.Action)
    requires H.IsRun(h, log) && H.Enabled(H.Final(h, log), a)
    ensures H.IsRun(h, log + [a]) && H.Final(h, log + [a]) == H.Apply(H.Final(h, log), a)
    decreases |log|
  {
    if log == [] {
      assert log + [a] == [a] && [a][1..] == [];
    } else {
      ExtendedFrom(H.Apply(h, log[0]), log[1..], a);
      assert (log + [a])[1..] == log[1..] + [a];
    }
  }

  /** More happened: deletions' own steps, and client steps that the script listed; the script only got shorter. */
  ghost predicate Onward(log: seq<H.Action>, script: seq<Statement>, log': seq<H.Action>, script': seq<Statement>) {
    && log <= log' && |script'| <= |script|
    && (forall i | |log| <= i < |log'| :: H.Internal(log'[i]) || Do(log'[i]) in script)
    && (forall s <- script' :: s in script)
  }

  lemma {:induction false} OnwardTwice(l0: seq<H.Action>, s0: seq<Statement>, l1: seq<H.Action>, s1: seq<Statement>,
    l2: seq<H.Action>, s2: seq<Statement>)
    requires Onward(l0, s0, l1, s1) && Onward(l1, s1, l2, s2)
    ensures Onward(l0, s0, l2, s2)
  {
    forall i | |l0| <= i < |l2|
      ensures H.Internal(l2[i]) || Do(l2[i]) in s0
    {
      if i < |l1| {
        assert l2[i] == l1[i];
      }
    }
  }

  lemma {:induction false} OneOn(l0: seq<H.Action>, s0: seq<Statement>, l1: seq<H.Action>, s1: seq<Statement>, a: H.Action)
    requires Onward(l0, s0, l1, s1) && (H.Internal(a) || Do(a) in s0)
    ensures Onward(l0, s0, l1 + [a], s1)
  {
    assert l0 <= l1 + [a];
    assert forall i | |l0| <= i < |l1| :: (l1 + [a])[i] == l1[i];
  }

  lemma {:induction false} DeletionOnward(l0: seq<H.Action>, s0: seq<Statement>, l1: seq<H.Action>, s1: seq<Statement>,
    l2: seq<H.Action>, s2: seq<Statement>)
    requires Onward(l0, s0, l1, s1) && Onward(l1 + [H.BodyEnds], s1, l2, s2)
    ensures Onward(l0, s0, l2, s2) && Onward(l0, s0, l2 + [H.Free], s2)
  {
    OneOn(l0, s0, l1, s1, H.BodyEnds);
    OnwardTwice(l0, s0, l1 + [H.BodyEnds], s1, l2, s2);
    OneOn(l0, s0, l2, s2, H.Free);
  }

  lemma {:induction false} Performed(l0: seq<H.Action>, s0: seq<Statement>, l1: seq<H.Action>, s1: seq<Statement>,
    a: H.Action, l2: seq<H.Action>, s2: seq<Statement>)
    requires Onward(l0, s0, l1, s1) && s1 != [] && s1[0] == Do(a) && Onward(l1 + [a], s1[1..], l2, s2)
    ensures Onward(l0, s0, l2, s2)
  {
    OneOn(l0, s0, l1, s1, a);
    OnwardTwice(l0, s0, l1 + [a], s1[1..], l2, s2);
  }

  lemma {:induction false} RunningIsThere(h: H.Heap)
    requires H.Inv(h) && h.deleting != []
    ensures h.deleting[|h.deleting| - 1].obj in h.objs
  {
    assert H.Guarded(h, h.deleting[|h.deleting| - 1]);
  }

  /** A destructor body has returned while a handle to its object is left: its client broke the rule. */
  ghost predicate Stuck(h: H.Heap) {
    h.deleting != [] && h.deleting[|h.deleting| - 1].Running? && Held(h, h.deleting[|h.deleting| - 1].obj)
  }

  class Store {
    var objs: map<H.ObjId, H.Object>
    var handles: map<H.HandleId, H.Handle>
    var script: seq<Statement>
    var deleting: seq<H.Frame>           // the call stack, as far as it is deletions
    var freed: seq<H.ObjId>
    ghost var log: seq<H.Action>         // everything that happened

    function Now(): H.Heap
      reads this
    {
      H.Heap(objs, handles, deleting, freed, false)
    }

    /** The state is the one that the steps taken so far lead to. */
    ghost predicate Valid()
      reads this
    {
      H.IsRun(H.EmptyHeap, log) && H.Final(H.EmptyHeap, log) == Now()
    }

    ghost function Work(): nat
      reads this
    {
      4 * |script| + Potential(Now())
    }

    constructor (script: seq<Statement>)
      ensures Valid() && log == [] && Now() == H.EmptyHeap && this.script == script
    {
      objs, handles, deleting, freed := map[], map[], [], [];
      this.script := script;
      log := [];
    }

    lemma {:induction false} ValidIsSound()
      requires Valid()
      ensures H.Inv(Now())
    {
      RunKeepsInv(H.EmptyHeap, log);
    }

    method IncRef(o: H.ObjId)
      requires o in objs && objs[o].ref >= 0
      modifies this`objs
      ensures Now() == H.IncRef(old(Now()), Some(o))
    {
      objs := objs[o := objs[o].(ref := objs[o].ref + 1)];
    }

    /** The count, and whether it was the last reference to an object that may go. */
    method CountDown(o: H.ObjId) returns (last: bool)
      requires o in objs && objs[o].ref > 0
      modifies this`objs, this`deleting
      ensures Now() == H.DecRef(old(Now()), Some(o))
      ensures deleting == if last then old(deleting) + [H.Running(o)] else old(deleting)
      ensures last ==> o in objs && objs[o].ref == 0
    {
      objs := objs[o := objs[o].(ref := objs[o].ref - 1)];
      last := false;
      if objs[o].ref == 0 {
        if !objs[o].noDelete {
          objs := objs[o := objs[o].(noDelete := true)];
          deleting := deleting + [H.Running(o)];
          last := true;
        }
      }
    }

    /** __decRef(), the last thing the step `a` does, with whatever it deletes. */
    method DecRef(o: H.ObjId, ghost a: H.Action) returns (ok: bool)
      requires H.IsRun(H.EmptyHeap, log) && H.Enabled(H.Final(H.EmptyHeap, log), a) && Mid(Now(), Some(o))
      requires H.Apply(H.Final(H.EmptyHeap, log), a) == H.DecRef(Now(), Some(o))
      modifies this
      ensures Valid() && Onward(old(log) + [a], old(script), log, script) && Work() <= old(Work())
      ensures if ok then deleting == old(deleting) else Stuck(Now())
      decreases Work(), 3
    {
      DecRefPotential(Now(), Some(o));
      Extended(log, a);
      var last := CountDown(o);
      log := log + [a];
      ok := true;
      if last {
        ValidIsSound();
        HeldIffCounted(Now(), o);
        ok := DeleteThis(o);
      }
    }

    /** `delete this`: the destructor's body, then the members one by one, then the memory. */
    method DeleteThis(o: H.ObjId) returns (ok: bool)
      requires Valid() && deleting != [] && deleting[|deleting| - 1] == H.Running(o)
      modifies this
      ensures Valid() && Onward(old(log), old(script), log, script) && Work() <= old(Work())
      ensures if ok then deleting == old(deleting[..|deleting| - 1]) && o !in objs else Stuck(Now())
      decreases Work(), 2
    {
      ok := RunBody(o);
      if !ok {
        return;
      }
      label Ran:
      BodyReturns(o);
      ok := DestroyMembers(o);
      DeletionOnward(old(log), old(script), old@Ran(log), old@Ran(script), log, script);
      if !ok {
        return;
      }
      Release(o);
    }

    /** The destructor's body: it runs what its client may run of the script, up to the next return. */
    method RunBody(o: H.ObjId) returns (ok: bool)
      requires Valid() && deleting != [] && deleting[|deleting| - 1] == H.Running(o)
      modifies this
      ensures Valid() && Onward(old(log), old(script), log, script) && Work() <= old(Work())
      ensures if ok then deleting == old(deleting) && !Held(Now(), o) else Stuck(Now())
      decreases Work(), 1
    {
      while script != [] && script[0].Do?
        invariant Valid() && deleting == old(deleting)
        invariant Onward(old(log), old(script), log, script) && Work() <= old(Work())
        decreases |script|
      {
        label Before:
        var a := script[0].step;
        script := script[1..];
        if !H.Internal(a) && H.Enabled(Now(), a) {
          ok := Perform(a);
          Performed(old(log), old(script), old@Before(log), old@Before(script), a, log, script);
          if !ok {
            return;
          }
        }
      }
      if script != [] {
        script := script[1..];
      }
      ValidIsSound();
      RunningIsThere(Now());
      HeldIffCounted(Now(), o);
      ok := objs[o].ref == 0;
    }

    /** A client's step. */
    method Perform(a: H.Action) returns (ok: bool)
      requires Valid() && !H.Internal(a) && H.Enabled(Now(), a)
      modifies this
      ensures Valid() && Onward(old(log) + [a], old(script), log, script) && Work() <= old(Work()) + 3
      ensures if ok then deleting == old(deleting) else Stuck(Now())
      decreases Work(), 5
    {
      ValidIsSound();
      match a
      case New(o) => SetObject(o, H.Object(0, false), a); ok := true;
      case SetNoDelete(o, b) => SetObject(o, objs[o].(noDelete := b), a); ok := true;
      case FromPointer(id, owner, p) => Construct(id, owner, p, a); ok := true;
      case FromHandle(id, owner, r) => Construct(id, owner, handles[r].target, a); ok := true;
      case AssignPointer(id, p) => ok := Assign(id, p, a);
      case AssignHandle(id, r) => HeldIsUsable(Now(), r); ok := Assign(id, handles[r].target, a);
      case SwapHandles(id, r) => Swap(id, r, a); ok := true;
      case LeaveScope(id) => ok := LeaveScope(id);
    }

    method SetObject(o: H.ObjId, r: H.Object, ghost a: H.Action)
      requires Valid() && H.Enabled(Now(), a) && !H.Internal(a)
      requires H.Apply(Now(), a) == Now().(objs := objs[o := r])
      modifies this`objs, this`log
      ensures Valid() && log == old(log) + [a] && objs == old(objs)[o := r] && Work() <= old(Work()) + 3
    {
      ValidIsSound();
      Extended(log, a);
      ClientStepRaises(Now(), a);
      objs := objs[o := r];
      log := log + [a];
    }

    method BodyReturns(o: H.ObjId)
      requires Valid() && deleting != [] && deleting[|deleting| - 1] == H.Running(o) && !Held(Now(), o)
      modifies this`deleting, this`log
      ensures Valid() && log == old(log) + [H.BodyEnds] && Work() < old(Work())
      ensures deleting == old(deleting[..|deleting| - 1]) + [H.Unwinding(o)]
    {
      ValidIsSound();
      Extended(log, H.BodyEnds);
      CascadeStepDescends(Now(), H.BodyEnds);
      deleting := deleting[..|deleting| - 1] + [H.Unwinding(o)];
      log := log + [H.BodyEnds];
    }

    /** The memory of an object whose members are gone is given back. */
    method Release(o: H.ObjId)
      requires Valid() && H.Enabled(Now(), H.Free) && deleting[|deleting| - 1] == H.Unwinding(o)
      modifies this`objs, this`deleting, this`freed, this`log
      ensures Valid() && log == old(log) + [H.Free] && Work() < old(Work())
      ensures deleting == old(deleting[..|deleting| - 1]) && o !in objs
    {
      ValidIsSound();
      Extended(log, H.Free);
      CascadeStepDescends(Now(), H.Free);
      objs := objs - {o};
      deleting := deleting[..|deleting| - 1];
      freed := freed + [o];
      log := log + [H.Free];
    }

    /** The destructors of the members of the object being deleted, in any order. */
    method DestroyMembers(o: H.ObjId) returns (ok: bool)
      requires Valid() && deleting != [] && deleting[|deleting| - 1] == H.Unwinding(o)
      modifies this
      ensures Valid() && Onward(old(log), old(script), log, script) && Work() <= old(Work())
      ensures if ok then deleting == old(deleting) && H.Enabled(Now(), H.Free) else Stuck(Now())
      decreases Work(), 2
    {
      var members := Members(o);
      while members != {}
        invariant members == Members(o) && Valid() && deleting == old(deleting)
        invariant Onward(old(log), old(script), log, script) && Work() <= old(Work())
        decreases Work()
      {
        label Before:
        var id :| id in members;
        ok := DestroyMember(id);
        OnwardTwice(old(log), old(script), old@Before(log), old@Before(script), log, script);
        if !ok {
          return;
        }
        members := Members(o);
      }
      ok := true;
      forall id <- handles
        ensures !H.Owns(Now(), o, id)
      {
        assert id !in members;
      }
    }

    function Members(o: H.ObjId): set<H.HandleId>
      reads this
    {
      set id | id in handles && handles[id].owner == Some(o)
    }

    /** ~Handle() of a member of the object being deleted. */
    method DestroyMember(id: H.HandleId) returns (ok: bool)
      requires Valid() && H.Enabled(Now(), H.DestroyMember(id))
      modifies this
      ensures Valid() && Onward(old(log), old(script), log, script) && Work() < old(Work())
      ensures if ok then deleting == old(deleting) else Stuck(Now())
      decreases Work(), 1
    {
      ok := Destroy(id, H.DestroyMember(id));
      OneOn(old(log), old(script), old(log), old(script), H.DestroyMember(id));
      OnwardTwice(old(log), old(script), old(log) + [H.DestroyMember(id)], old(script), log, script);
    }

    /** ~Handle() */
    method Destroy(id: H.HandleId, ghost a: H.Action) returns (ok: bool)
      requires Valid() && id in handles && H.Enabled(Now(), a) && H.Apply(Now(), a) == H.Destroy(Now(), id)
      modifies this
      ensures Valid() && Onward(old(log) + [a], old(script), log, script) && Work() < old(Work())
      ensures if ok then deleting == old(deleting) else Stuck(Now())
      decreases Work(), 0
    {
      var p := handles[id].target;
      DestroyBegins(log, Now(), id, a);
      Forget(id);
      if p.Some? {
        ok := DecRef(p.value, a);
      } else {
        log := log + [a];
        ok := true;
      }
    }

    method Forget(id: H.HandleId)
      modifies this`handles
      ensures Now() == old(Now()).(handles := old(handles) - {id})
    {
      handles := handles - {id};
    }

    /** The three constructors: from a pointer, and from a handle's pointer. */
    method Construct(id: H.HandleId, owner: Option<H.ObjId>, p: Option<H.ObjId>, ghost a: H.Action)
      requires Valid() && H.Enabled(Now(), a) && !H.Internal(a) && H.Apply(Now(), a) == H.Construct(Now(), id, owner, p)
      requires p.Some? ==> p.value in objs
      modifies this`objs, this`handles, this`log
      ensures Valid() && log == old(log) + [a] && Work() <= old(Work()) + 3
    {
      ValidIsSound();
      Extended(log, a);
      ClientStepRaises(Now(), a);
      if p.Some? {
        HeldNonNegative(Now(), p.value);
        IncRef(p.value);
      }
      handles := handles[id := H.Handle(owner, p)];
      log := log + [a];
    }

    /** The three assignments, with the cascade they set off. */
    method Assign(id: H.HandleId, p: Option<H.ObjId>, ghost a: H.Action) returns (ok: bool)
      requires Valid() && id in handles && H.Usable(Now(), p)
      requires H.Enabled(Now(), a) && H.Apply(Now(), a) == H.Assign(Now(), id, p)
      modifies this
      ensures Valid() && Onward(old(log) + [a], old(script), log, script) && Work() <= old(Work())
      ensures if ok then deleting == old(deleting) else Stuck(Now())
      decreases Work(), 4
    {
      ValidIsSound();
      Extended(log, a);
      var was := handles[id].target;
      if was == p {
        log := log + [a];
        return true;
      }
      RetargetedMid(Now(), id, p);
      Retarget(id, p);
      if was.Some? {
        ok := DecRef(was.value, a);
      } else {
        log := log + [a];
        ok := true;
      }
    }

    /** The first half of an assignment: the new target is counted and pointed to, the old one still counted. */
    method Retarget(id: H.HandleId, p: Option<H.ObjId>)
      requires H.Inv(Now()) && id in handles && (p.Some? ==> p.value in objs)
      modifies this`objs, this`handles
      ensures Now() == H.IncRef(old(Now()), p).(handles := old(handles)[id := old(handles)[id].(target := p)])
    {
      if p.Some? {
        HeldNonNegative(Now(), p.value);
        IncRef(p.value);
      }
      handles := handles[id := handles[id].(target := p)];
    }

    method Swap(id: H.HandleId, other: H.HandleId, ghost a: H.Action)
      requires Valid() && id in handles && other in handles
      requires H.Enabled(Now(), a) && H.Apply(Now(), a) == H.Swap(Now(), id, other)
      modifies this`handles, this`log
      ensures Valid() && log == old(log) + [a] && Work() <= old(Work())
    {
      SwapPotential(Now(), id, other);
      Extended(log, a);
      var p, q := handles[id].target, handles[other].target;
      handles := handles[id := handles[id].(target := q)];
      handles := handles[other := handles[other].(target := p)];
      log := log + [a];
    }

    /** ~Handle() of a variable, with the cascade it sets off. */
    method LeaveScope(id: H.HandleId) returns (ok: bool)
      requires Valid() && H.Enabled(Now(), H.LeaveScope(id))
      modifies this
      ensures Valid() && Onward(old(log) + [H.LeaveScope(id)], old(script), log, script) && Work() < old(Work())
      ensures if ok then deleting == old(deleting) else Stuck(Now())
      decreases Work(), 1
    {
      ok := Destroy(id, H.LeaveScope(id));
    }
  }

  lemma {:induction false} HeldNonNegative(h: H.Heap, o: H.ObjId)
    requires H.Inv(h) && o in h.objs
    ensures h.objs[o].ref >= 0
  {
  }

  /** A handle that is destroyed is gone before its target is let go. */
  lemma {:induction false} DestroyBegins(log: seq<H.Action>, h: H.Heap, id: H.HandleId, a: H.Action)
    requires H.IsRun(H.EmptyHeap, log) && H.Final(H.EmptyHeap, log) == h
    requires id in h.handles && H.Enabled(h, a) && H.Apply(h, a) == H.Destroy(h, id)
    ensures var m, p := h.(handles := h.handles - {id}), h.handles[id].target;
            && Mid(m, p) && Potential(m) == Potential(h) - 1 && H.Apply(h, a) == H.DecRef(m, p)
            && H.IsRun(H.EmptyHeap, log + [a]) && H.Final(H.EmptyHeap, log + [a]) == H.DecRef(m, p)
  {
    RunKeepsInv(H.EmptyHeap, log);
    RemoveMid(h, id);
    HandleGoes(h, id);
    Extended(log, a);
  }

  /** Between the increment and the decrement of an assignment. */
  lemma {:induction false} RetargetedMid(h: H.Heap, id: H.HandleId, p: Option<H.ObjId>)
    requires H.Inv(h) && id in h.handles && H.Usable(h, p)
    ensures var m := H.IncRef(h, p).(handles := h.handles[id := h.handles[id].(target := p)]);
            && Mid(m, h.handles[id].target) && Potential(m) == Potential(h)
            && (h.handles[id].target != p ==> H.Assign(h, id, p) == H.DecRef(m, h.handles[id].target))
  {
    IncRefMid(h, p);
    RetargetMid(H.IncRef(h, p), id, p);
    IncRefPotential(h, p);
    HandleChanges(H.IncRef(h, p), id, h.handles[id].(target := p));
  }
}

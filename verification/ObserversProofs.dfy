/** Attachment conservation over every interleaved run of observers, factory and maps. */
module ObserversProofs {
  import opened Prelude
  import opened MetricsMap
  import opened MetricsRetention
  import opened Observers

  // --------------------------------------------------------------- what one map operation does to the counts

  /** getMatching() attaches the entry it finds, unless that is the previous one; no other count changes. */
  ghost predicate Matched(s: MapState, s': MapState, previous: Option<EntryId>, newborn: EntryId, found: Option<EntryId>) {
    && (forall e <- s.entries :: e in s'.entries &&
          s'.entries[e].current == s.entries[e].current + (if found == Some(e) && found != previous then 1 else 0))
    && (newborn in s'.entries ==> found == Some(newborn) && s'.entries[newborn].current == 1)
    && (forall e <- s'.entries :: e in s.entries || e == newborn)
    && (found.Some? ==> found.value in s'.entries)
  }

  lemma {:induction false} MatchCounts(s: MapState, key: Option<Key>, previous: Option<EntryId>, newborn: EntryId)
    requires newborn !in s.entries && (previous.Some? ==> previous.value in s.entries)
    requires forall k <- s.objects :: s.objects[k] in s.entries && s.entries[s.objects[k]].id == k
    ensures var (s', found) := GetMatching(s, key, previous, newborn);
            Matched(s, s', previous, newborn, found)
  {
  }

  ghost predicate DetachedOnce(s: MapState, s': MapState, e: EntryId) {
    && s'.entries.Keys == s.entries.Keys
    && (forall x <- s.entries :: s'.entries[x].current == s.entries[x].current - (if x == e then 1 else 0))
  }

  lemma {:induction false} DetachCounts(s: MapState, e: EntryId)
    requires MapInv(s) && Attached(s, e)
    ensures forall i | 0 <= i < |s.queue| :: s.queue[i].entry in s.entries
    ensures MapInv(DetachEntry(s, e)) && DetachedOnce(s, DetachEntry(s, e), e)
  {
    DetachRefines(s, e);
    SameMetrics(s, DetachEntry(s, e), e);
  }

  lemma {:induction false} SameMetrics(s: MapState, s': MapState, e: EntryId)
    requires e in s.entries && Abs(s').metrics == Abs(s).metrics[e := Abs(s).metrics[e].(current := s.entries[e].current - 1)]
    ensures DetachedOnce(s, s', e)
  {
    var before, after := Abs(s).metrics, Abs(s').metrics;
    assert after.Keys == s'.entries.Keys && before.Keys == s.entries.Keys;
    forall x <- s.entries
      ensures s'.entries[x].current == s.entries[x].current - (if x == e then 1 else 0)
    {
      assert x in after && after[x].current == s'.entries[x].current;
      assert before[x].current == s.entries[x].current;
    }
  }

  // --------------------------------------------------------------- counting owners

  ghost predicate SameShape(w: World, w': World) {
    |w'.threads| == |w.threads| && |w'.slots| == |w.slots|
  }

  /** If only owner o's holdings may differ, the number of owners changes by what o gained or lost. */
  lemma {:induction false} OneOwnerChanges(w: World, w': World, r: Ref, o: int)
    requires SameShape(w, w') && -|w.threads| <= o < |w.slots|
    requires forall p :: -|w.threads| <= p < |w.slots| && p != o ==> Owns(w', p, r) == Owns(w, p, r)
    ensures |Owners(w', r)| == |Owners(w, r)| + (if Owns(w', o, r) then 1 else 0) - (if Owns(w, o, r) then 1 else 0)
  {
    var before, after := Owners(w, r), Owners(w', r);
    forall p | p != o
      ensures p in after <==> p in before
    {
    }
    var rest := before - {o};
    assert after - {o} == rest;
    assert before == if Owns(w, o, r) then rest + {o} else rest;
    assert after == if Owns(w', o, r) then rest + {o} else rest;
  }

  /** A step of one thread: the number of owners changes by what that thread gained or lost. */
  lemma {:induction false} OneThreadChanges(w: World, w': World, t: nat, pc: Pc, r: Ref)
    requires t < |w.threads| && w'.slots == w.slots && w'.threads == w.threads[t := pc]
    ensures |Owners(w', r)| == |Owners(w, r)| + (if Has(pc, r) then 1 else 0) - (if Has(w.threads[t], r) then 1 else 0)
  {
    OneOwnerChanges(w, w', r, -1 - (t as int));
  }

  /** Handing holdings from one owner to another that had none of them keeps every number. */
  lemma {:induction false} OwnershipMoves(w: World, w': World, r: Ref, from: int, to: int)
    requires SameShape(w, w') && -|w.threads| <= from < |w.slots| && -|w.threads| <= to < |w.slots| && from != to
    requires forall p :: -|w.threads| <= p < |w.slots| && p != from && p != to ==> Owns(w', p, r) == Owns(w, p, r)
    requires !Owns(w, to, r) && !Owns(w', from, r) && Owns(w', to, r) == Owns(w, from, r)
    ensures |Owners(w', r)| == |Owners(w, r)|
  {
    var before, after := Owners(w, r), Owners(w', r);
    if Owns(w, from, r) {
      assert after == (before - {from}) + {to};
    } else {
      assert after == before;
    }
  }

  // --------------------------------------------------------------- the rest of the invariant

  ghost predicate Grows(a: seq<MapState>, b: seq<MapState>) {
    && |a| <= |b|
    && (forall m | 0 <= m < |a| :: a[m].entries.Keys <= b[m].entries.Keys)
    && (forall m | 0 <= m < |b| :: MapInv(b[m]))
  }

  lemma {:induction false} ObjectsGrow(a: seq<MapState>, b: seq<MapState>, objects: Objects)
    requires Grows(a, b) && ObjectsOk(a, objects)
    ensures ObjectsOk(b, objects)
  {
  }

  lemma {:induction false} PcGrows(w: World, w': World, pc: Pc)
    requires Grows(w.maps, w'.maps) && PcOk(w, pc) && |w'.slots| == |w.slots|
    requires pc.Idle? || w'.slots[pc.slot] == w.slots[pc.slot]
    ensures PcOk(w', pc)
  {
    match pc
    case Idle =>
    case Building(_, prior, _, acquired) =>
      ObjectsGrow(w.maps, w'.maps, acquired);
      if prior.Some? { ObjectsGrow(w.maps, w'.maps, prior.value); }
    case Detaching(_, leaving, result) =>
      ObjectsGrow(w.maps, w'.maps, leaving);
      if result.Some? { ObjectsGrow(w.maps, w'.maps, result.value); }
  }

  /** A step of thread t that may fill or empty one slot keeps the world in order. */
  lemma {:induction false} OrderKept(w: World, w': World, t: nat, i: nat)
    requires Ordered(w) && SameShape(w, w') && Grows(w.maps, w'.maps)
    requires t < |w.threads| && i < |w.slots|
    requires forall u | 0 <= u < |w.threads| && u != t :: w'.threads[u] == w.threads[u] && !Busy(w.threads[u], i)
    requires forall j | 0 <= j < |w.slots| && j != i :: w'.slots[j] == w.slots[j]
    requires w'.slots[i].Some? ==> ObjectsOk(w'.maps, w'.slots[i].value) && w'.slots[i].value != []
    requires PcOk(w', w'.threads[t]) && (w'.threads[t].Idle? || w'.threads[t].slot == i)
    requires w'.enabled == w.enabled
    ensures Ordered(w')
  {
    forall j | 0 <= j < |w'.slots| && w'.slots[j].Some?
      ensures ObjectsOk(w'.maps, w'.slots[j].value) && w'.slots[j].value != []
    {
      if j != i {
        ObjectsGrow(w.maps, w'.maps, w.slots[j].value);
      }
    }
    forall u | 0 <= u < |w'.threads|
      ensures PcOk(w', w'.threads[u])
    {
      if u != t {
        PcGrows(w, w', w.threads[u]);
      }
    }
  }

  // --------------------------------------------------------------- steps that hand observers around

  lemma {:induction false} KeepsObserve(w: World, a: Action)
    requires Inv(w) && Enabled(w, a) && a.Observe? && Owned(w, a)
    ensures Inv(Apply(w, a))
  {
    var w' := Apply(w, a);
    var me := -1 - (a.t as int);
    if w.alive {
      assert ObjectsOk(w.maps, []);
      OrderKept(w, w', a.t, a.slot);
      forall r: Ref
        ensures |Owners(w', r)| == |Owners(w, r)|
      {
        OwnershipMoves(w, w', r, a.slot, me);
      }
      SameCounts(w, w');
    } else {
      assert w'.slots == w.slots;
      assert w' == w;
    }
  }

  lemma {:induction false} SameCounts(w: World, w': World)
    requires Conserved(w) && w'.maps == w.maps && forall r :: |Owners(w', r)| == |Owners(w, r)|
    ensures Conserved(w')
  {
  }

  lemma {:induction false} KeepsDetachSlot(w: World, a: Action)
    requires Inv(w) && Enabled(w, a) && a.DetachSlot?
    ensures Inv(Apply(w, a))
  {
    var w' := Apply(w, a);
    OrderKept(w, w', a.t, a.slot);
    forall r: Ref
      ensures |Owners(w', r)| == |Owners(w, r)|
    {
      OwnershipMoves(w, w', r, a.slot, -1 - (a.t as int));
    }
    SameCounts(w, w');
  }

  lemma {:induction false} KeepsInstall(w: World, a: Action)
    requires Inv(w) && Enabled(w, a) && a.Install?
    ensures Inv(Apply(w, a))
  {
    var w' := Apply(w, a);
    var slot := w.threads[a.t].slot;
    assert PcOk(w, w.threads[a.t]);
    OrderKept(w, w', a.t, slot);
    forall r: Ref
      ensures |Owners(w', r)| == |Owners(w, r)|
    {
      InstallMoves(w, a, r);
    }
    SameCounts(w, w');
  }

  lemma {:induction false} InstallMoves(w: World, a: Action, r: Ref)
    requires Inv(w) && Enabled(w, a) && a.Install?
    ensures |Owners(Apply(w, a), r)| == |Owners(w, r)|
  {
    assert PcOk(w, w.threads[a.t]);
    assert Apply(w, a).maps == w.maps;
    ThreadFillsSlot(w, Apply(w, a), a.t, r);
  }

  lemma {:induction false} ThreadFillsSlot(w: World, w': World, t: nat, r: Ref)
    requires t < |w.threads| && w.threads[t].Detaching? && w.threads[t].leaving == []
    requires w.threads[t].slot < |w.slots| && w.slots[w.threads[t].slot].None?
    requires w'.threads == w.threads[t := Idle] && w'.slots == w.slots[w.threads[t].slot := w.threads[t].result]
    ensures |Owners(w', r)| == |Owners(w, r)|
  {
    OwnershipMoves(w, w', r, -1 - (t as int), w.threads[t].slot);
  }

  lemma {:induction false} DroppedIs(prior: Objects, objects: Objects)
    ensures forall r :: r in Dropped(prior, objects) <==> r in prior && r !in objects
    ensures DistinctMaps(prior) ==> DistinctMaps(Dropped(prior, objects))
  {
    if prior != [] {
      DroppedIs(prior[1..], objects);
      assert prior == [prior[0]] + prior[1..];
      if DistinctMaps(prior) {
        assert forall r <- prior[1..] :: r.map_ != prior[0].map_;
      }
    }
  }

  /** init()'s split of the two observers' entries changes nothing about what the thread holds. */
  lemma {:induction false} FinishedHas(pc: Pc, r: Ref)
    requires pc.Building?
    ensures Has(Finished(pc), r) == Has(pc, r)
  {
    if pc.prior.Some? {
      DroppedIs(pc.prior.value, pc.acquired);
    }
  }

  lemma {:induction false} FinishedOk(w: World, w': World, pc: Pc)
    requires PcOk(w, pc) && pc.Building? && w'.maps == w.maps && w'.slots == w.slots
    ensures PcOk(w', Finished(pc)) && Finished(pc).slot == pc.slot
  {
    if pc.prior.Some? {
      DroppedIs(pc.prior.value, pc.acquired);
    }
  }

  lemma {:induction false} KeepsFinish(w: World, a: Action)
    requires Inv(w) && Enabled(w, a) && a.Finish?
    ensures Inv(Apply(w, a))
  {
    var w' := Apply(w, a);
    var pc := w.threads[a.t];
    FinishedOk(w, w', pc);
    OrderKept(w, w', a.t, pc.slot);
    forall r: Ref
      ensures |Owners(w', r)| == |Owners(w, r)|
    {
      FinishedHas(pc, r);
      OneThreadChanges(w, w', a.t, Finished(pc), r);
    }
    SameCounts(w, w');
  }

  lemma {:induction false} KeepsAdopt(w: World, a: Action)
    requires Inv(w) && Enabled(w, a) && a.Adopt? && Owned(w, a)
    ensures Inv(Apply(w, a))
  {
    var w' := Apply(w, a);
    if a.slot == a.other {
      assert w'.slots == w.slots;
      assert w' == w;
    } else {
      forall u | 0 <= u < |w'.threads|
        ensures PcOk(w', w'.threads[u])
      {
        assert !Busy(w.threads[u], a.slot) && !Busy(w.threads[u], a.other);
        PcGrows(w, w', w.threads[u]);
      }
      forall r: Ref
        ensures |Owners(w', r)| == |Owners(w, r)|
      {
        OwnershipMoves(w, w', r, a.other, a.slot);
      }
      SameCounts(w, w');
    }
  }

  // --------------------------------------------------------------- steps that change counts

  lemma {:induction false} LeavingGoesOn(w: World, w': World, pc: Pc, pc': Pc)
    requires Grows(w.maps, w'.maps) && w'.slots == w.slots && PcOk(w, pc) && pc.Detaching? && pc.leaving != []
    requires pc' == pc.(leaving := pc.leaving[1..])
    ensures PcOk(w', pc')
  {
    ObjectsGrow(w.maps, w'.maps, pc.leaving);
    if pc.result.Some? { ObjectsGrow(w.maps, w'.maps, pc.result.value); }
    assert forall r <- pc'.leaving :: r in pc.leaving;
  }

  lemma {:induction false} DetachKeepsOrder(w: World, a: Action)
    requires Inv(w) && Enabled(w, a) && a.DetachNext?
    ensures Ordered(Apply(w, a))
  {
    var w' := Apply(w, a);
    var pc := w.threads[a.t];
    ReadyToDetach(w, a);
    DetachCounts(w.maps[pc.leaving[0].map_], pc.leaving[0].entry);
    assert PcOk(w, pc);
    assert Grows(w.maps, w'.maps);
    LeavingGoesOn(w, w', pc, w'.threads[a.t]);
    OrderKept(w, w', a.t, pc.slot);
  }

  lemma {:induction false} DetachLeaves(w: World, a: Action, r: Ref)
    requires Inv(w) && Enabled(w, a) && a.DetachNext?
    ensures |Owners(Apply(w, a), r)| == |Owners(w, r)| - (if r == w.threads[a.t].leaving[0] then 1 else 0)
  {
    assert PcOk(w, w.threads[a.t]);
    assert Apply(w, a).slots == w.slots;
    OneThreadLeaves(w, Apply(w, a), a.t, r);
  }

  lemma {:induction false} OneThreadLeaves(w: World, w': World, t: nat, r: Ref)
    requires t < |w.threads| && w.threads[t].Detaching? && w.threads[t].leaving != []
    requires PcOk(w, w.threads[t]) && w'.slots == w.slots
    requires w'.threads == w.threads[t := w.threads[t].(leaving := w.threads[t].leaving[1..])]
    ensures |Owners(w', r)| == |Owners(w, r)| - (if r == w.threads[t].leaving[0] then 1 else 0)
  {
    OneOwnerChanges(w, w', r, -1 - (t as int));
  }

  lemma {:induction false} KeepsDetachNext(w: World, a: Action)
    requires Inv(w) && Enabled(w, a) && a.DetachNext?
    ensures Inv(Apply(w, a))
  {
    var w' := Apply(w, a);
    var gone := w.threads[a.t].leaving[0];
    ReadyToDetach(w, a);
    DetachCounts(w.maps[gone.map_], gone.entry);
    DetachKeepsOrder(w, a);
    forall m, e | 0 <= m < |w'.maps| && e in w'.maps[m].entries
      ensures w'.maps[m].entries[e].current == |Owners(w', Ref(m, e))|
    {
      DetachLeaves(w, a, Ref(m, e));
      assert w.maps[m].entries[e].current == |Owners(w, Ref(m, e))|;
    }
  }

  /** The entry getMatching() attaches is not one its thread holds already. */
  lemma {:induction false} FoundIsNew(w: World, a: Action)
    requires Inv(w) && Enabled(w, a) && a.MatchNext?
    ensures var pc := w.threads[a.t];
            var m := pc.todo[0];
            && MatchOk(w.maps[m], Previous(pc.prior, m), a.newborn)
            && var found := GetMatching(w.maps[m], a.key, Previous(pc.prior, m), a.newborn).1;
               found.Some? ==> (Has(pc, Ref(m, found.value)) <==> found == Previous(pc.prior, m))
  {
    ReadyToMatch(w, a);
    var pc := w.threads[a.t];
    var m := pc.todo[0];
    assert PcOk(w, pc);
    assert m in pc.todo;
    if pc.prior.Some? {
      EntryForIs(pc.prior.value, m);
    }
  }

  ghost function FoundBy(w: World, a: Action): Option<EntryId>
    requires Inv(w) && Enabled(w, a) && a.MatchNext?
  {
    FoundIsNew(w, a);
    var m := w.threads[a.t].todo[0];
    GetMatching(w.maps[m], a.key, Previous(w.threads[a.t].prior, m), a.newborn).1
  }

  lemma {:induction false} MatchJoins(w: World, a: Action, r: Ref)
    requires Inv(w) && Enabled(w, a) && a.MatchNext?
    ensures var pc := w.threads[a.t];
            |Owners(Apply(w, a), r)| == |Owners(w, r)| +
              (if r.map_ == pc.todo[0] && FoundBy(w, a) == Some(r.entry) && FoundBy(w, a) != Previous(pc.prior, pc.todo[0])
               then 1 else 0)
  {
    FoundIsNew(w, a);
    var w' := Apply(w, a);
    OneThreadChanges(w, w', a.t, w'.threads[a.t], r);
  }

  lemma {:induction false} KeepsMatchNext(w: World, a: Action)
    requires Inv(w) && Enabled(w, a) && a.MatchNext?
    ensures Inv(Apply(w, a))
  {
    var w' := Apply(w, a);
    var pc := w.threads[a.t];
    var m := pc.todo[0];
    FoundIsNew(w, a);
    MatchCounts(w.maps[m], a.key, Previous(pc.prior, m), a.newborn);
    MatchKeepsOrder(w, a);
    forall n, e | 0 <= n < |w'.maps| && e in w'.maps[n].entries
      ensures w'.maps[n].entries[e].current == |Owners(w', Ref(n, e))|
    {
      MatchJoins(w, a, Ref(n, e));
      if n != m || e != a.newborn {
        assert w.maps[n].entries[e].current == |Owners(w, Ref(n, e))|;
      }
    }
  }

  lemma {:induction false} MatchKeepsOrder(w: World, a: Action)
    requires Inv(w) && Enabled(w, a) && a.MatchNext?
    ensures Ordered(Apply(w, a))
  {
    var w' := Apply(w, a);
    var pc, pc' := w.threads[a.t], w'.threads[a.t];
    var m := pc.todo[0];
    ReadyToMatch(w, a);
    MatchRefines(w.maps[m], a.key, Previous(pc.prior, m), a.newborn);
    MatchCounts(w.maps[m], a.key, Previous(pc.prior, m), a.newborn);
    assert PcOk(w, pc);
    assert Grows(w.maps, w'.maps);
    BuildingGoesOn(w, w', pc, pc');
    OrderKept(w, w', a.t, pc.slot);
  }

  lemma {:induction false} BuildingGoesOn(w: World, w': World, pc: Pc, pc': Pc)
    requires Grows(w.maps, w'.maps) && w'.slots == w.slots && PcOk(w, pc) && pc.Building? && pc.todo != []
    requires pc'.Building? && pc'.slot == pc.slot && pc'.prior == pc.prior && pc'.todo == pc.todo[1..]
    requires pc'.acquired == pc.acquired ||
             (|pc'.acquired| == |pc.acquired| + 1 && pc'.acquired[..|pc.acquired|] == pc.acquired &&
              var r := pc'.acquired[|pc.acquired|];
              r.map_ == pc.todo[0] && pc.todo[0] in pc.todo && r.entry in w'.maps[r.map_].entries)
    ensures PcOk(w', pc')
  {
    var m := pc.todo[0];
    assert pc.todo == [m] + pc.todo[1..];
    assert m in pc.todo && m !in pc.todo[1..];
    ObjectsGrow(w.maps, w'.maps, pc.acquired);
    if pc.prior.Some? { ObjectsGrow(w.maps, w'.maps, pc.prior.value); }
    if pc'.acquired != pc.acquired {
      var r := pc'.acquired[|pc.acquired|];
      assert pc'.acquired == pc.acquired + [r];
      assert r.map_ == m;
      forall q <- pc'.acquired
        ensures q.map_ !in pc'.todo && q.map_ < |w'.maps| && q.entry in w'.maps[q.map_].entries
      {
        assert q == r || q in pc.acquired;
      }
    }
    assert forall n <- pc'.todo :: n in pc.todo;
  }

  // --------------------------------------------------------------- maps and the factory

  /** Only maps changed, and none of them lost an entry. */
  ghost predicate OnlyMaps(w: World, w': World) {
    && w'.slots == w.slots && w'.threads == w.threads && Grows(w.maps, w'.maps)
    && DistinctNats(w'.enabled) && (forall m <- w'.enabled :: m < |w'.maps|)
  }

  lemma {:induction false} MapsKeepOrder(w: World, w': World)
    requires Ordered(w) && OnlyMaps(w, w')
    ensures Ordered(w')
  {
    forall u | 0 <= u < |w'.threads|
      ensures PcOk(w', w'.threads[u])
    {
      PcGrows(w, w', w.threads[u]);
    }
    forall j | 0 <= j < |w'.slots| && w'.slots[j].Some?
      ensures ObjectsOk(w'.maps, w'.slots[j].value)
    {
      ObjectsGrow(w.maps, w'.maps, w.slots[j].value);
    }
  }

  lemma {:induction false} SameOwners(w: World, w': World, r: Ref)
    requires w'.slots == w.slots && w'.threads == w.threads
    ensures Owners(w', r) == Owners(w, r)
  {
    assert forall o :: Owns(w', o, r) == Owns(w, o, r);
  }

  lemma {:induction false} KeepsMaps(w: World, a: Action)
    requires Inv(w) && Enabled(w, a) && (a.Update? || a.AddMap? || a.DestroyMapOf? || a.DestroyFactory?)
    ensures Inv(Apply(w, a))
  {
    var w' := Apply(w, a);
    if a.DestroyMapOf? {
      DestroyRefines(w.maps[a.m]);
    }
    MapsKeepOrder(w, w');
    forall m, e | 0 <= m < |w'.maps| && e in w'.maps[m].entries
      ensures w'.maps[m].entries[e].current == |Owners(w', Ref(m, e))|
    {
      SameOwners(w, w', Ref(m, e));
      assert w.maps[m].entries[e].current == |Owners(w, Ref(m, e))|;
    }
  }

  // --------------------------------------------------------------- the law

  lemma {:induction false} StepConserves(w: World, a: Action)
    requires Inv(w) && Enabled(w, a) && Owned(w, a)
    ensures Inv(Apply(w, a))
  {
    match a
    case Observe(_, _) => KeepsObserve(w, a);
    case MatchNext(_, _, _) => KeepsMatchNext(w, a);
    case Finish(_) => KeepsFinish(w, a);
    case DetachNext(_) => KeepsDetachNext(w, a);
    case Install(_) => KeepsInstall(w, a);
    case DetachSlot(_, _) => KeepsDetachSlot(w, a);
    case Adopt(_, _) => KeepsAdopt(w, a);
    case _ => KeepsMaps(w, a);
  }

  ghost predicate OwnedRun(w: World, acts: seq<Action>)
    requires Inv(w)
    decreases |acts|
  {
    acts == [] ||
    (Enabled(w, acts[0]) && Owned(w, acts[0]) && (StepConserves(w, acts[0]); OwnedRun(Apply(w, acts[0]), acts[1..])))
  }

  ghost function Final(w: World, acts: seq<Action>): World
    requires Inv(w) && OwnedRun(w, acts)
    decreases |acts|
  {
    if acts == [] then w else StepConserves(w, acts[0]); Final(Apply(w, acts[0]), acts[1..])
  }

  /** The state in which no observer was ever made. */
  ghost predicate Start(w: World) {
    && w.maps == [] && w.enabled == [] && w.alive
    && (forall i | 0 <= i < |w.slots| :: w.slots[i] == None)
    && (forall t | 0 <= t < |w.threads| :: w.threads[t] == Idle)
  }

  lemma {:induction false} StartInv(w: World)
    requires Start(w)
    ensures Inv(w)
  {
  }

  lemma {:induction false} RunConserves(w: World, acts: seq<Action>)
    requires Inv(w) && OwnedRun(w, acts)
    ensures Inv(Final(w, acts))
    decreases |acts|
  {
    if acts != [] {
      StepConserves(w, acts[0]);
      RunConserves(Apply(w, acts[0]), acts[1..]);
    }
  }

  /** In every interleaved run that keeps the ownership rule, attachment counts equal the observers that hold the entry. */
  lemma {:induction false} AttachmentsConserved(w: World, acts: seq<Action>)
    requires Start(w) && (StartInv(w); OwnedRun(w, acts))
    ensures (StartInv(w);
             var f := Final(w, acts);
             forall m, e | 0 <= m < |f.maps| && e in f.maps[m].entries ::
               f.maps[m].entries[e].current == |Owners(f, Ref(m, e))|)
  {
    StartInv(w);
    RunConserves(w, acts);
  }

  /** getMatching()'s assertion: a previous entry with the wanted key is the one the index has for it. */
  lemma {:induction false} PreviousStillIndexed(w: World, a: Action)
    requires Inv(w) && Enabled(w, a) && a.MatchNext? && a.key.Some?
    ensures var pc := w.threads[a.t];
            var s, previous := w.maps[pc.todo[0]], Previous(pc.prior, pc.todo[0]);
            (previous.Some? && previous.value in s.entries && s.entries[previous.value].id == a.key.value && !s.destroyed) ==>
              a.key.value in s.objects && s.objects[a.key.value] == previous.value
  {
    ReadyToMatch(w, a);
    var pc := w.threads[a.t];
    var s, previous := w.maps[pc.todo[0]], Previous(pc.prior, pc.todo[0]);
    if previous.Some? {
      assert EntryOk(s, previous.value);
    }
  }

  /** Once every slot is empty and every thread idle, nothing is attached: all entries are eligible for eviction. */
  lemma {:induction false} AllReleased(w: World)
    requires Inv(w)
    requires (forall i | 0 <= i < |w.slots| :: w.slots[i] == None) && (forall t | 0 <= t < |w.threads| :: w.threads[t] == Idle)
    ensures forall m, e | 0 <= m < |w.maps| && e in w.maps[m].entries :: w.maps[m].entries[e].current == 0
  {
    forall m, e | 0 <= m < |w.maps| && e in w.maps[m].entries
      ensures w.maps[m].entries[e].current == 0
    {
      assert Owners(w, Ref(m, e)) == {};
    }
  }

  // --------------------------------------------------------------- where the law fails

  /**
   The rule is exact. Replacing an observer after the factory was destroyed, or adopting into a slot, keeps the law
   if and only if the slot had no observer: otherwise that observer's entries stay attached with nobody to detach them.
   */
  lemma {:induction false} LawNeedsTheRule(w: World, a: Action)
    requires Inv(w) && Enabled(w, a) && ((a.Observe? && !w.alive) || a.Adopt?)
    ensures Conserved(Apply(w, a)) <==> w.slots[a.slot] == None
  {
    if w.slots[a.slot] == None {
      StepConserves(w, a);
    } else {
      var w' := Apply(w, a);
      var r := w.slots[a.slot].value[0];
      assert Owns(w, a.slot, r);
      assert w.maps[r.map_].entries[r.entry].current == |Owners(w, r)| by {
        assert r == Ref(r.map_, r.entry);
      }
      Abandoned(w, w', a, r);
      assert |Owners(w', Ref(r.map_, r.entry))| < w'.maps[r.map_].entries[r.entry].current;
    }
  }

  /** The first observer is made: one map without retention, key "a", slot 0, and slot 1 empty. */
  const Making: seq<Action> :=
    [AddMap(0), Update([0]), Observe(0, 0), MatchNext(0, Some("a"), 0), Finish(0), Install(0)]

  function Stage(k: nat): World {
    var attached := MapState(map["a" := 0], [], map[0 := Entry("a", 1, 1, None)], 0, false, 0);
    if k == 0 then World([], [None, None], [Idle], [], true)
    else if k == 1 then World([NewMap(0)], [None, None], [Idle], [], true)
    else if k == 2 then World([NewMap(0)], [None, None], [Idle], [0], true)
    else if k == 3 then World([NewMap(0)], [None, None], [Building(0, None, [0], [])], [0], true)
    else if k == 4 then World([attached], [None, None], [Building(0, None, [], [Ref(0, 0)])], [0], true)
    else if k == 5 then World([attached], [None, None], [Detaching(0, [], Some([Ref(0, 0)]))], [0], true)
    else World([attached], [Some([Ref(0, 0)]), None], [Idle], [0], true)
  }

  ghost predicate Leads(w: World, a: Action, w': World) {
    Inv(w) && Enabled(w, a) && Owned(w, a) && Apply(w, a) == w'
  }

  lemma {:induction false} StageLeads(k: nat)
    requires k < 6 && Inv(Stage(k))
    ensures Leads(Stage(k), Making[k], Stage(k + 1)) && Inv(Stage(k + 1))
  {
    if k == 3 {
      MatchingStage();
    } else if k > 3 {
      LastStages(k);
    }
    StepConserves(Stage(k), Making[k]);
  }

  lemma {:induction false} MatchingStage()
    requires Inv(Stage(3))
    ensures Leads(Stage(3), Making[3], Stage(4))
  {
    FirstMatch("a");
    OnlyMatch(Stage(3), 0, "a", Stage(4).maps[0]);
  }

  /** A single thread's match in a single map, the last to do. */
  lemma {:induction false} OnlyMatch(w: World, slot: nat, key: Key, s': MapState)
    requires Inv(w) && |w.maps| == 1 && w.threads == [Building(slot, None, [0], [])] && 0 !in w.maps[0].entries
    requires MatchOk(w.maps[0], None, 0) && GetMatching(w.maps[0], Some(key), None, 0) == (s', Some(0))
    ensures Leads(w, MatchNext(0, Some(key), 0), w.(maps := [s'], threads := [Building(slot, None, [], [Ref(0, 0)])]))
  {
    var pc := Building(slot, None, [], [Ref(0, 0)]);
    assert [0][1..] == [] && [] + [Ref(0, 0)] == [Ref(0, 0)];
    assert w.threads[0 := pc] == [pc];
    assert w.maps[0 := s'] == [s'];
  }

  lemma {:induction false} FirstMatch(key: Key)
    ensures GetMatching(NewMap(0), Some(key), None, 0) ==
            (MapState(map[key := 0], [], map[0 := Entry(key, 1, 1, None)], 0, false, 0), Some(0))
  {
    var inserted := MapState(map[key := 0], [], map[0 := Entry(key, 0, 0, None)], 0, false, 0);
    assert Attach(inserted, 0).entries == map[0 := Entry(key, 1, 1, None)];
    var s := NewMap(0);
    assert s.(objects := s.objects[key := 0], entries := s.entries[0 := Entry(key, 0, 0, None)]) == inserted;
  }

  lemma {:induction false} LastStages(k: nat)
    requires 4 <= k < 6 && Inv(Stage(k))
    ensures Leads(Stage(k), Making[k], Stage(k + 1))
  {
  }

  lemma {:induction false} StagesPassed(k: nat)
    requires k <= 6
    ensures Start(Stage(0)) && Inv(Stage(0)) && Inv(Stage(k))
    ensures OwnedRun(Stage(0), Making[..k]) && Final(Stage(0), Making[..k]) == Stage(k)
  {
    if k > 0 {
      StagesPassed(k - 1);
      StageLeads(k - 1);
      OneMoreLeads(Stage(0), Making[..k - 1], Stage(k - 1), Making[k - 1], Stage(k));
      UpTo(Making, k);
    }
  }

  lemma {:induction false} UpTo(acts: seq<Action>, k: nat)
    requires 0 < k <= |acts|
    ensures acts[..k - 1] + [acts[k - 1]] == acts[..k]
  {
  }

  lemma {:induction false} OneMoreLeads(w: World, acts: seq<Action>, f: World, a: Action, f': World)
    requires Inv(w) && OwnedRun(w, acts) && Final(w, acts) == f && Leads(f, a, f')
    ensures OwnedRun(w, acts + [a]) && Final(w, acts + [a]) == f'
  {
    OneMore(w, acts, a);
  }

  /** A run that keeps the rule, up to a state with an observer in slot 0, none in slot 1, and no thread at work. */
  lemma {:induction false} OneObserver() returns (w: World, acts: seq<Action>, f: World)
    ensures Start(w) && Inv(w) && OwnedRun(w, acts) && Final(w, acts) == f && Inv(f)
    ensures |f.slots| == 2 && f.slots[0].Some? && f.slots[1].None? && f.threads == [Idle]
  {
    StagesPassed(6);
    w, acts, f := Stage(0), Making[..6], Stage(6);
  }

  /** A run after which a replacing getObserver() loses an attachment: the factory was destroyed in between. */
  lemma {:induction false} LostByReplacing() returns (w: World, acts: seq<Action>, f: World, a: Action)
    ensures Start(w) && Inv(w) && OwnedRun(w, acts) && Final(w, acts) == f && Inv(f)
    ensures a.Observe? && Enabled(f, a) && !Conserved(Apply(f, a))
  {
    var before, g;
    w, before, g := OneObserver();
    StepConserves(g, DestroyFactory);
    OneMore(w, before, DestroyFactory);
    acts, f, a := before + [DestroyFactory], Apply(g, DestroyFactory), Observe(0, 0);
    LawNeedsTheRule(f, a);
  }

  /** A run after which adopt() into a slot in use loses an attachment. */
  lemma {:induction false} LostByAdopting() returns (w: World, acts: seq<Action>, f: World, a: Action)
    ensures Start(w) && Inv(w) && OwnedRun(w, acts) && Final(w, acts) == f && Inv(f)
    ensures a.Adopt? && Enabled(f, a) && !Conserved(Apply(f, a))
  {
    w, acts, f := OneObserver();
    a := Adopt(0, 1);
    LawNeedsTheRule(f, a);
  }

  lemma {:induction false} OneMore(w: World, acts: seq<Action>, a: Action)
    requires Inv(w) && OwnedRun(w, acts) && Inv(Final(w, acts)) && Enabled(Final(w, acts), a) && Owned(Final(w, acts), a)
    ensures OwnedRun(w, acts + [a]) && Final(w, acts + [a]) == Apply(Final(w, acts), a)
    decreases |acts|
  {
    StepConserves(Final(w, acts), a);
    if acts == [] {
      assert [a][1..] == [];
      assert acts + [a] == [a];
    } else {
      StepConserves(w, acts[0]);
      OneMore(Apply(w, acts[0]), acts[1..], a);
      assert (acts + [a])[1..] == acts[1..] + [a];
    }
  }

  lemma {:induction false} Abandoned(w: World, w': World, a: Action, r: Ref)
    requires Inv(w) && Enabled(w, a) && ((a.Observe? && !w.alive) || a.Adopt?) && w' == Apply(w, a)
    requires w.slots[a.slot].Some? && r in w.slots[a.slot].value
    ensures |Owners(w', r)| < |Owners(w, r)|
  {
    var dropped := w.(slots := w.slots[a.slot := None]);
    OneOwnerChanges(w, dropped, r, a.slot);
    if a.Adopt? && a.slot != a.other {
      OwnershipMoves(dropped, w', r, a.other, a.slot);
    } else {
      assert w' == dropped;
    }
  }
}

/**
 Observers and their factory over any number of metrics maps, as a transition system: one step per critical section
 of a map, so getObserver() and detach() of different threads interleave map by map.
 */
module Observers {
  import opened Prelude
  import opened MetricsMap
  import opened MetricsRetention

  /** An entry pointer: a map and an entry of it. An observer is the list of entries it is attached to. */
  datatype Ref = Ref(map_: nat, entry: EntryId)
  type Objects = seq<Ref>

  datatype Pc =
    | Idle
    | Building(slot: nat, prior: Option<Objects>, todo: seq<nat>, acquired: Objects)   // in getObserver()'s loop
    | Detaching(slot: nat, leaving: Objects, result: Option<Objects>)                // in init() or detach()

  /** `slots` are the ObserverHelperT objects, `enabled` is the factory's _maps, and `alive` says _metrics is set. */
  datatype World = World(
    maps: seq<MapState>, slots: seq<Option<Objects>>, threads: seq<Pc>, enabled: seq<nat>, alive: bool)

  datatype Action =
    | Observe(t: nat, slot: nat)                                  // slot.attach(getObserver(helper, slot.get())) begins
    | MatchNext(t: nat, key: Option<Key>, newborn: EntryId)       // getMatching() on the next map
    | Finish(t: nat)                                              // the loop over the maps ends
    | DetachNext(t: nat)                                          // EntryT::detach() of the next entry that leaves
    | Install(t: nat)                                             // the call returns into the slot
    | DetachSlot(t: nat, slot: nat)                               // slot.detach(), or the helper's destructor
    | Adopt(slot: nat, other: nat)
    | Update(enabled: seq<nat>)
    | AddMap(retain: nat)
    | DestroyMapOf(m: nat)
    | DestroyFactory

  /** getEntry(map): the first entry of the observer that belongs to the map. */
  function EntryFor(objects: Objects, m: nat): Option<EntryId> {
    if objects == [] then None
    else if objects[0].map_ == m then Some(objects[0].entry)
    else EntryFor(objects[1..], m)
  }

  function Previous(prior: Option<Objects>, m: nat): Option<EntryId> {
    if prior.Some? then EntryFor(prior.value, m) else None
  }

  /** The entries of the replaced observer that the new one does not have, in init()'s order. */
  function Dropped(prior: Objects, objects: Objects): Objects {
    if prior == [] then []
    else (if prior[0] in objects then [] else [prior[0]]) + Dropped(prior[1..], objects)
  }

  ghost predicate Free(w: World, slot: nat) {
    slot < |w.slots| && forall t | 0 <= t < |w.threads| :: !Busy(w.threads[t], slot)
  }

  predicate Busy(pc: Pc, slot: nat) {
    !pc.Idle? && pc.slot == slot
  }

  predicate DistinctNats(s: seq<nat>) {
    forall i, j | 0 <= i < j < |s| :: s[i] != s[j]
  }

  ghost predicate Enabled(w: World, a: Action) {
    match a
    case Observe(t, slot) => t < |w.threads| && w.threads[t].Idle? && Free(w, slot)
    case MatchNext(t, _, newborn) =>
      t < |w.threads| && w.threads[t].Building? && w.threads[t].todo != [] &&
      w.threads[t].todo[0] < |w.maps| && newborn !in w.maps[w.threads[t].todo[0]].entries
    case Finish(t) => t < |w.threads| && w.threads[t].Building? && w.threads[t].todo == []
    case DetachNext(t) => t < |w.threads| && w.threads[t].Detaching? && w.threads[t].leaving != []
    case Install(t) => t < |w.threads| && w.threads[t].Detaching? && w.threads[t].leaving == []
    case DetachSlot(t, slot) => t < |w.threads| && w.threads[t].Idle? && Free(w, slot) && w.slots[slot].Some?
    case Adopt(slot, other) => Free(w, slot) && Free(w, other)
    case Update(maps) => DistinctNats(maps) && forall m <- maps :: m < |w.maps|
    case AddMap(_) => true
    case DestroyMapOf(m) => m < |w.maps|
    case DestroyFactory => true
  }

  function SetThread(w: World, t: nat, pc: Pc): World
    requires t < |w.threads|
  {
    w.(threads := w.threads[t := pc])
  }

  /** Where getObserver() goes when its loop is over. */
  function Finished(pc: Pc): Pc
    requires pc.Building?
  {
    if pc.prior.None? then Detaching(pc.slot, [], if pc.acquired == [] then None else Some(pc.acquired))
    else if pc.acquired == [] then Detaching(pc.slot, pc.prior.value, None)
    else Detaching(pc.slot, Dropped(pc.prior.value, pc.acquired), Some(pc.acquired))
  }

  // --------------------------------------------------------------- who holds an entry

  predicate Has(pc: Pc, r: Ref) {
    match pc
    case Idle => false
    case Building(_, prior, _, acquired) => r in acquired || (prior.Some? && r in prior.value)
    case Detaching(_, leaving, result) => r in leaving || (result.Some? && r in result.value)
  }

  /** Owners are numbered: slots from 0 up, threads from -1 down. */
  ghost predicate Owns(w: World, o: int, r: Ref) {
    if o >= 0 then o < |w.slots| && w.slots[o].Some? && r in w.slots[o].value
    else -1 - o < |w.threads| && Has(w.threads[-1 - o], r)
  }

  ghost function Owners(w: World, r: Ref): set<int> {
    set o | -|w.threads| <= o < |w.slots| && Owns(w, o, r)
  }

  /** The conservation law: every entry's attachment count is the number of observers, finished or not, that hold it. */
  ghost predicate Conserved(w: World) {
    forall m, e | 0 <= m < |w.maps| && e in w.maps[m].entries ::
      w.maps[m].entries[e].current == |Owners(w, Ref(m, e))|
  }

  // --------------------------------------------------------------- the invariant

  predicate DistinctMaps(objects: Objects) {
    forall i, j | 0 <= i < j < |objects| :: objects[i].map_ != objects[j].map_
  }

  ghost predicate ObjectsOk(maps: seq<MapState>, objects: Objects) {
    && DistinctMaps(objects)
    && (forall r <- objects :: r.map_ < |maps| && r.entry in maps[r.map_].entries)
  }

  ghost predicate PcOk(w: World, pc: Pc) {
    match pc
    case Idle => true
    case Building(slot, prior, todo, acquired) =>
      && slot < |w.slots| && w.slots[slot].None?
      && DistinctNats(todo) && (forall m <- todo :: m < |w.maps|)
      && ObjectsOk(w.maps, acquired) && (forall r <- acquired :: r.map_ !in todo)
      && (prior.Some? ==> ObjectsOk(w.maps, prior.value))
    case Detaching(slot, leaving, result) =>
      && slot < |w.slots| && w.slots[slot].None?
      && ObjectsOk(w.maps, leaving)
      && (result.Some? ==> ObjectsOk(w.maps, result.value) && result.value != [] && forall r <- leaving :: r !in result.value)
  }

  /** Everything but the conservation law. */
  ghost predicate Ordered(w: World) {
    && (forall m | 0 <= m < |w.maps| :: MapInv(w.maps[m]))
    && DistinctNats(w.enabled) && (forall m <- w.enabled :: m < |w.maps|)
    && (forall i | 0 <= i < |w.slots| && w.slots[i].Some? :: ObjectsOk(w.maps, w.slots[i].value) && w.slots[i].value != [])
    && (forall t | 0 <= t < |w.threads| :: PcOk(w, w.threads[t]))
    && (forall t, u | 0 <= t < u < |w.threads| && !w.threads[t].Idle? && !w.threads[u].Idle? ::
          w.threads[t].slot != w.threads[u].slot)
  }

  ghost predicate Inv(w: World) {
    Ordered(w) && Conserved(w)
  }

  /** The entry the observer being replaced holds in this map is attached, hence may be passed to getMatching(). */
  lemma {:induction false} EntryForIs(objects: Objects, m: nat)
    ensures EntryFor(objects, m).Some? ==> Ref(m, EntryFor(objects, m).value) in objects
    ensures EntryFor(objects, m).None? ==> forall r <- objects :: r.map_ != m
  {
    if objects != [] {
      EntryForIs(objects[1..], m);
      assert objects == [objects[0]] + objects[1..];
    }
  }

  lemma {:induction false} HeldIsAttached(w: World, o: int, r: Ref)
    requires Inv(w) && -|w.threads| <= o < |w.slots| && Owns(w, o, r)
    requires r.map_ < |w.maps| && r.entry in w.maps[r.map_].entries
    ensures Attached(w.maps[r.map_], r.entry)
  {
    assert o in Owners(w, Ref(r.map_, r.entry));
  }

  lemma {:induction false} ReadyToMatch(w: World, a: Action)
    requires Inv(w) && Enabled(w, a) && a.MatchNext?
    ensures var pc := w.threads[a.t];
            MatchOk(w.maps[pc.todo[0]], Previous(pc.prior, pc.todo[0]), a.newborn)
  {
    var pc := w.threads[a.t];
    var m := pc.todo[0];
    assert PcOk(w, pc);
    if pc.prior.Some? {
      EntryForIs(pc.prior.value, m);
      if EntryFor(pc.prior.value, m).Some? {
        var r := Ref(m, EntryFor(pc.prior.value, m).value);
        assert Owns(w, -1 - (a.t as int), r);
        HeldIsAttached(w, -1 - (a.t as int), r);
      }
    }
  }

  lemma {:induction false} ReadyToDetach(w: World, a: Action)
    requires Inv(w) && Enabled(w, a) && a.DetachNext?
    ensures var r := w.threads[a.t].leaving[0];
            r.map_ < |w.maps| && Attached(w.maps[r.map_], r.entry)
  {
    var r := w.threads[a.t].leaving[0];
    assert PcOk(w, w.threads[a.t]);
    assert r in w.threads[a.t].leaving;
    assert Owns(w, -1 - (a.t as int), r);
    HeldIsAttached(w, -1 - (a.t as int), r);
  }

  // --------------------------------------------------------------- steps

  ghost function Apply(w: World, a: Action): World
    requires Inv(w) && Enabled(w, a)
  {
    match a
    case Observe(t, slot) =>
      if w.alive then
        SetThread(w, t, Building(slot, w.slots[slot], w.enabled, [])).(slots := w.slots[slot := None])
      else w.(slots := w.slots[slot := None])
    case MatchNext(t, key, newborn) =>
      ReadyToMatch(w, a);
      var pc := w.threads[t];
      var m := pc.todo[0];
      var (s', found) := GetMatching(w.maps[m], key, Previous(pc.prior, m), newborn);
      var pc' := Building(pc.slot, pc.prior, pc.todo[1..], if found.Some? then pc.acquired + [Ref(m, found.value)] else pc.acquired);
      SetThread(w, t, pc').(maps := w.maps[m := s'])
    case Finish(t) => SetThread(w, t, Finished(w.threads[t]))
    case DetachNext(t) =>
      ReadyToDetach(w, a);
      var pc := w.threads[t];
      var r := pc.leaving[0];
      SetThread(w, t, pc.(leaving := pc.leaving[1..])).(maps := w.maps[r.map_ := DetachEntry(w.maps[r.map_], r.entry)])
    case Install(t) =>
      assert PcOk(w, w.threads[t]);
      SetThread(w, t, Idle).(slots := w.slots[w.threads[t].slot := w.threads[t].result])
    case DetachSlot(t, slot) =>
      SetThread(w, t, Detaching(slot, w.slots[slot].value, None)).(slots := w.slots[slot := None])
    case Adopt(slot, other) => w.(slots := w.slots[slot := w.slots[other]][other := None])
    case Update(maps) => if w.alive then w.(enabled := maps) else w
    case AddMap(retain) => w.(maps := w.maps + [NewMap(retain)])
    case DestroyMapOf(m) => w.(maps := w.maps[m := Destroy(w.maps[m])])
    case DestroyFactory => w.(alive := false, enabled := [])
  }

  /**
   The ownership rule: no observer is asked for once the factory is destroyed, except into a slot that has none,
   and a slot adopts another's observer only while it has none itself.
   */
  ghost predicate Owned(w: World, a: Action)
    requires Enabled(w, a)
  {
    && (a.Observe? && !w.alive ==> w.slots[a.slot].None?)
    && (a.Adopt? ==> w.slots[a.slot].None?)
  }
}

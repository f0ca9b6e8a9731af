/** What observers end up with: an entry of every enabled map that has a key for the helper, and of no other. */
module ObserversEffects {
  import opened Prelude
  import opened MetricsMap
  import opened MetricsRetention
  import opened MetricsAnswers
  import opened Observers
  import opened ObserversProofs

  // --------------------------------------------------------------- what a loop over the maps gathers

  /** The maps a loop is to visit, the keys that those visited so far made of the helper, and which of them were destroyed. */
  datatype Visits = Visits(maps: seq<nat>, keys: seq<Option<Key>>, gone: seq<bool>)

  predicate VisitsOk(v: Visits) {
    |v.keys| == |v.gone| <= |v.maps| && DistinctNats(v.maps)
  }

  /** The observer has an entry of the map iff the map was not destroyed and made a key of the helper: the one of that key. */
  ghost predicate RightEntry(maps: seq<MapState>, objects: Objects, m: nat, key: Option<Key>, gone: bool) {
    var entry := EntryFor(objects, m);
    && (entry.Some? <==> key.Some? && !gone)
    && (entry.Some? ==> m < |maps| && entry.value in maps[m].entries && key == Some(maps[m].entries[entry.value].id))
  }

  /** The right entry of every map visited, and no other entry. */
  ghost predicate Gathered(maps: seq<MapState>, v: Visits, objects: Objects) {
    && VisitsOk(v) && DistinctMaps(objects)
    && (forall r <- objects :: r.map_ in v.maps[..|v.keys|])
    && (forall p | 0 <= p < |v.keys| :: RightEntry(maps, objects, v.maps[p], v.keys[p], v.gone[p]))
  }

  /** In other words: exactly one entry of each map that was not destroyed and had a key, and nothing else. */
  lemma {:induction false} GatheredMeans(maps: seq<MapState>, v: Visits, objects: Objects, m: nat, e: EntryId)
    requires Gathered(maps, v, objects)
    ensures Ref(m, e) in objects <==> m in v.maps[..|v.keys|] && EntryFor(objects, m) == Some(e)
    ensures Ref(m, e) in objects ==>
              exists p :: 0 <= p < |v.keys| && v.maps[p] == m < |maps| && e in maps[m].entries && !v.gone[p] &&
                          v.keys[p] == Some(maps[m].entries[e].id)
    ensures forall p | 0 <= p < |v.keys| && v.keys[p].Some? && !v.gone[p] ::
              Ref(v.maps[p], EntryFor(objects, v.maps[p]).value) in objects
  {
    EntryForIs(objects, m);
    if Ref(m, e) in objects {
      var i :| 0 <= i < |objects| && objects[i] == Ref(m, e);
      var p :| 0 <= p < |v.keys| && v.maps[p] == m;
      assert RightEntry(maps, objects, v.maps[p], v.keys[p], v.gone[p]);
    }
    forall p | 0 <= p < |v.keys| && v.keys[p].Some? && !v.gone[p]
      ensures Ref(v.maps[p], EntryFor(objects, v.maps[p]).value) in objects
    {
      assert RightEntry(maps, objects, v.maps[p], v.keys[p], v.gone[p]);
      EntryForIs(objects, v.maps[p]);
    }
  }

  ghost predicate NoneWanted(v: Visits)
    requires VisitsOk(v)
  {
    forall p | 0 <= p < |v.keys| :: v.keys[p].None? || v.gone[p]
  }

  /** No map loses an entry, and no entry its id. */
  ghost predicate IdsKept(a: seq<MapState>, b: seq<MapState>) {
    |a| <= |b| && forall m, e | 0 <= m < |a| && e in a[m].entries ::
      e in b[m].entries && b[m].entries[e].id == a[m].entries[e].id
  }

  lemma {:induction false} RightEntryStays(a: seq<MapState>, b: seq<MapState>, objects: Objects, m: nat, key: Option<Key>, gone: bool)
    requires RightEntry(a, objects, m, key, gone) && IdsKept(a, b)
    ensures RightEntry(b, objects, m, key, gone)
  {
  }

  lemma {:induction false} GatheredStays(a: seq<MapState>, b: seq<MapState>, v: Visits, objects: Objects)
    requires Gathered(a, v, objects) && IdsKept(a, b)
    ensures Gathered(b, v, objects)
  {
    forall p | 0 <= p < |v.keys|
      ensures RightEntry(b, objects, v.maps[p], v.keys[p], v.gone[p])
    {
      RightEntryStays(a, b, objects, v.maps[p], v.keys[p], v.gone[p]);
    }
  }

  lemma {:induction false} EntryForMore(objects: Objects, more: Objects, m: nat)
    ensures EntryFor(objects + more, m) == if EntryFor(objects, m).Some? then EntryFor(objects, m) else EntryFor(more, m)
  {
    if objects == [] {
      assert objects + more == more;
    } else {
      EntryForMore(objects[1..], more, m);
      assert (objects + more)[1..] == objects[1..] + more;
    }
  }

  /** What one more visit adds: the entry of the key, if there is to be one. */
  ghost predicate Added(maps: seq<MapState>, m: nat, key: Option<Key>, gone: bool, more: Objects) {
    if key.Some? && !gone then
      |more| == 1 && more[0].map_ == m < |maps| && more[0].entry in maps[m].entries &&
      maps[m].entries[more[0].entry].id == key.value
    else more == []
  }

  function Visited(v: Visits, key: Option<Key>, gone: bool): Visits {
    v.(keys := v.keys + [key], gone := v.gone + [gone])
  }

  lemma {:induction false} GatherOne(maps: seq<MapState>, v: Visits, objects: Objects, key: Option<Key>, gone: bool, more: Objects)
    requires Gathered(maps, v, objects) && |v.keys| < |v.maps| && Added(maps, v.maps[|v.keys|], key, gone, more)
    ensures Gathered(maps, Visited(v, key, gone), objects + more)
  {
    var v', n := Visited(v, key, gone), |v.keys|;
    assert v.maps[..n + 1] == v.maps[..n] + [v.maps[n]];
    assert v.maps[n] !in v.maps[..n];
    NotYetVisited(maps, v, objects, v.maps[n]);
    assert forall r <- more :: r.map_ == v.maps[n];
    forall p | 0 <= p <= n
      ensures RightEntry(maps, objects + more, v.maps[p], v'.keys[p], v'.gone[p])
    {
      EntryForMore(objects, more, v.maps[p]);
      if p < n {
        assert RightEntry(maps, objects, v.maps[p], v.keys[p], v.gone[p]);
        assert EntryFor(more, v.maps[p]) == None;
      }
    }
  }

  lemma {:induction false} NotYetVisited(maps: seq<MapState>, v: Visits, objects: Objects, m: nat)
    requires Gathered(maps, v, objects) && m !in v.maps[..|v.keys|]
    ensures EntryFor(objects, m) == None && forall r <- objects :: r.map_ != m
  {
    EntryForIs(objects, m);
  }

  lemma {:induction false} NothingGathered(maps: seq<MapState>, v: Visits, objects: Objects)
    requires Gathered(maps, v, objects)
    ensures objects == [] <==> NoneWanted(v)
  {
    if objects != [] {
      assert objects[0] in objects;
      var p :| 0 <= p < |v.keys| && v.maps[p] == objects[0].map_;
      assert RightEntry(maps, objects, v.maps[p], v.keys[p], v.gone[p]);
    } else {
      forall p | 0 <= p < |v.keys|
        ensures v.keys[p].None? || v.gone[p]
      {
        assert RightEntry(maps, objects, v.maps[p], v.keys[p], v.gone[p]);
      }
    }
  }

  // --------------------------------------------------------------- ids in the transition system

  lemma {:induction false} MatchIds(w: World, a: Action)
    requires Inv(w) && Enabled(w, a) && a.MatchNext?
    ensures IdsKept(w.maps, Apply(w, a).maps)
  {
    ReadyToMatch(w, a);
    var pc := w.threads[a.t];
    MatchAnswers(w.maps[pc.todo[0]], a.key, Previous(pc.prior, pc.todo[0]), a.newborn);
  }

  lemma {:induction false} DetachIds(w: World, a: Action)
    requires Inv(w) && Enabled(w, a) && a.DetachNext?
    ensures IdsKept(w.maps, Apply(w, a).maps)
  {
    ReadyToDetach(w, a);
    var r := w.threads[a.t].leaving[0];
    DetachTakes(w.maps[r.map_], r.entry);
  }

  lemma {:induction false} StepIds(w: World, a: Action)
    requires Inv(w) && Enabled(w, a)
    ensures IdsKept(w.maps, Apply(w, a).maps)
  {
    match a
    case MatchNext(_, _, _) => MatchIds(w, a);
    case DetachNext(_) => DetachIds(w, a);
    case _ =>
  }

  // --------------------------------------------------------------- getObserver() from its first step to its last

  /** A call of getObserver() as its history tells it: for which slot, in place of what, and what the maps said. */
  datatype Errand = Errand(slot: nat, prior: Option<Objects>, visits: Visits)

  /** The errand a thread is on after one more step. */
  ghost function ErrandNext(w: World, a: Action, t: nat, er: Option<Errand>): Option<Errand>
    requires Enabled(w, a)
  {
    match a
    case Observe(u, slot) =>
      if u == t && w.alive then Some(Errand(slot, w.slots[slot], Visits(w.enabled, [], []))) else er
    case MatchNext(u, key, _) =>
      if u == t && er.Some? && |er.value.visits.keys| < |er.value.visits.maps| then
        var v := er.value.visits;
        var m := v.maps[|v.keys|];
        Some(er.value.(visits := Visited(v, key, m < |w.maps| && w.maps[m].destroyed)))
      else er
    case Finish(u) => if u == t then None else er
    case _ => er
  }

  ghost function ErrandOf(w: World, acts: seq<Action>, t: nat, er: Option<Errand>): Option<Errand>
    requires Inv(w) && OwnedRun(w, acts)
    decreases |acts|
  {
    if acts == [] then er
    else
      StepConserves(w, acts[0]);
      ErrandOf(Apply(w, acts[0]), acts[1..], t, ErrandNext(w, acts[0], t, er))
  }

  /** The thread is in getObserver()'s loop iff it is on an errand, has gathered what it should, and has the rest to visit. */
  ghost predicate OnErrand(w: World, t: nat, er: Option<Errand>)
    requires t < |w.threads|
  {
    var pc := w.threads[t];
    && (pc.Building? <==> er.Some?)
    && (er.Some? ==>
          && pc.slot == er.value.slot && pc.prior == er.value.prior
          && Gathered(w.maps, er.value.visits, pc.acquired)
          && pc.todo == er.value.visits.maps[|er.value.visits.keys|..])
  }

  lemma {:induction false} NothingYet(w: World)
    requires Ordered(w)
    ensures Gathered(w.maps, Visits(w.enabled, [], []), [])
  {
  }

  /** What getMatching() finds is an entry whose id is the key. */
  lemma {:induction false} FoundHasKey(s: MapState, s': MapState, key: Option<Key>, newborn: EntryId, found: Option<EntryId>)
    requires MapInv(s) && Answered(s, s', key, newborn, found)
    ensures found.Some? ==> found.value in s'.entries && key == Some(s'.entries[found.value].id)
  {
  }

  lemma {:induction false} MatchAdds(w: World, a: Action) returns (more: Objects)
    requires Inv(w) && Enabled(w, a) && a.MatchNext?
    ensures var w', pc := Apply(w, a), w.threads[a.t];
            && Added(w'.maps, pc.todo[0], a.key, w.maps[pc.todo[0]].destroyed, more)
            && w'.threads[a.t] == Building(pc.slot, pc.prior, pc.todo[1..], pc.acquired + more)
  {
    ReadyToMatch(w, a);
    var pc := w.threads[a.t];
    var m := pc.todo[0];
    var (s', found) := GetMatching(w.maps[m], a.key, Previous(pc.prior, m), a.newborn);
    MatchAnswers(w.maps[m], a.key, Previous(pc.prior, m), a.newborn);
    FoundHasKey(w.maps[m], s', a.key, a.newborn, found);
    more := if found.Some? then [Ref(m, found.value)] else [];
    assert pc.acquired + [] == pc.acquired;
  }

  lemma {:induction false} OneVisitOn(before: seq<MapState>, after: seq<MapState>, v: Visits, objects: Objects,
    key: Option<Key>, gone: bool, more: Objects, todo: seq<nat>)
    requires Gathered(before, v, objects) && IdsKept(before, after)
    requires todo == v.maps[|v.keys|..] && todo != [] && Added(after, todo[0], key, gone, more)
    ensures Gathered(after, Visited(v, key, gone), objects + more)
    ensures todo[1..] == Visited(v, key, gone).maps[|v.keys| + 1..]
  {
    GatheredStays(before, after, v, objects);
    GatherOne(after, v, objects, key, gone, more);
  }

  lemma {:induction false} OnErrandAfter(w: World, w': World, t: nat, er: Errand, key: Option<Key>, gone: bool, more: Objects)
    requires t < |w.threads| == |w'.threads| && OnErrand(w, t, Some(er)) && IdsKept(w.maps, w'.maps)
    requires w.threads[t].Building? && w.threads[t].todo != [] && Added(w'.maps, w.threads[t].todo[0], key, gone, more)
    requires var pc := w.threads[t]; w'.threads[t] == Building(pc.slot, pc.prior, pc.todo[1..], pc.acquired + more)
    ensures OnErrand(w', t, Some(er.(visits := Visited(er.visits, key, gone))))
  {
    OneVisitOn(w.maps, w'.maps, er.visits, w.threads[t].acquired, key, gone, more, w.threads[t].todo);
  }

  lemma {:induction false} NextVisit(w: World, a: Action, er: Errand)
    requires Enabled(w, a) && a.MatchNext? && OnErrand(w, a.t, Some(er))
    ensures var m := w.threads[a.t].todo[0];
            ErrandNext(w, a, a.t, Some(er)) == Some(er.(visits := Visited(er.visits, a.key, w.maps[m].destroyed)))
  {
    assert w.threads[a.t].todo[0] == er.visits.maps[|er.visits.keys|];
  }

  lemma {:induction false} VisitMade(w: World, a: Action, er: Errand)
    requires Inv(w) && Enabled(w, a) && a.MatchNext? && OnErrand(w, a.t, Some(er))
    ensures a.t < |Apply(w, a).threads| && OnErrand(Apply(w, a), a.t, ErrandNext(w, a, a.t, Some(er)))
  {
    var more := MatchAdds(w, a);
    MatchIds(w, a);
    ThreadsStay(w, a);
    NextVisit(w, a, er);
    OnErrandAfter(w, Apply(w, a), a.t, er, a.key, w.maps[w.threads[a.t].todo[0]].destroyed, more);
  }

  lemma {:induction false} ErrandGoesOn(w: World, a: Action, t: nat, er: Option<Errand>)
    requires Inv(w) && Enabled(w, a) && t < |w.threads| && OnErrand(w, t, er)
    ensures OnErrand(Apply(w, a), t, ErrandNext(w, a, t, er))
  {
    StepIds(w, a);
    if a.MatchNext? && a.t == t {
      VisitMade(w, a, er.value);
    } else if a.Observe? && a.t == t && w.alive {
      NothingYet(w);
    } else if er.Some? && !(a.Finish? && a.t == t) {
      assert Apply(w, a).threads[t] == w.threads[t];
      GatheredStays(w.maps, Apply(w, a).maps, er.value.visits, w.threads[t].acquired);
    }
  }

  lemma {:induction false} ThreadsStay(w: World, a: Action)
    requires Inv(w) && Enabled(w, a)
    ensures |Apply(w, a).threads| == |w.threads| && |Apply(w, a).slots| == |w.slots|
  {
  }

  lemma {:induction false} RunKeepsErrand(w: World, acts: seq<Action>, t: nat, er: Option<Errand>)
    requires Inv(w) && OwnedRun(w, acts) && t < |w.threads| && OnErrand(w, t, er)
    ensures Inv(Final(w, acts)) && t < |Final(w, acts).threads|
    ensures OnErrand(Final(w, acts), t, ErrandOf(w, acts, t, er))
    decreases |acts|
  {
    if acts != [] {
      StepConserves(w, acts[0]);
      ThreadsStay(w, acts[0]);
      ErrandGoesOn(w, acts[0], t, er);
      RunKeepsErrand(Apply(w, acts[0]), acts[1..], t, ErrandNext(w, acts[0], t, er));
    }
  }

  /**
   What a call of getObserver() is about to return, and to detach first: an observer with an entry of every map that
   was enabled when the call began, unless it was destroyed or had no key for the helper; none if there is no such map;
   and the replaced observer leaves exactly the entries that the new one does not have.
   */
  ghost predicate Delivered(maps: seq<MapState>, er: Errand, pc: Pc)
    requires VisitsOk(er.visits)
  {
    && pc.Detaching? && pc.slot == er.slot
    && |er.visits.keys| == |er.visits.maps|
    && (pc.result.None? <==> NoneWanted(er.visits))
    && (pc.result.Some? ==> Gathered(maps, er.visits, pc.result.value))
    && (forall r :: r in pc.leaving <==>
                      er.prior.Some? && r in er.prior.value && !(pc.result.Some? && r in pc.result.value))
  }

  /** In every interleaved run that keeps the ownership rule, getObserver() delivers that. */
  lemma {:induction false} EveryMapIsVisited(w: World, acts: seq<Action>, t: nat)
    requires Start(w) && t < |w.threads| && (StartInv(w); OwnedRun(w, acts) && Enabled(Final(w, acts), Finish(t)))
    ensures (StartInv(w); RunConserves(w, acts);
             var er := ErrandOf(w, acts, t, None);
             er.Some? && VisitsOk(er.value.visits) &&
             Delivered(Final(w, acts).maps, er.value, Apply(Final(w, acts), Finish(t)).threads[t]))
  {
    StartInv(w);
    RunConserves(w, acts);
    RunKeepsErrand(w, acts, t, None);
    var f, er := Final(w, acts), ErrandOf(w, acts, t, None);
    var pc := f.threads[t];
    NothingGathered(f.maps, er.value.visits, pc.acquired);
    if pc.prior.Some? {
      DroppedIs(pc.prior.value, pc.acquired);
    }
  }

  /** Whatever an observer holds is indexed under its key, unless its map was destroyed. */
  lemma {:induction false} HeldIsIndexed(w: World, o: int, r: Ref)
    requires Inv(w) && -|w.threads| <= o < |w.slots| && Owns(w, o, r)
    requires r.map_ < |w.maps| && r.entry in w.maps[r.map_].entries
    ensures w.maps[r.map_].destroyed || Indexed(w.maps[r.map_], r.entry)
  {
    HeldIsAttached(w, o, r);
    assert EntryOk(w.maps[r.map_], r.entry);
  }

  // --------------------------------------------------------------- the other steps

  /** Which slots a step empties or fills. */
  lemma {:induction false} SlotsAfter(w: World, a: Action, i: nat)
    requires Inv(w) && Enabled(w, a) && i < |w.slots|
    ensures i < |Apply(w, a).slots|
    ensures Apply(w, a).slots[i] ==
            match a
            case Observe(_, slot) => if i == slot then None else w.slots[i]
            case DetachSlot(_, slot) => if i == slot then None else w.slots[i]
            case Install(t) => if i == w.threads[t].slot then w.threads[t].result else w.slots[i]
            case Adopt(slot, other) => if i == other then None else if i == slot then w.slots[other] else w.slots[i]
            case _ => w.slots[i]
  {
  }

  /** The list of enabled maps, and whether the factory goes on, are what the admin and the communicator say last. */
  lemma {:induction false} FactoryAfter(w: World, a: Action)
    requires Inv(w) && Enabled(w, a)
    ensures Apply(w, a).enabled ==
            match a
            case Update(maps) => if w.alive then maps else w.enabled
            case DestroyFactory => []
            case _ => w.enabled
    ensures Apply(w, a).alive <==> w.alive && !a.DestroyFactory?
  {
  }

  /** A map is made empty with the retention it is given, keeps that, and is destroyed when the admin says so. */
  lemma {:induction false} MapsAfter(w: World, a: Action)
    requires Inv(w) && Enabled(w, a)
    ensures var w' := Apply(w, a);
            && |w'.maps| == |w.maps| + (if a.AddMap? then 1 else 0)
            && (a.AddMap? ==> w'.maps[|w.maps|] == MapState(map[], [], map[], a.retain, false, 0))
            && (forall m | 0 <= m < |w.maps| ::
                  && w'.maps[m].retain == w.maps[m].retain
                  && (w'.maps[m].destroyed <==> w.maps[m].destroyed || a == DestroyMapOf(m)))
  {
    match a
    case MatchNext(_, _, _) => MatchedMap(w, a);
    case DetachNext(_) => DetachedMap(w, a);
    case _ =>
  }

  ghost predicate SameMap(s: MapState, s': MapState) {
    s'.retain == s.retain && s'.destroyed == s.destroyed
  }

  ghost predicate SameMaps(w: World, w': World) {
    |w'.maps| == |w.maps| && forall m | 0 <= m < |w.maps| :: SameMap(w.maps[m], w'.maps[m])
  }

  lemma {:induction false} MatchedMap(w: World, a: Action)
    requires Inv(w) && Enabled(w, a) && a.MatchNext?
    ensures SameMaps(w, Apply(w, a))
  {
    ReadyToMatch(w, a);
    var pc := w.threads[a.t];
    MatchAnswers(w.maps[pc.todo[0]], a.key, Previous(pc.prior, pc.todo[0]), a.newborn);
  }

  lemma {:induction false} DetachedMap(w: World, a: Action)
    requires Inv(w) && Enabled(w, a) && a.DetachNext?
    ensures SameMaps(w, Apply(w, a))
  {
    ReadyToDetach(w, a);
    var r := w.threads[a.t].leaving[0];
    DetachTakes(w.maps[r.map_], r.entry);
  }

  ghost predicate StepOf(a: Action, t: nat) {
    (a.Observe? || a.MatchNext? || a.Finish? || a.DetachNext? || a.Install? || a.DetachSlot?) && a.t == t
  }

  /** Only the thread that takes a step moves; detach() takes the entries that leave one after the other. */
  lemma {:induction false} ThreadsAfter(w: World, a: Action, t: nat)
    requires Inv(w) && Enabled(w, a) && t < |w.threads|
    ensures t < |Apply(w, a).threads|
    ensures var pc, pc' := w.threads[t], Apply(w, a).threads[t];
            && (!StepOf(a, t) ==> pc' == pc)
            && (a == Install(t) ==> pc' == Idle)
            && (a == DetachNext(t) ==> pc' == Detaching(pc.slot, pc.leaving[1..], pc.result))
            && (a.DetachSlot? && a.t == t ==> pc' == Detaching(a.slot, w.slots[a.slot].value, None))
            && (a.Observe? && a.t == t ==> if w.alive then pc'.Building? && pc'.slot == a.slot && pc'.acquired == [] else pc' == Idle)
  {
  }

  /** Attachment counts move by one: down for the next entry that leaves, up for an entry that was not held before. */
  ghost function Moved(w: World, a: Action, r: Ref): int
    requires Inv(w) && Enabled(w, a)
  {
    if a.DetachNext? && w.threads[a.t].leaving[0] == r then -1
    else if a.MatchNext? && r.map_ == w.threads[a.t].todo[0] && !Has(w.threads[a.t], r) && Has(Apply(w, a).threads[a.t], r) then 1
    else 0
  }

  lemma {:induction false} HasAfterMatch(w: World, a: Action, r: Ref)
    requires Inv(w) && Enabled(w, a) && a.MatchNext?
    ensures Has(Apply(w, a).threads[a.t], r) <==>
            Has(w.threads[a.t], r) || (r.map_ == w.threads[a.t].todo[0] && FoundBy(w, a) == Some(r.entry))
  {
  }

  lemma {:induction false} MatchMoves(w: World, a: Action, m: nat, e: EntryId)
    requires Inv(w) && Enabled(w, a) && a.MatchNext? && m < |w.maps| && e in w.maps[m].entries
    ensures var w' := Apply(w, a);
            m < |w'.maps| && e in w'.maps[m].entries &&
            w'.maps[m].entries[e].current - w.maps[m].entries[e].current == Moved(w, a, Ref(m, e))
  {
    FoundIsNew(w, a);
    HasAfterMatch(w, a, Ref(m, e));
    var pc := w.threads[a.t];
    MatchCounts(w.maps[pc.todo[0]], a.key, Previous(pc.prior, pc.todo[0]), a.newborn);
  }

  lemma {:induction false} CountsMove(w: World, a: Action, m: nat, e: EntryId)
    requires Inv(w) && Enabled(w, a) && m < |w.maps| && e in w.maps[m].entries
    ensures var w' := Apply(w, a);
            m < |w'.maps| && e in w'.maps[m].entries &&
            w'.maps[m].entries[e].current - w.maps[m].entries[e].current == Moved(w, a, Ref(m, e))
  {
    match a
    case MatchNext(_, _, _) => MatchMoves(w, a, m, e);
    case DetachNext(t) =>
      ReadyToDetach(w, a);
      var r := w.threads[t].leaving[0];
      DetachCounts(w.maps[r.map_], r.entry);
    case _ =>
  }

  // --------------------------------------------------------------- over whole runs

  /** Until the next update, and unless the factory is destroyed, the enabled maps are those of the last one. */
  lemma {:induction false} LastUpdateHolds(w: World, maps: seq<nat>, rest: seq<Action>)
    requires Inv(w) && w.alive && OwnedRun(w, [Update(maps)] + rest)
    requires forall a <- rest :: !a.Update? && !a.DestroyFactory?
    ensures Final(w, [Update(maps)] + rest).alive && Final(w, [Update(maps)] + rest).enabled == maps
  {
    StepConserves(w, Update(maps));
    assert ([Update(maps)] + rest)[1..] == rest;
    FactoryAfter(w, Update(maps));
    EnabledStay(Apply(w, Update(maps)), rest);
  }

  lemma {:induction false} EnabledStay(w: World, acts: seq<Action>)
    requires Inv(w) && OwnedRun(w, acts) && forall a <- acts :: !a.Update? && !a.DestroyFactory?
    ensures Final(w, acts).enabled == w.enabled && Final(w, acts).alive == w.alive
    decreases |acts|
  {
    if acts != [] {
      StepConserves(w, acts[0]);
      assert acts[0] in acts;
      FactoryAfter(w, acts[0]);
      EnabledStay(Apply(w, acts[0]), acts[1..]);
    }
  }

  /** A factory that was destroyed has no maps and makes no observers, whatever updates still come. */
  lemma {:induction false} DestroyedForGood(w: World, rest: seq<Action>)
    requires Inv(w) && OwnedRun(w, [DestroyFactory] + rest)
    ensures !Final(w, [DestroyFactory] + rest).alive && Final(w, [DestroyFactory] + rest).enabled == []
  {
    StepConserves(w, DestroyFactory);
    assert ([DestroyFactory] + rest)[1..] == rest;
    FactoryAfter(w, DestroyFactory);
    StaysDestroyed(Apply(w, DestroyFactory), rest);
  }

  lemma {:induction false} StaysDestroyed(w: World, acts: seq<Action>)
    requires Inv(w) && OwnedRun(w, acts) && !w.alive && w.enabled == []
    ensures !Final(w, acts).alive && Final(w, acts).enabled == []
    decreases |acts|
  {
    if acts != [] {
      StepConserves(w, acts[0]);
      FactoryAfter(w, acts[0]);
      StaysDestroyed(Apply(w, acts[0]), acts[1..]);
    }
  }

  /** A map is destroyed when the run destroys it, and by nothing else; its retention never changes. */
  lemma {:induction false} MapDestroyedIff(w: World, acts: seq<Action>, m: nat)
    requires Inv(w) && OwnedRun(w, acts) && m < |w.maps|
    ensures var f := Final(w, acts);
            && m < |f.maps| && f.maps[m].retain == w.maps[m].retain
            && (f.maps[m].destroyed <==> w.maps[m].destroyed || DestroyMapOf(m) in acts)
    decreases |acts|
  {
    if acts != [] {
      StepConserves(w, acts[0]);
      MapsAfter(w, acts[0]);
      MapDestroyedIff(Apply(w, acts[0]), acts[1..], m);
      assert DestroyMapOf(m) in acts <==> acts[0] == DestroyMapOf(m) || DestroyMapOf(m) in acts[1..];
    }
  }

  predicate NamesSlot(a: Action, i: nat) {
    (a.Observe? && a.slot == i) || (a.DetachSlot? && a.slot == i) || (a.Adopt? && (a.slot == i || a.other == i))
  }

  /** A slot keeps its observer while no call that names the slot is made or under way. */
  lemma {:induction false} SlotHolds(w: World, acts: seq<Action>, i: nat)
    requires Inv(w) && OwnedRun(w, acts) && Free(w, i) && forall a <- acts :: !NamesSlot(a, i)
    ensures Free(Final(w, acts), i) && Final(w, acts).slots[i] == w.slots[i]
    decreases |acts|
  {
    if acts != [] {
      var a := acts[0];
      assert a in acts;
      StepConserves(w, a);
      StaysFree(w, a, i);
      assert forall b <- acts[1..] :: b in acts;
      SlotHolds(Apply(w, a), acts[1..], i);
    }
  }

  lemma {:induction false} StaysFree(w: World, a: Action, i: nat)
    requires Inv(w) && Enabled(w, a) && Free(w, i) && !NamesSlot(a, i)
    ensures Free(Apply(w, a), i) && Apply(w, a).slots[i] == w.slots[i]
  {
    SlotsAfter(w, a, i);
    ThreadsStay(w, a);
    forall t | 0 <= t < |w.threads|
      ensures !Busy(Apply(w, a).threads[t], i)
    {
      SlotOfThread(w, a, t);
      assert !Busy(w.threads[t], i);
    }
    assert a.Install? ==> !Busy(w.threads[a.t], i);
  }

  /** A thread is busy with the slot of the call it was given. */
  lemma {:induction false} SlotOfThread(w: World, a: Action, t: nat)
    requires Inv(w) && Enabled(w, a) && t < |w.threads|
    ensures t < |Apply(w, a).threads|
    ensures var pc, pc' := w.threads[t], Apply(w, a).threads[t];
            pc'.Idle? || (!pc.Idle? && pc'.slot == pc.slot) || ((a.Observe? || a.DetachSlot?) && a.t == t && pc'.slot == a.slot)
  {
    ThreadsStay(w, a);
  }
}

/**
 The factory's and the observers' loops, statement by statement, on the states of the maps they work on.
 The contracts say which entries observers get, and how the attachment counts move, entry by entry.
 */
module ObserversClass {
  import opened Prelude
  import opened MetricsMap
  import opened MetricsRetention
  import opened MetricsAnswers
  import opened Observers
  import opened ObserversProofs
  import opened ObserversEffects

  /** The attachment count of an entry; entries that do not exist yet count zero. */
  ghost function CountOf(maps: seq<MapState>, r: Ref): int {
    if r.map_ < |maps| && r.entry in maps[r.map_].entries then maps[r.map_].entries[r.entry].current else 0
  }

  /** An observer that is in use: one entry per map, each of them attached. */
  ghost predicate InUse(maps: seq<MapState>, objects: Objects) {
    ObjectsOk(maps, objects) && forall r <- objects :: CountOf(maps, r) > 0
  }

  function One(b: bool): int { if b then 1 else 0 }

  ghost predicate SameIds(s: MapState, s': MapState) {
    s'.destroyed == s.destroyed && forall e <- s.entries :: e in s'.entries && s'.entries[e].id == s.entries[e].id
  }

  /** Nothing but counts and retention has changed. */
  ghost predicate SameEntries(a: seq<MapState>, b: seq<MapState>) {
    |a| == |b| && forall m | 0 <= m < |a| :: SameIds(a[m], b[m]) && b[m].entries.Keys == a[m].entries.Keys
  }

  /** Entries were added, and the index still has what it had. */
  ghost predicate MoreEntries(a: seq<MapState>, b: seq<MapState>) {
    |a| == |b| && forall m | 0 <= m < |a| :: SameIds(a[m], b[m]) && IndexGrows(a[m], b[m])
  }

  ghost predicate IndexGrows(s: MapState, s': MapState) {
    forall k <- s.objects :: k in s'.objects && s'.objects[k] == s.objects[k]
  }

  /** Which of the enabled maps are destroyed. */
  ghost function GoneOf(maps: seq<MapState>, enabled: seq<nat>): seq<bool> {
    seq(|enabled|, p requires 0 <= p < |enabled| => enabled[p] < |maps| && maps[enabled[p]].destroyed)
  }

  /** Counts of one map change, those of the others stay. */
  lemma {:induction false} CountsAfter(maps: seq<MapState>, m: nat, s': MapState, q: Ref)
    requires m < |maps|
    ensures CountOf(maps[m := s'], q) ==
            if q.map_ != m then CountOf(maps, q) else if q.entry in s'.entries then s'.entries[q.entry].current else 0
  {
  }

  /** detach() lowers one count. */
  lemma {:induction false} DetachOne(maps: seq<MapState>, r: Ref)
    requires r.map_ < |maps| && MapInv(maps[r.map_]) && CountOf(maps, r) > 0
    ensures forall i | 0 <= i < |maps[r.map_].queue| :: maps[r.map_].queue[i].entry in maps[r.map_].entries
    ensures var maps' := maps[r.map_ := DetachEntry(maps[r.map_], r.entry)];
            && MapInv(maps'[r.map_]) && SameEntries(maps, maps')
            && (forall q :: CountOf(maps', q) == CountOf(maps, q) - One(q == r))
  {
    DetachCounts(maps[r.map_], r.entry);
    DetachTakes(maps[r.map_], r.entry);
    var s' := DetachEntry(maps[r.map_], r.entry);
    forall q
      ensures CountOf(maps[r.map_ := s'], q) == CountOf(maps, q) - One(q == r)
    {
      CountsAfter(maps, r.map_, s', q);
    }
  }

  /** getMatching() raises at most one count: that of an entry it returns and that was not passed in. */
  lemma {:induction false} MatchOne(maps: seq<MapState>, m: nat, key: Option<Key>, previous: Option<EntryId>, newborn: EntryId)
    requires m < |maps| && MapInv(maps[m]) && MatchOk(maps[m], previous, newborn)
    ensures var (s', found) := GetMatching(maps[m], key, previous, newborn);
            var maps' := maps[m := s'];
            && MapInv(s') && s'.entries.Keys <= maps[m].entries.Keys + {newborn}
            && (found.Some? ==> CountOf(maps', Ref(m, found.value)) > 0)
            && (forall q :: CountOf(maps', q) == CountOf(maps, q) +
                                                 One(q.map_ == m && found == Some(q.entry) && found != previous))
  {
    MatchRefines(maps[m], key, previous, newborn);
    MatchCounts(maps[m], key, previous, newborn);
    var (s', found) := GetMatching(maps[m], key, previous, newborn);
    MatchedOne(maps, m, s', previous, newborn, found);
  }

  /** getMatching() returns an entry iff there is a key and the map goes on, and then one whose id is the key. */
  lemma {:induction false} MatchFinds(maps: seq<MapState>, m: nat, key: Option<Key>, previous: Option<EntryId>, newborn: EntryId)
    requires m < |maps| && MapInv(maps[m]) && MatchOk(maps[m], previous, newborn)
    ensures var (s', found) := GetMatching(maps[m], key, previous, newborn);
            && MoreEntries(maps, maps[m := s'])
            && (found.Some? <==> key.Some? && !maps[m].destroyed)
            && (found.Some? ==> found.value in s'.entries && key == Some(s'.entries[found.value].id))
  {
    MatchAnswers(maps[m], key, previous, newborn);
    var (s', found) := GetMatching(maps[m], key, previous, newborn);
    FoundHasKey(maps[m], s', key, newborn, found);
  }

  lemma {:induction false} MatchedOne(maps: seq<MapState>, m: nat, s': MapState, previous: Option<EntryId>,
    newborn: EntryId, found: Option<EntryId>)
    requires m < |maps| && MapInv(maps[m]) && MatchOk(maps[m], previous, newborn)
    requires Matched(maps[m], s', previous, newborn, found)
    ensures found.Some? ==> found.value in s'.entries && CountOf(maps[m := s'], Ref(m, found.value)) > 0
    ensures forall q :: CountOf(maps[m := s'], q) == CountOf(maps, q) +
                                                     One(q.map_ == m && found == Some(q.entry) && found != previous)
  {
    forall q
      ensures CountOf(maps[m := s'], q) == CountOf(maps, q) + One(q.map_ == m && found == Some(q.entry) && found != previous)
    {
      CountsAfter(maps, m, s', q);
    }
    if found.Some? && found.value in maps[m].entries {
      assert EntryOk(maps[m], found.value);
    }
  }

  class ObserverFactory {
    var maps: seq<MapState>      // the state of every map there is
    var enabled: seq<nat>        // _maps
    var alive: bool              // _metrics != 0
    var nextEntry: EntryId

    ghost predicate Valid()
      reads this
    {
      && DistinctNats(enabled) && (forall m <- enabled :: m < |maps|)
      && (forall m | 0 <= m < |maps| :: MapInv(maps[m]) && forall e <- maps[m].entries :: e < nextEntry)
    }

    /** ObserverT::getEntry(map) */
    method GetEntry(objects: Objects, m: nat) returns (entry: Option<EntryId>)
      ensures entry == EntryFor(objects, m)
    {
      var p := 0;
      while p < |objects|
        invariant p <= |objects| && EntryFor(objects, m) == EntryFor(objects[p..], m)
      {
        if objects[p].map_ == m {
          return Some(objects[p].entry);
        }
        p := p + 1;
      }
      return None;
    }

    /** EntryT::detach() */
    method DetachEntryOf(r: Ref)
      requires Valid() && CountOf(maps, r) > 0
      modifies this`maps
      ensures Valid() && SameEntries(old(maps), maps)
      ensures forall q :: CountOf(maps, q) == old(CountOf(maps, q)) - One(q == r)
    {
      DetachOne(maps, r);
      maps := maps[r.map_ := DetachEntry(maps[r.map_], r.entry)];
    }

    /** ObserverT::detach() */
    method DetachObserver(objects: Objects)
      requires Valid() && InUse(maps, objects)
      modifies this`maps
      ensures Valid() && SameEntries(old(maps), maps)
      ensures forall r :: CountOf(maps, r) == old(CountOf(maps, r)) - One(r in objects)
    {
      var p := 0;
      while p < |objects|
        invariant p <= |objects| && Valid() && SameEntries(old(maps), maps)
        invariant forall r :: CountOf(maps, r) == old(CountOf(maps, r)) - One(r in objects[..p])
      {
        DetachEntryOf(objects[p]);
        p := p + 1;
      }
      assert objects[..p] == objects;
    }

    /** ObserverT::init(): detach the entries of the previous observer that the new one does not have. */
    method Init(objects: Objects, previous: Objects)
      requires Valid() && InUse(maps, previous)
      modifies this`maps
      ensures Valid() && SameEntries(old(maps), maps)
      ensures forall r :: CountOf(maps, r) == old(CountOf(maps, r)) - One(r in previous && r !in objects)
    {
      var p := 0;
      while p < |previous|
        invariant p <= |previous| && Valid() && SameEntries(old(maps), maps)
        invariant forall r :: CountOf(maps, r) == old(CountOf(maps, r)) - One(r in previous[..p] && r !in objects)
      {
        if previous[p] !in objects {
          DetachEntryOf(previous[p]);
        }
        p := p + 1;
      }
      assert previous[..p] == previous;
    }

    /** getMatching() on one map. */
    method MatchOn(m: nat, key: Option<Key>, previous: Option<EntryId>) returns (entry: Option<EntryId>)
      requires Valid() && m < |maps| && (previous.Some? ==> CountOf(maps, Ref(m, previous.value)) > 0)
      modifies this`maps, this`nextEntry
      ensures Valid() && MoreEntries(old(maps), maps)
      ensures entry.Some? <==> key.Some? && !old(maps)[m].destroyed
      ensures entry.Some? ==> entry.value in maps[m].entries && key == Some(maps[m].entries[entry.value].id)
      ensures entry.Some? ==> CountOf(maps, Ref(m, entry.value)) > 0
      ensures forall q :: CountOf(maps, q) ==
                          old(CountOf(maps, q)) + One(q.map_ == m && entry == Some(q.entry) && entry != previous)
    {
      MatchOne(maps, m, key, previous, nextEntry);
      MatchFinds(maps, m, key, previous, nextEntry);
      var (s', found) := GetMatching(maps[m], key, previous, nextEntry);
      maps, nextEntry, entry := maps[m := s'], nextEntry + 1, found;
    }

    /**
     The loop over _maps: `keys` says what each map's filters and key make of the helper. It gathers an entry of every
     enabled map that has a key and is not destroyed.
     */
    method Collect(keys: seq<Option<Key>>, prior: Objects) returns (acquired: Objects)
      requires Valid() && |keys| == |enabled| && InUse(maps, prior)
      modifies this`maps, this`nextEntry
      ensures Valid() && MoreEntries(old(maps), maps)
      ensures Gathered(maps, Visits(enabled, keys, GoneOf(old(maps), enabled)), acquired)
      ensures InUse(maps, acquired) && InUse(maps, prior)
      ensures forall r :: CountOf(maps, r) == old(CountOf(maps, r)) + One(r in acquired && r !in prior)
    {
      acquired := [];
      ghost var v := Visits(enabled, keys, GoneOf(maps, enabled));
      var p := 0;
      while p < |enabled|
        invariant p <= |enabled| && Valid() && MoreEntries(old(maps), maps)
        invariant InUse(maps, prior) && InUse(maps, acquired) && Gathered(maps, FirstVisits(v, p), acquired)
        invariant forall r :: CountOf(maps, r) == old(CountOf(maps, r)) + One(r in acquired && r !in prior)
      {
        ThisRound(old(maps), maps, v, p, acquired);
        acquired := CollectNext(v, p, keys[p], prior, acquired);
        p := p + 1;
      }
      assert FirstVisits(v, p) == v;
    }

    /** One round of that loop, and what it has gathered after it. */
    method CollectNext(ghost v: Visits, p: nat, key: Option<Key>, prior: Objects, acquired: Objects) returns (acquired': Objects)
      requires Valid() && InUse(maps, prior) && InUse(maps, acquired)
      requires p < |v.maps| == |v.keys| == |v.gone| && v.maps == enabled && v.keys[p] == key
      requires enabled[p] < |maps| && v.gone[p] == maps[enabled[p]].destroyed
      requires Gathered(maps, FirstVisits(v, p), acquired) && forall r <- acquired :: r.map_ != enabled[p]
      modifies this`maps, this`nextEntry
      ensures Valid() && MoreEntries(old(maps), maps) && InUse(maps, prior) && InUse(maps, acquired')
      ensures Gathered(maps, FirstVisits(v, p + 1), acquired')
      ensures forall r :: CountOf(maps, r) - One(r in acquired' && r !in prior) ==
                          old(CountOf(maps, r)) - One(r in acquired && r !in prior)
    {
      acquired' := CollectFrom(enabled[p], key, prior, acquired);
      NextRound(old(maps), maps, v, p, acquired, acquired');
    }

    /** getMatching() on the next map, and push_back(). */
    method CollectFrom(m: nat, key: Option<Key>, prior: Objects, acquired: Objects) returns (acquired': Objects)
      requires Valid() && m < |maps| && InUse(maps, prior) && InUse(maps, acquired) && forall r <- acquired :: r.map_ != m
      modifies this`maps, this`nextEntry
      ensures Valid() && MoreEntries(old(maps), maps)
      ensures InUse(maps, acquired') && InUse(maps, prior)
      ensures acquired <= acquired' && Added(maps, m, key, old(maps)[m].destroyed, acquired'[|acquired|..])
      ensures forall r :: CountOf(maps, r) - One(r in acquired' && r !in prior) ==
                          old(CountOf(maps, r)) - One(r in acquired && r !in prior)
    {
      var previous := GetEntry(prior, m);
      EntryForIs(prior, m);
      var entry := MatchOn(m, key, previous);
      acquired' := acquired;
      if entry != None {
        CollectOne(maps, acquired, prior, m, entry.value, previous);
        acquired' := acquired + [Ref(m, entry.value)];
      }
    }

    /** getObserver(helper) */
    method GetObserver(keys: seq<Option<Key>>) returns (result: Option<Objects>)
      requires Valid() && |keys| == |enabled|
      modifies this`maps, this`nextEntry
      ensures Valid()
      ensures !alive ==> result == None && maps == old(maps)
      ensures alive ==> Observer(maps, Visits(enabled, keys, GoneOf(old(maps), enabled)), result)
      ensures result.Some? ==> InUse(maps, result.value) && AllIndexed(maps, result.value)
      ensures forall r :: CountOf(maps, r) == old(CountOf(maps, r)) + One(result.Some? && r in result.value)
    {
      if !alive {
        return None;
      }
      var acquired := Collect(keys, []);
      NothingGathered(maps, Visits(enabled, keys, GoneOf(old(maps), enabled)), acquired);
      if acquired == [] {
        return None;
      }
      GatheredIndexed(old(maps), maps, Visits(enabled, keys, GoneOf(old(maps), enabled)), acquired);
      return Some(acquired);
    }

    /** getObserver(helper, observer): attachments move from the replaced observer to its successor. */
    method GetObserverReplacing(keys: seq<Option<Key>>, prior: Objects) returns (result: Option<Objects>)
      requires Valid() && |keys| == |enabled| && InUse(maps, prior)
      modifies this`maps, this`nextEntry
      ensures Valid()
      ensures alive ==> Observer(maps, Visits(enabled, keys, GoneOf(old(maps), enabled)), result)
      ensures result.Some? ==> InUse(maps, result.value) && AllIndexed(maps, result.value)
      ensures alive ==> forall r :: CountOf(maps, r) ==
                                    old(CountOf(maps, r)) - One(r in prior) + One(result.Some? && r in result.value)
      ensures !alive ==> result == None && maps == old(maps)
    {
      if !alive {
        return None;
      }
      var acquired := Collect(keys, prior);
      ghost var v, before := Visits(enabled, keys, GoneOf(old(maps), enabled)), maps;
      NothingGathered(maps, v, acquired);
      if acquired == [] {
        DetachObserver(prior);
        return None;
      }
      Init(acquired, prior);
      KeptIds(before, maps);
      GatheredStays(before, maps, v, acquired);
      GatheredIndexed(old(maps), maps, v, acquired);
      return Some(acquired);
    }
  }

  /** What getObserver() returns: the entries gathered, or nothing if there are none. */
  ghost predicate Observer(maps: seq<MapState>, v: Visits, result: Option<Objects>) {
    && VisitsOk(v)
    && (result.None? <==> NoneWanted(v))
    && (result.Some? ==> result.value != [] && Gathered(maps, v, result.value))
  }

  ghost predicate AllIndexed(maps: seq<MapState>, objects: Objects) {
    forall r <- objects :: r.map_ < |maps| && Indexed(maps[r.map_], r.entry)
  }

  /** What was gathered is attached, hence indexed under its key. */
  lemma {:induction false} GatheredIndexed(first: seq<MapState>, maps: seq<MapState>, v: Visits, objects: Objects)
    requires Gathered(maps, v, objects) && v.gone == GoneOf(first, v.maps) && InUse(maps, objects)
    requires |first| == |maps| && forall m | 0 <= m < |maps| :: MapInv(maps[m]) && maps[m].destroyed == first[m].destroyed
    ensures AllIndexed(maps, objects)
  {
    forall r <- objects
      ensures Indexed(maps[r.map_], r.entry)
    {
      var p :| 0 <= p < |v.keys| && v.maps[p] == r.map_;
      EntryForIs(objects, r.map_);
      assert RightEntry(maps, objects, v.maps[p], v.keys[p], v.gone[p]);
      assert EntryOk(maps[r.map_], r.entry);
    }
  }

  /** The first p of all visits. */
  function FirstVisits(v: Visits, p: nat): Visits
    requires p <= |v.keys| == |v.gone|
  {
    Visits(v.maps, v.keys[..p], v.gone[..p])
  }

  lemma {:induction false} ThisRound(first: seq<MapState>, maps: seq<MapState>, v: Visits, p: nat, acquired: Objects)
    requires DistinctNats(v.maps) && (forall m <- v.maps :: m < |maps|) && p < |v.maps| == |v.keys|
    requires MoreEntries(first, maps) && v.gone == GoneOf(first, v.maps)
    requires Gathered(maps, FirstVisits(v, p), acquired)
    ensures v.maps[p] < |maps| && v.gone[p] == maps[v.maps[p]].destroyed
    ensures forall r <- acquired :: r.map_ != v.maps[p]
  {
    assert v.maps[p] in v.maps && v.maps[p] !in v.maps[..p];
    assert SameIds(first[v.maps[p]], maps[v.maps[p]]);
  }

  lemma {:induction false} NextRound(before: seq<MapState>, after: seq<MapState>, v: Visits, p: nat,
    acquired: Objects, acquired': Objects)
    requires p < |v.keys| == |v.gone| == |v.maps| && MoreEntries(before, after)
    requires Gathered(before, FirstVisits(v, p), acquired)
    requires acquired <= acquired' && Added(after, v.maps[p], v.keys[p], v.gone[p], acquired'[|acquired|..])
    ensures Gathered(after, FirstVisits(v, p + 1), acquired')
  {
    KeptIds(before, after);
    GatheredStays(before, after, FirstVisits(v, p), acquired);
    GatherOne(after, FirstVisits(v, p), acquired, v.keys[p], v.gone[p], acquired'[|acquired|..]);
    OneMoreVisit(v, p);
    assert acquired + acquired'[|acquired|..] == acquired';
  }

  lemma {:induction false} OneMoreVisit(v: Visits, p: nat)
    requires p < |v.keys| == |v.gone|
    ensures Visited(FirstVisits(v, p), v.keys[p], v.gone[p]) == FirstVisits(v, p + 1)
  {
    assert v.keys[..p] + [v.keys[p]] == v.keys[..p + 1] && v.gone[..p] + [v.gone[p]] == v.gone[..p + 1];
  }

  lemma {:induction false} KeptIds(before: seq<MapState>, after: seq<MapState>)
    requires |before| == |after| && forall m | 0 <= m < |before| :: SameIds(before[m], after[m])
    ensures IdsKept(before, after)
  {
    forall m, e | 0 <= m < |before| && e in before[m].entries
      ensures e in after[m].entries && after[m].entries[e].id == before[m].entries[e].id
    {
      assert SameIds(before[m], after[m]);
    }
  }

  /** One more entry of a map not visited before: it is held already exactly when it is the previous one. */
  lemma {:induction false} CollectOne(maps: seq<MapState>, acquired: Objects, prior: Objects, m: nat, entry: EntryId, previous: Option<EntryId>)
    requires InUse(maps, acquired) && InUse(maps, prior) && (forall r <- acquired :: r.map_ != m)
    requires CountOf(maps, Ref(m, entry)) > 0 && previous == EntryFor(prior, m)
    ensures InUse(maps, acquired + [Ref(m, entry)])
    ensures Ref(m, entry) in prior <==> Some(entry) == previous
    ensures forall q :: One(q in acquired + [Ref(m, entry)] && q !in prior) ==
                        One(q in acquired && q !in prior) + One(q.map_ == m && Some(entry) == Some(q.entry) && Some(entry) != previous)
    ensures forall q <- acquired + [Ref(m, entry)] :: q in acquired || q.map_ == m
  {
    EntryForIs(prior, m);
    var r := Ref(m, entry);
    forall q <- acquired + [r]
      ensures q.map_ < |maps| && q.entry in maps[q.map_].entries && CountOf(maps, q) > 0
    {
      assert q in acquired || q == r;
    }
  }
}

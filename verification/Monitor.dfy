/** The Mesa monitor: notifications asked for while it is held are issued when it is given up. */
module Monitor {
  import opened Prelude

  // It is given up by the outermost unlock or by a wait; the mutex may be recursive. A blocked call is one whose step is
  // not enabled.

  type Tid = nat

  datatype Signal = One | All      // pthread_cond_signal, pthread_cond_broadcast

  /** The monitor and its mutex; `waiting` holds the lock counts saved by threads inside wait(). */
  datatype State = State(recursive: bool, holder: Option<Tid>, count: nat, nnotify: int, waiting: map<Tid, nat>)

  datatype Action =
    | Lock(t: Tid)
    | TryLock(t: Tid)
    | Unlock(t: Tid)
    | BeginWait(t: Tid)        // wait() or timedWait(): notify, release the mutex, sleep
    | EndWait(t: Tid)          // woken, timed out or failed: the mutex is held again
    | WaitRefused(t: Tid)      // timedWait() throws on its timeout before it gives up the mutex
    | Notify(t: Tid)
    | NotifyAll(t: Tid)

  /** Whether the next unlock() of the mutex gives it up. */
  predicate WillUnlock(s: State) {
    !s.recursive || s.count == 1
  }

  predicate Enabled(s: State, a: Action) {
    match a
    case Lock(t) => t !in s.waiting && (s.holder == None || (s.recursive && s.holder == Some(t)))
    case TryLock(t) => t !in s.waiting
    case EndWait(t) => t in s.waiting && s.holder == None
    case _ => s.holder == Some(a.t)
  }

  function NotifyImpl(nnotify: int): seq<Signal> {
    if nnotify == 0 then []
    else if nnotify == -1 then [All]
    else Ones(nnotify)
  }

  function Ones(n: int): seq<Signal>
    ensures n >= 0 ==> |Ones(n)| == n
  {
    if n <= 0 then [] else Ones(n - 1) + [One]
  }

  function Acquire(s: State, t: Tid): State {
    var s' := s.(holder := Some(t), count := s.count + 1);
    if WillUnlock(s') then s'.(nnotify := 0) else s'
  }

  predicate CanTake(s: State, t: Tid) {
    s.holder == None || (s.recursive && s.holder == Some(t))
  }

  /** A step, and the signals it sends to the condition variable. */
  function Step(s: State, a: Action): (State, seq<Signal>)
    requires Enabled(s, a)
  {
    match a
    case Lock(t) => (Acquire(s, t), [])
    case TryLock(t) => (if CanTake(s, t) then Acquire(s, t) else s, [])
    case Unlock(t) =>
      var signals := if WillUnlock(s) then NotifyImpl(s.nnotify) else [];
      if s.count <= 1 then (s.(holder := None, count := 0), signals) else (s.(count := s.count - 1), signals)
    case BeginWait(t) => (s.(holder := None, count := 0, waiting := s.waiting[t := s.count]), NotifyImpl(s.nnotify))
    case EndWait(t) => (s.(holder := Some(t), count := s.waiting[t], waiting := s.waiting - {t}, nnotify := 0), [])
    case WaitRefused(t) => (s.(nnotify := 0), NotifyImpl(s.nnotify))
    case Notify(t) => (if s.nnotify != -1 then s.(nnotify := s.nnotify + 1) else s, [])
    case NotifyAll(t) => (s.(nnotify := -1), [])
  }

  predicate Init(s: State) {
    s.holder == None && s.count == 0 && s.nnotify == 0 && s.waiting == map[]
  }

  // --------------------------------------------------------------- runs, read from their actions

  predicate IsRun(s: State, acts: seq<Action>)
    decreases |acts|, 0
  {
    acts == [] ||
    (IsRun(s, acts[..|acts| - 1]) && Enabled(After(s, acts[..|acts| - 1]), acts[|acts| - 1]))
  }

  function After(s: State, acts: seq<Action>): State
    requires IsRun(s, acts)
    decreases |acts|, 1
  {
    if acts == [] then s else Step(After(s, acts[..|acts| - 1]), acts[|acts| - 1]).0
  }

  // --------------------------------------------------------------- what the calls say by themselves

  /**
   Read off the calls alone: one entry for each acquisition of the monitor that was not given back, and what each thread
   inside wait() will get back.
   */
  datatype Owed = Owed(held: seq<Tid>, saved: map<Tid, seq<Tid>>)

  function Owing(recursive: bool, acts: seq<Action>): Owed {
    if acts == [] then Owed([], map[]) else OwedNext(recursive, Owing(recursive, acts[..|acts| - 1]), acts[|acts| - 1])
  }

  function OwedNext(recursive: bool, o: Owed, a: Action): Owed {
    match a
    case Lock(t) => o.(held := o.held + [t])
    case TryLock(t) => if o.held == [] || (recursive && t in o.held) then o.(held := o.held + [t]) else o
    case Unlock(t) => if o.held == [] then o else o.(held := o.held[..|o.held| - 1])
    case BeginWait(t) => Owed([], o.saved[t := o.held])
    case EndWait(t) => if t in o.saved then Owed(o.saved[t], o.saved - {t}) else o
    case _ => o
  }

  datatype Request = Request(caller: Tid, all: bool)

  /** The step takes the monitor from nobody, or gives up what was asked for: a new section begins. */
  predicate BeginsSection(o: Owed, a: Action) {
    a.EndWait? || a.WaitRefused? || (o.held == [] && (a.Lock? || a.TryLock?))
  }

  /** The notify() and notifyAll() calls made since the monitor was last acquired. */
  function Requests(recursive: bool, acts: seq<Action>): seq<Request> {
    if acts == [] then []
    else
      var before, a := acts[..|acts| - 1], acts[|acts| - 1];
      if BeginsSection(Owing(recursive, before), a) then []
      else if a.Notify? then Requests(recursive, before) + [Request(a.t, false)]
      else if a.NotifyAll? then Requests(recursive, before) + [Request(a.t, true)]
      else Requests(recursive, before)
  }

  /** What the condition variable is owed for these calls: one broadcast if any asked for all, else one signal each. */
  function Due(requests: seq<Request>): seq<Signal> {
    if exists i :: 0 <= i < |requests| && requests[i].all then [All]
    else seq(|requests|, i => One)
  }

  /** The unlock of the last acquisition, and every wait. */
  predicate GivesUp(o: Owed, a: Action) {
    a.BeginWait? || a.WaitRefused? || (a.Unlock? && |o.held| == 1)
  }

  // --------------------------------------------------------------- the accounting

  /** The flag is the tally of a list of requests: -1 once one of them asked for all, else their number. */
  ghost predicate Tallies(nnotify: int, requests: seq<Request>) {
    nnotify == if exists i :: 0 <= i < |requests| && requests[i].all then -1 else |requests|
  }

  /** The state holds what the calls say: the holder, how deep, and what each waiting thread gets back. */
  ghost predicate Tracks(s: State, o: Owed) {
    && s.count == |o.held|
    && (s.holder == None <==> o.held == [])
    && (forall t <- o.held :: s.holder == Some(t))
    && s.waiting.Keys == o.saved.Keys
    && (forall t <- s.waiting :: s.waiting[t] == |o.saved[t]| && forall u <- o.saved[t] :: u == t)
  }

  ghost predicate Inv(s: State, requests: seq<Request>) {
    && (s.holder == None <==> s.count == 0)
    && (!s.recursive ==> s.count <= 1)
    && (forall t <- s.waiting :: s.waiting[t] > 0 && (!s.recursive ==> s.waiting[t] == 1) && s.holder != Some(t))
    && (s.holder.Some? ==> Tallies(s.nnotify, requests) && forall r <- requests :: r.caller == s.holder.value)
  }

  lemma {:induction false} TallyNext(nnotify: int, requests: seq<Request>, r: Request)
    requires Tallies(nnotify, requests)
    ensures Tallies(if r.all then -1 else if nnotify != -1 then nnotify + 1 else nnotify, requests + [r])
  {
    var more := requests + [r];
    assert more[|requests|] == r;
    if i :| 0 <= i < |requests| && requests[i].all {
      assert more[i].all;
    } else if r.all {
      assert more[|requests|].all;
    } else {
      forall i | 0 <= i < |more|
        ensures !more[i].all
      {
        assert i < |requests| ==> more[i] == requests[i];
      }
    }
  }

  lemma {:induction false} OnesAre(n: nat)
    ensures Ones(n) == seq(n, i => One)
  {
    if n > 0 {
      OnesAre(n - 1);
    }
  }

  /** notifyImpl() pays exactly what is due. */
  lemma {:induction false} FlagPaysWhatIsDue(nnotify: int, requests: seq<Request>)
    requires Tallies(nnotify, requests)
    ensures NotifyImpl(nnotify) == Due(requests)
  {
    if nnotify > 0 {
      OnesAre(nnotify);
    }
  }

  lemma {:induction false} StepTracks(s: State, o: Owed, a: Action, requests: seq<Request>)
    requires Inv(s, requests) && Tracks(s, o) && Enabled(s, a)
    ensures Tracks(Step(s, a).0, OwedNext(s.recursive, o, a))
  {
    if o.held != [] {
      assert o.held[0] in o.held;
    }
    match a
    case Lock(t) => AcquireTracks(s, o, t);
    case TryLock(t) => if CanTake(s, t) { AcquireTracks(s, o, t); }
    case Unlock(t) => UnlockTracks(s, o, t);
    case _ =>
  }

  lemma {:induction false} AcquireTracks(s: State, o: Owed, t: Tid)
    requires Tracks(s, o) && (s.holder == None || s.holder == Some(t))
    ensures Tracks(Acquire(s, t), o.(held := o.held + [t]))
  {
  }

  lemma {:induction false} UnlockTracks(s: State, o: Owed, t: Tid)
    requires Tracks(s, o) && s.holder == Some(t)
    ensures Tracks(Step(s, Unlock(t)).0, o.(held := o.held[..|o.held| - 1]))
  {
    assert forall u <- o.held[..|o.held| - 1] :: u in o.held;
  }

  lemma {:induction false} RunKeepsInv(s: State, acts: seq<Action>)
    requires Init(s) && IsRun(s, acts)
    ensures Inv(After(s, acts), Requests(s.recursive, acts))
    ensures Tracks(After(s, acts), Owing(s.recursive, acts)) && After(s, acts).recursive == s.recursive
  {
    if acts != [] {
      var before, a := acts[..|acts| - 1], acts[|acts| - 1];
      RunKeepsInv(s, before);
      var requests := Requests(s.recursive, before);
      if a.Notify? || a.NotifyAll? {
        TallyNext(After(s, before).nnotify, requests, Request(a.t, a.NotifyAll?));
      }
      StepTracks(After(s, before), Owing(s.recursive, before), a, requests);
      StepKeeps(After(s, before), a, requests, Requests(s.recursive, acts));
    }
  }

  lemma {:induction false} StepKeeps(s: State, a: Action, requests: seq<Request>, requests': seq<Request>)
    requires Inv(s, requests) && Enabled(s, a)
    requires requests' == if a.EndWait? || a.WaitRefused? || (s.holder == None && (a.Lock? || a.TryLock?)) then []
                          else if a.Notify? || a.NotifyAll? then requests + [Request(a.t, a.NotifyAll?)] else requests
    requires a.Notify? || a.NotifyAll? ==>
               Tallies(if a.NotifyAll? then -1 else if s.nnotify != -1 then s.nnotify + 1 else s.nnotify, requests')
    ensures Inv(Step(s, a).0, requests')
  {
  }

  /**
   In every run the monitor is held by the thread whose acquisitions were not all given back, as deep as there are such
   acquisitions; a thread inside wait() gets back as many as it had; and a thread may lock exactly when nobody holds the
   monitor or, if it is recursive, the thread itself does.
   */
  lemma {:induction false} DepthIsHistory(s: State, acts: seq<Action>, t: Tid)
    requires Init(s) && IsRun(s, acts)
    ensures var f, o := After(s, acts), Owing(s.recursive, acts);
            && f.count == |o.held| && (f.holder == None <==> o.held == []) && (forall u <- o.held :: f.holder == Some(u))
            && f.waiting.Keys == o.saved.Keys && (forall u <- o.saved :: f.waiting[u] == |o.saved[u]|)
            && (Enabled(f, Lock(t)) <==> t !in o.saved && (o.held == [] || (s.recursive && t in o.held)))
  {
    RunKeepsInv(s, acts);
    var f, o := After(s, acts), Owing(s.recursive, acts);
    if o.held != [] {
      assert o.held[0] in o.held;
    }
  }

  /**
   In every run, a step that gives up the monitor, as the calls alone tell, sends exactly what the calls of this section
   asked for, and every other step sends nothing: no notification is early, lost or doubled.
   */
  lemma {:induction false} NotificationsExact(s: State, acts: seq<Action>, a: Action)
    requires Init(s) && IsRun(s, acts) && Enabled(After(s, acts), a)
    ensures Step(After(s, acts), a).1 ==
            if GivesUp(Owing(s.recursive, acts), a) then Due(Requests(s.recursive, acts)) else []
  {
    RunKeepsInv(s, acts);
    if GivesUp(Owing(s.recursive, acts), a) {
      FlagPaysWhatIsDue(After(s, acts).nnotify, Requests(s.recursive, acts));
    }
  }

  /** What is owed was asked for by the thread that holds the monitor: nothing carries over to the next holder. */
  lemma {:induction false} NothingCarriedOver(s: State, acts: seq<Action>)
    requires Init(s) && IsRun(s, acts)
    ensures After(s, acts).holder.Some? ==>
              forall r <- Requests(s.recursive, acts) :: r.caller == After(s, acts).holder.value
  {
    RunKeepsInv(s, acts);
  }

  /** Nested locking is restored by wait(): the thread holds the monitor as often after it as before. */
  lemma {:induction false} WaitRestoresDepth(s: State, acts: seq<Action>, rest: seq<Action>, t: Tid)
    requires Init(s) && IsRun(s, acts) && Enabled(After(s, acts), BeginWait(t))
    requires IsRun(s, acts + [BeginWait(t)] + rest) && EndWait(t) !in rest
    requires Enabled(After(s, acts + [BeginWait(t)] + rest), EndWait(t))
    ensures Step(After(s, acts + [BeginWait(t)] + rest), EndWait(t)).0.count == After(s, acts).count
  {
    StillWaiting(s, acts, rest, t);
  }

  lemma {:induction false} StillWaiting(s: State, acts: seq<Action>, rest: seq<Action>, t: Tid)
    requires Init(s) && IsRun(s, acts) && Enabled(After(s, acts), BeginWait(t))
    requires IsRun(s, acts + [BeginWait(t)] + rest) && EndWait(t) !in rest
    ensures var f := After(s, acts + [BeginWait(t)] + rest);
            t in f.waiting && f.waiting[t] == After(s, acts).count
    decreases |rest|
  {
    var all := acts + [BeginWait(t)] + rest;
    if rest == [] {
      assert all[..|all| - 1] == acts;
    } else {
      var before, a := acts + [BeginWait(t)] + rest[..|rest| - 1], rest[|rest| - 1];
      assert all[..|all| - 1] == before && a in rest;
      StillWaiting(s, acts, rest[..|rest| - 1], t);
      RunKeepsInv(s, before);
      SleepsOn(After(s, before), a, t);
    }
  }

  /** Nobody but the thread itself ends its wait. */
  lemma {:induction false} SleepsOn(s: State, a: Action, t: Tid)
    requires Enabled(s, a) && a != EndWait(t) && t in s.waiting && s.holder != Some(t)
    ensures var s' := Step(s, a).0; t in s'.waiting && s'.waiting[t] == s.waiting[t]
  {
  }

  // --------------------------------------------------------------- the class

  /** Monitor<T> as one thread at a time runs it; `sent` records what reached the condition variable. */
  class MonitorT {
    const recursive: bool
    var count: nat               // how often the mutex is locked
    var nnotify: int
    ghost var sent: seq<Signal>

    constructor (recursive: bool)
      ensures count == 0 && nnotify == 0 && sent == [] && this.recursive == recursive
    {
      this.recursive, count, nnotify, sent := recursive, 0, 0, [];
    }

    /** The monitor seen by the thread t that holds it, or by everybody if nobody does. */
    ghost function View(t: Tid, waiting: map<Tid, nat>): State
      reads this
    {
      State(recursive, if count == 0 then None else Some(t), count, nnotify, waiting)
    }

    method LockIt()
      requires count == 0 || recursive
      modifies this`count, this`nnotify
      ensures forall t, w :: View(t, w) == Acquire(old(View(t, w)), t)
      ensures count == old(count) + 1 && nnotify == if old(count) == 0 then 0 else old(nnotify)
    {
      count := count + 1;
      if !recursive || count == 1 {
        nnotify := 0;
      }
    }

    /** `taken` is what the mutex answers. */
    method TryLockIt(taken: bool) returns (result: bool)
      requires taken ==> count == 0 || recursive
      modifies this`count, this`nnotify
      ensures result == taken && count == old(count) + if taken then 1 else 0
      ensures nnotify == if taken && old(count) == 0 then 0 else old(nnotify)
    {
      result := taken;
      if taken {
        count := count + 1;
      }
      if result && (!recursive || count == 1) {
        nnotify := 0;
      }
    }

    method UnlockIt()
      requires count > 0 && (recursive || count == 1)
      modifies this`count, this`sent
      ensures forall t, w :: View(t, w) == Step(old(View(t, w)), Unlock(t)).0
      ensures sent == old(sent) + if !recursive || old(count) == 1 then NotifyImpl(old(nnotify)) else []
      ensures count == old(count) - 1
    {
      if !recursive || count == 1 {
        Flush(nnotify);
      }
      count := count - 1;
    }

    /** wait() up to the moment the mutex is released; returns the saved lock count. */
    method WaitStarts() returns (saved: nat)
      requires count > 0
      modifies this`count, this`sent
      ensures saved == old(count) && count == 0
      ensures sent == old(sent) + NotifyImpl(old(nnotify))
    {
      Flush(nnotify);
      saved := count;
      count := 0;
    }

    /** wait() from the moment the mutex is held again, whether or not it goes on to throw. */
    method WaitEnds(saved: nat)
      requires count == 0 && saved > 0
      modifies this`count, this`nnotify
      ensures count == saved && nnotify == 0
    {
      count := saved;
      nnotify := 0;
    }

    method NotifyOne()
      modifies this`nnotify
      ensures nnotify == if old(nnotify) != -1 then old(nnotify) + 1 else -1
    {
      if nnotify != -1 {
        nnotify := nnotify + 1;
      }
    }

    method NotifyEveryone()
      modifies this`nnotify
      ensures nnotify == -1
    {
      nnotify := -1;
    }

    /** notifyImpl(): a broadcast, or n signals. */
    method Flush(n: int)
      modifies this`sent
      ensures sent == old(sent) + NotifyImpl(n)
    {
      if n != 0 {
        if n == -1 {
          sent := sent + [All];
          return;
        } else {
          var nnotify := n;
          while nnotify > 0
            invariant n > 0 ==> nnotify >= 0
            invariant sent == old(sent) + Ones(n - (if n > 0 then nnotify else n))
          {
            sent := sent + [One];
            nnotify := nnotify - 1;
          }
        }
      }
    }
  }
}

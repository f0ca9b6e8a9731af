/**
 The load-once cache as a transition system.

 The shared memory is explicit: map nodes and latches are allocated under ids that are never reused, so
 a stale iterator or a deleted latch is an id that is no longer allocated, and touching one raises `fault`.
 Every critical section of the class is one function on the memory; a thread is a program counter.
 */
module Cache {
  import opened Prelude

  type Key = string
  type Obj = nat       // the identity of a non-null Handle<Value>
  type NodeId = nat
  type LatchId = nat

  datatype Node = Node(key: Key, obj: Option<Obj>, latch: Option<LatchId>)
  datatype Latch = Latch(count: nat, useCount: int)

  /** The memory protected by `_mutex`: `index` and `nodes` are the one std::map, `nodes` its allocated nodes. */
  datatype Memory = Memory(
    index: map<Key, NodeId>,
    nodes: map<NodeId, Node>,
    latches: map<LatchId, Latch>,
    nextNode: NodeId,
    nextLatch: LatchId,
    fault: bool)

  // --------------------------------------------------------------- primitives on the memory

  function Insert(m: Memory, k: Key, o: Option<Obj>): Memory {
    m.(index := m.index[k := m.nextNode],
       nodes := m.nodes[m.nextNode := Node(k, o, None)],
       nextNode := m.nextNode + 1)
  }

  function Erase(m: Memory, n: NodeId): Memory {
    if n !in m.nodes then m.(fault := true)
    else m.(index := m.index - {m.nodes[n].key}, nodes := m.nodes - {n})
  }

  function SetObj(m: Memory, n: NodeId, o: Obj): Memory {
    if n !in m.nodes then m.(fault := true)
    else m.(nodes := m.nodes[n := m.nodes[n].(obj := Some(o))])
  }

  /** One more thread will wait for this node: it gets a latch if it has none, and the latch a user. */
  function JoinLatch(m: Memory, n: NodeId): (Memory, LatchId) {
    if n !in m.nodes then (m.(fault := true), 0)
    else match m.nodes[n].latch
      case None =>
        (m.(latches := m.latches[m.nextLatch := Latch(1, 1)],
            nodes := m.nodes[n := m.nodes[n].(latch := Some(m.nextLatch))],
            nextLatch := m.nextLatch + 1),
         m.nextLatch)
      case Some(l) =>
        if l !in m.latches then (m.(fault := true), l)
        else (m.(latches := m.latches[l := m.latches[l].(useCount := m.latches[l].useCount + 1)]), l)
  }

  /** One user fewer; the last one takes the latch with it. */
  function LeaveLatch(m: Memory, l: LatchId): Memory {
    if l !in m.latches then m.(fault := true)
    else
      var uses := m.latches[l].useCount - 1;
      if uses == 0 then m.(latches := m.latches - {l})
      else m.(latches := m.latches[l := m.latches[l].(useCount := uses)])
  }

  /** The node gives up its latch, if any, to the caller. */
  function TakeLatch(m: Memory, n: NodeId): (Memory, Option<LatchId>) {
    if n !in m.nodes then (m.(fault := true), None)
    else (m.(nodes := m.nodes[n := m.nodes[n].(latch := None)]), m.nodes[n].latch)
  }

  /** The latch, if there is one, is opened; it must be closed until then. */
  function CountDown(m: Memory, latch: Option<LatchId>): Memory {
    match latch
    case None => m
    case Some(l) =>
      if l !in m.latches || m.latches[l].count != 1 then m.(fault := true)
      else m.(latches := m.latches[l := m.latches[l].(count := 0)])
  }

  // --------------------------------------------------------------- calls and critical sections

  datatype Call =
    | PinImpl(key: Key, newObj: Option<Obj>)     // pin(key) passes a null newObj, putIfAbsent(key, obj) passes obj
    | PinObj(key: Key, obj: Obj)                 // bool pin(key, obj)
    | GetIfPinned(key: Key, wait: bool)
    | Unpin(node: NodeId)

  datatype LoadResult = Found(obj: Obj) | Missing | Failed

  datatype Outcome = Handle(obj: Option<Obj>) | Flag(inserted: bool) | Done | Threw

  datatype Next = Reply(out: Outcome) | Await(latch: LatchId) | Load(node: NodeId)

  /** The part of pinImpl's and getIfPinned's loop that runs under the mutex, up to the return, the wait or the load. */
  function LookSection(m: Memory, call: Call): (Memory, Next)
    requires call.PinImpl? || call.GetIfPinned?
  {
    if call.key in m.index then
      var n := m.index[call.key];
      if n !in m.nodes then (m.(fault := true), Reply(Threw))
      else if m.nodes[n].obj.Some? || (call.GetIfPinned? && !call.wait) then (m, Reply(Handle(m.nodes[n].obj)))
      else var (m', l) := JoinLatch(m, n); (m', Await(l))
    else if call.PinImpl? then (Insert(m, call.key, None), Load(m.nextNode))
    else (m, Reply(Handle(None)))
  }

  /** bool pin(key, obj): inserts unless the key already has a node; `throws` is what pinned() does. */
  function PinObjSection(m: Memory, k: Key, o: Obj, throws: bool): (Memory, Outcome, set<NodeId>) {
    if k in m.index then (m, Flag(false), {})
    else (Insert(m, k, Some(o)), if throws then Threw else Flag(true), {m.nextNode})
  }

  /** The critical section after load(): the memory, the result, and the positions handed to pinned(). */
  function PublishSection(m: Memory, n: NodeId, newObj: Option<Obj>, r: LoadResult, throws: bool)
    : (Memory, Outcome, set<NodeId>)
  {
    var (m1, latch) := TakeLatch(m, n);
    match r
    case Failed => (CountDown(Erase(m1, n), latch), Threw, {})
    case Found(o) => (CountDown(SetObj(m1, n, o), latch), if throws then Threw else Handle(Some(o)), {n})
    case Missing =>
      match newObj
      case None => (CountDown(Erase(m1, n), latch), Handle(None), {})
      case Some(o) => (CountDown(SetObj(m1, n, o), latch), if throws then Threw else Handle(None), {n})
  }

  // --------------------------------------------------------------- threads

  datatype Pc =
    | Idle
    | Entering(call: Call)
    | Awaiting(call: Call, latch: LatchId)                  // in latch->await(), the mutex released
    | Woken(call: Call, latch: LatchId)                     // await() returned, its use count still held
    | Loading(call: Call, node: NodeId)                     // in load(), the mutex released
    | Loaded(call: Call, node: NodeId, result: LoadResult)
    | Returned(call: Call, out: Outcome)

  datatype State = State(mem: Memory, pcs: seq<Pc>, handed: set<NodeId>)

  datatype Action =
    | Invoke(t: nat, call: Call)
    | Enter(t: nat, throws: bool)
    | AwaitReturns(t: nat)
    | Retry(t: nat)
    | LoadReturns(t: nat, result: LoadResult)
    | Publish(t: nat, throws: bool)
    | Return(t: nat)

  /** Steps the cache takes by itself, as opposed to clients making or finishing calls. */
  predicate Internal(a: Action) {
    !a.Invoke? && !a.Return?
  }

  const EmptyMemory := Memory(map[], map[], map[], 0, 0, false)

  ghost predicate Init(s: State) {
    s.mem == EmptyMemory && s.handed == {} && forall t | 0 <= t < |s.pcs| :: s.pcs[t] == Idle
  }

  /** A call a client may make: unpin() only of a position that was handed out and not unpinned before. */
  predicate MayInvoke(s: State, call: Call) {
    call.Unpin? ==> call.node in s.handed
  }

  predicate Enabled(s: State, a: Action) {
    a.t < |s.pcs| &&
    match a
    case Invoke(t, call) => s.pcs[t].Idle? && MayInvoke(s, call)
    case Enter(t, _) => s.pcs[t].Entering?
    case AwaitReturns(t) =>
      s.pcs[t].Awaiting? &&
      (s.pcs[t].latch in s.mem.latches ==> s.mem.latches[s.pcs[t].latch].count == 0)
    case Retry(t) => s.pcs[t].Woken?
    case LoadReturns(t, _) => s.pcs[t].Loading?
    case Publish(t, _) => s.pcs[t].Loaded?
    case Return(t) => s.pcs[t].Returned?
  }

  function NextPc(call: Call, next: Next): Pc {
    match next
    case Reply(out) => Returned(call, out)
    case Await(l) => Awaiting(call, l)
    case Load(n) => Loading(call, n)
  }

  function Apply(s: State, a: Action): State
    requires Enabled(s, a)
  {
    match a
    case Invoke(t, call) =>
      s.(pcs := s.pcs[t := Entering(call)], handed := if call.Unpin? then s.handed - {call.node} else s.handed)
    case Enter(t, throws) =>
      var call := s.pcs[t].call;
      (match call
       case Unpin(n) => s.(mem := Erase(s.mem, n), pcs := s.pcs[t := Returned(call, Done)])
       case PinObj(k, o) =>
         var (m', out, given) := PinObjSection(s.mem, k, o, throws);
         State(m', s.pcs[t := Returned(call, out)], s.handed + given)
       case _ =>
         var (m', next) := LookSection(s.mem, call);
         s.(mem := m', pcs := s.pcs[t := NextPc(call, next)]))
    case AwaitReturns(t) =>
      s.(pcs := s.pcs[t := Woken(s.pcs[t].call, s.pcs[t].latch)],
         mem := if s.pcs[t].latch in s.mem.latches then s.mem else s.mem.(fault := true))
    case Retry(t) =>
      var call := s.pcs[t].call;
      if !call.PinImpl? && !call.GetIfPinned? then s.(mem := s.mem.(fault := true)) else
      var (m', next) := LookSection(LeaveLatch(s.mem, s.pcs[t].latch), call);
      s.(mem := m', pcs := s.pcs[t := NextPc(call, next)])
    case LoadReturns(t, r) => s.(pcs := s.pcs[t := Loaded(s.pcs[t].call, s.pcs[t].node, r)])
    case Publish(t, throws) =>
      var call := s.pcs[t].call;
      if !call.PinImpl? then s.(mem := s.mem.(fault := true)) else
      var (m', out, given) := PublishSection(s.mem, s.pcs[t].node, call.newObj, s.pcs[t].result, throws);
      State(m', s.pcs[t := Returned(call, out)], s.handed + given)
    case Return(t) => s.(pcs := s.pcs[t := Idle])
  }

  // --------------------------------------------------------------- runs

  ghost predicate IsRun(s: State, acts: seq<Action>)
    decreases |acts|
  {
    acts == [] || (Enabled(s, acts[0]) && IsRun(Apply(s, acts[0]), acts[1..]))
  }

  ghost function Final(s: State, acts: seq<Action>): State
    requires IsRun(s, acts)
    decreases |acts|
  {
    if acts == [] then s else Final(Apply(s, acts[0]), acts[1..])
  }
}

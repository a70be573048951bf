/** The two-lock queue in small steps: any number of threads push, pop and test for emptiness, one shared
    read or write at a time, in any order. */
module TwoLockQueue {

  type Tid = nat
  type Ref = nat
  type Value = int

  datatype Option<T> = None | Some(value: T)

  datatype Node = Node(data: Option<Value>, next: Option<Ref>)

  /** Where a thread stands, with its local variables: in push, in try_pop or in empty. */
  datatype Pc =
    | Idle
    | NewNode(v: Value)
    | LockTail(v: Value, p: Ref)
    | SetData(v: Value, p: Ref)
    | SetNext(v: Value, p: Ref)
    | MoveTail(v: Value, p: Ref)
    | CountUp(v: Value)
    | UnlockTail(v: Value)
    | LockHead
    | LockTailToRead
    | ReadTail
    | UnlockTailRead(seen: Ref)
    | Compare(seen: Ref)
    | TakeHead(seen: Ref)
    | MoveHead(seen: Ref, gone: Ref)
    | CountDown(gone: Ref)
    | UnlockHead(gone: Ref)
    | UnlockHeadEmpty
    | TakeData(gone: Ref)
    | Delete(gone: Ref, res: Value)
    | LockHeadToTest
    | ReadSize
    | UnlockHeadTested(isEmpty: bool)

  datatype Op = PushOp(v: Value) | PopOp | EmptyOp

  /** What an operation does to the abstract queue and returns. */
  datatype Effect = Pushed(v: Value) | Popped(v: Value) | NothingToPop | Tested(isEmpty: bool)

  /** The history: calls, the points where operations take effect, returns. */
  datatype Mark = Call(t: Tid, op: Op) | Point(t: Tid, e: Effect) | Return(t: Tid, e: Effect)

  /** mem, head, tail, size and the locks are the source's; chain, queue and trace record the run. */
  datatype State = State(mem: map<Ref, Node>, head: Ref, tail: Ref, size: int,
                         headLock: Option<Tid>, tailLock: Option<Tid>, threads: map<Tid, Pc>,
                         chain: seq<Ref>, queue: seq<Value>, trace: seq<Mark>)

  const BLANK_NODE := Node(None, None)

  function Initial(dummy: Ref): State {
    State(map[dummy := BLANK_NODE], dummy, dummy, 0, None, None, map[], [dummy], [], [])
  }

  function PcOf(s: State, t: Tid): Pc {
    if t in s.threads then s.threads[t] else Idle
  }

  datatype Event = Begin(t: Tid, op: Op) | Go(t: Tid, spare: Ref)

  function Goto(s: State, t: Tid, pc: Pc): State {
    s.(threads := s.threads[t := pc])
  }

  function Marked(s: State, m: Mark): State {
    s.(trace := s.trace + [m])
  }

  predicate Enabled(s: State, e: Event) {
    match e
    case Begin(t, _) => PcOf(s, t).Idle?
    case Go(t, spare) =>
      var pc := PcOf(s, t);
      !pc.Idle? && (pc.NewNode? ==> spare !in s.mem) &&
      (pc.LockTail? || pc.LockTailToRead? ==> s.tailLock.None?) &&
      (pc.LockHead? || pc.LockHeadToTest? ==> s.headLock.None?)
  }

  function Start(op: Op): Pc {
    match op
    case PushOp(v) => NewNode(v)
    case PopOp => LockHead
    case EmptyOp => LockHeadToTest
  }

  /** One step of a thread in push. */
  function PushStep(s: State, t: Tid, spare: Ref): State {
    match PcOf(s, t)
    case NewNode(v) => Goto(s.(mem := s.mem[spare := BLANK_NODE]), t, LockTail(v, spare))
    case LockTail(v, p) => Goto(s.(tailLock := Some(t)), t, SetData(v, p))
    case SetData(v, p) =>
      if s.tail in s.mem then
        Goto(s.(mem := s.mem[s.tail := s.mem[s.tail].(data := Some(v))]), t, SetNext(v, p))
      else s
    case SetNext(v, p) =>
      if s.tail in s.mem then
        Goto(s.(mem := s.mem[s.tail := s.mem[s.tail].(next := Some(p))]), t, MoveTail(v, p))
      else s
    case MoveTail(v, p) => Goto(s.(tail := p, chain := s.chain + [p]), t, CountUp(v))
    case CountUp(v) =>
      Marked(Goto(s.(size := s.size + 1, queue := s.queue + [v]), t, UnlockTail(v)), Point(t, Pushed(v)))
    case UnlockTail(v) => Marked(Goto(s.(tailLock := None), t, Idle), Return(t, Pushed(v)))
    case _ => s
  }

  /** One step of a thread in try_pop. */
  function PopStep(s: State, t: Tid): State {
    match PcOf(s, t)
    case LockHead => Goto(s.(headLock := Some(t)), t, LockTailToRead)
    case LockTailToRead => Goto(s.(tailLock := Some(t)), t, ReadTail)
    case ReadTail =>
      var s' := Goto(s, t, UnlockTailRead(s.tail));
      if s.head == s.tail then Marked(s', Point(t, NothingToPop)) else s'
    case UnlockTailRead(x) => Goto(s.(tailLock := None), t, Compare(x))
    case Compare(x) => Goto(s, t, if s.head == x then UnlockHeadEmpty else TakeHead(x))
    case TakeHead(x) => Goto(s, t, MoveHead(x, s.head))
    case MoveHead(_, gone) =>
      if gone in s.mem && s.mem[gone].next.Some? && s.chain != [] && s.queue != [] then
        Marked(Goto(s.(head := s.mem[gone].next.value, chain := s.chain[1..], queue := s.queue[1..]), t, CountDown(gone)),
               Point(t, Popped(s.queue[0])))
      else s
    case CountDown(gone) => Goto(s.(size := s.size - 1), t, UnlockHead(gone))
    case UnlockHead(gone) => Goto(s.(headLock := None), t, TakeData(gone))
    case UnlockHeadEmpty => Marked(Goto(s.(headLock := None), t, Idle), Return(t, NothingToPop))
    case TakeData(gone) =>
      if gone in s.mem && s.mem[gone].data.Some? then Goto(s, t, Delete(gone, s.mem[gone].data.value)) else s
    case Delete(gone, res) => Marked(Goto(s.(mem := s.mem - {gone}), t, Idle), Return(t, Popped(res)))
    case _ => s
  }

  /** One step of a thread in empty. */
  function EmptyStep(s: State, t: Tid): State {
    match PcOf(s, t)
    case LockHeadToTest => Goto(s.(headLock := Some(t)), t, ReadSize)
    case ReadSize => Marked(Goto(s, t, UnlockHeadTested(s.size == 0)), Point(t, Tested(s.size == 0)))
    case UnlockHeadTested(b) => Marked(Goto(s.(headLock := None), t, Idle), Return(t, Tested(b)))
    case _ => s
  }

  predicate InPush(pc: Pc) {
    pc.NewNode? || pc.LockTail? || pc.SetData? || pc.SetNext? || pc.MoveTail? || pc.CountUp? || pc.UnlockTail?
  }

  predicate InEmpty(pc: Pc) {
    pc.LockHeadToTest? || pc.ReadSize? || pc.UnlockHeadTested?
  }

  function Step(s: State, e: Event): State {
    match e
    case Begin(t, op) => Marked(Goto(s, t, Start(op)), Call(t, op))
    case Go(t, spare) =>
      if InPush(PcOf(s, t)) then PushStep(s, t, spare)
      else if InEmpty(PcOf(s, t)) then EmptyStep(s, t)
      else PopStep(s, t)
  }

  predicate Possible(s: State, es: seq<Event>)
    decreases |es|
  {
    es == [] || (Enabled(s, es[0]) && Possible(Step(s, es[0]), es[1..]))
  }

  function Run(s: State, es: seq<Event>): State
    decreases |es|
  {
    if es == [] then s else Run(Step(s, es[0]), es[1..])
  }

  // ---- what linearizable means

  /** The sequential queue: what the effects of a history, in their order, make of an empty queue.
      None if one of them is not what a FIFO queue would do. */
  function Replay(trace: seq<Mark>): Option<seq<Value>> {
    if trace == [] then Some([])
    else
      var m, q := trace[|trace| - 1], Replay(trace[..|trace| - 1]);
      if q.None? || !m.Point? then q
      else
        match m.e
        case Pushed(v) => Some(q.value + [v])
        case Popped(v) => if q.value != [] && q.value[0] == v then Some(q.value[1..]) else None
        case NothingToPop => if q.value == [] then q else None
        case Tested(b) => if b == (q.value == []) then q else None
  }

  datatype Phase = Outside | Called(op: Op) | Took(e: Effect) | Broken

  predicate Fits(op: Op, e: Effect) {
    match op
    case PushOp(v) => e == Pushed(v)
    case PopOp => e.Popped? || e.NothingToPop?
    case EmptyOp => e.Tested?
  }

  /** A thread's part of the history: each operation is called, takes effect once, and returns what that
      effect was; otherwise it is broken. */
  function PhaseOf(trace: seq<Mark>, t: Tid): Phase {
    if trace == [] then Outside
    else
      var m, ph := trace[|trace| - 1], PhaseOf(trace[..|trace| - 1], t);
      if m.t != t then ph
      else
        match m
        case Call(_, op) => if ph.Outside? then Called(op) else Broken
        case Point(_, e) => if ph.Called? && Fits(ph.op, e) then Took(e) else Broken
        case Return(_, e) => if ph == Took(e) then Outside else Broken
  }

  // ---- the invariant

  predicate HoldsTail(pc: Pc) {
    pc.SetData? || pc.SetNext? || pc.MoveTail? || pc.CountUp? || pc.UnlockTail? || pc.ReadTail? || pc.UnlockTailRead?
  }

  predicate HoldsHead(pc: Pc) {
    pc.LockTailToRead? || pc.ReadTail? || pc.UnlockTailRead? || pc.Compare? || pc.TakeHead? || pc.MoveHead?
    || pc.CountDown? || pc.UnlockHead? || pc.UnlockHeadEmpty? || pc.ReadSize? || pc.UnlockHeadTested?
  }

  /** The node a thread has to itself: not yet, or no longer, in the list. */
  function Own(pc: Pc): Option<Ref> {
    match pc
    case LockTail(_, p) => Some(p)
    case SetData(_, p) => Some(p)
    case SetNext(_, p) => Some(p)
    case MoveTail(_, p) => Some(p)
    case CountDown(gone) => Some(gone)
    case UnlockHead(gone) => Some(gone)
    case TakeData(gone) => Some(gone)
    case Delete(gone, _) => Some(gone)
    case _ => None
  }

  /** Each lock is held by the thread inside its critical section. */
  ghost predicate Locks(s: State) {
    (forall t: Tid :: HoldsTail(PcOf(s, t)) <==> s.tailLock == Some(t)) &&
    (forall t: Tid :: HoldsHead(PcOf(s, t)) <==> s.headLock == Some(t))
  }

  predicate Owned(s: State, t: Tid) {
    var o := Own(PcOf(s, t));
    o.Some? ==> o.value in s.mem && o.value !in s.chain
  }

  ghost predicate Owners(s: State) {
    (forall t: Tid :: Owned(s, t)) &&
    (forall t: Tid, u: Tid :: t != u && Own(PcOf(s, t)).Some? ==> Own(PcOf(s, t)) != Own(PcOf(s, u)))
  }

  /** The value linked in and not yet counted. */
  function InFlight(s: State): seq<Value> {
    if s.tailLock.Some? && PcOf(s, s.tailLock.value).CountUp? then [PcOf(s, s.tailLock.value).v] else []
  }

  predicate Counting(s: State) {
    s.headLock.Some? && PcOf(s, s.headLock.value).CountDown?
  }

  predicate Distinct(c: seq<Ref>) {
    forall i, j :: 0 <= i < j < |c| ==> c[i] != c[j]
  }

  /** From head to tail run distinct nodes, linked in order and holding vs; the last is the dummy. */
  predicate LinkedBy(mem: map<Ref, Node>, c: seq<Ref>, head: Ref, tail: Ref, vs: seq<Value>) {
    |c| == |vs| + 1 && c[0] == head && c[|c| - 1] == tail && Distinct(c) &&
    (forall i :: 0 <= i < |c| ==> c[i] in mem) &&
    (forall i :: 0 <= i < |vs| ==> mem[c[i]] == Node(Some(vs[i]), Some(c[i + 1])))
  }

  predicate Linked(s: State) {
    LinkedBy(s.mem, s.chain, s.head, s.tail, s.queue + InFlight(s))
  }

  /** What a thread under way knows of the shared state. */
  predicate Knows(s: State, t: Tid) {
    match PcOf(s, t)
    case SetNext(v, _) => s.tail in s.mem && s.mem[s.tail].data == Some(v)
    case MoveTail(v, p) => s.tail in s.mem && s.mem[s.tail] == Node(Some(v), Some(p))
    case UnlockTailRead(x) => x == s.tail
    case Compare(x) => x in s.chain && (InFlight(s) != [] ==> x != s.tail)
    case TakeHead(x) => x in s.chain && x != s.head && (InFlight(s) != [] ==> x != s.tail)
    case MoveHead(x, gone) => x in s.chain && x != s.head && gone == s.head && (InFlight(s) != [] ==> x != s.tail)
    case _ => true
  }

  ghost predicate Knowledge(s: State) {
    forall t: Tid :: Knows(s, t)
  }

  predicate Sized(s: State) {
    s.size == |s.queue| + if Counting(s) then 1 else 0
  }

  /** The phase a thread's position stands for. */
  function Expected(s: State, t: Tid): Phase {
    match PcOf(s, t)
    case Idle => Outside
    case NewNode(v) => Called(PushOp(v))
    case LockTail(v, _) => Called(PushOp(v))
    case SetData(v, _) => Called(PushOp(v))
    case SetNext(v, _) => Called(PushOp(v))
    case MoveTail(v, _) => Called(PushOp(v))
    case CountUp(v) => Called(PushOp(v))
    case UnlockTail(v) => Took(Pushed(v))
    case UnlockTailRead(x) => if x == s.head then Took(NothingToPop) else Called(PopOp)
    case Compare(x) => if x == s.head then Took(NothingToPop) else Called(PopOp)
    case UnlockHeadEmpty => Took(NothingToPop)
    case CountDown(gone) => Holding(s, gone)
    case UnlockHead(gone) => Holding(s, gone)
    case TakeData(gone) => Holding(s, gone)
    case Delete(_, res) => Took(Popped(res))
    case LockHeadToTest => Called(EmptyOp)
    case ReadSize => Called(EmptyOp)
    case UnlockHeadTested(b) => Took(Tested(b))
    case _ => Called(PopOp)
  }

  function Holding(s: State, gone: Ref): Phase {
    if gone in s.mem && s.mem[gone].data.Some? then Took(Popped(s.mem[gone].data.value)) else Broken
  }

  ghost predicate Phases(s: State) {
    forall t: Tid :: PhaseOf(s.trace, t) == Expected(s, t) && Expected(s, t) != Broken
  }

  ghost predicate Inv(s: State) {
    Locks(s) && Owners(s) && Linked(s) && Knowledge(s) && Sized(s) && Phases(s) && Replay(s.trace) == Some(s.queue)
  }

  // ---- keeping the invariant

  lemma OthersStay(s: State, e: Event, u: Tid)
    requires u != e.t
    ensures PcOf(Step(s, e), u) == PcOf(s, u)
  {
  }

  predicate IsPush(s: State, e: Event) {
    e.Go? && InPush(PcOf(s, e.t))
  }

  predicate IsEmpty(s: State, e: Event) {
    e.Go? && InEmpty(PcOf(s, e.t))
  }

  predicate IsPop(s: State, e: Event) {
    e.Go? && !IsPush(s, e) && !IsEmpty(s, e)
  }

  /** What a step does to the locks, seen from the thread that takes it. */
  predicate LocksMove(s: State, s': State, t: Tid) {
    var pc, pc' := PcOf(s, t), PcOf(s', t);
    (if HoldsTail(pc) == HoldsTail(pc') then s'.tailLock == s.tailLock
     else if HoldsTail(pc') then s.tailLock == None && s'.tailLock == Some(t)
     else s'.tailLock == None) &&
    if HoldsHead(pc) == HoldsHead(pc') then s'.headLock == s.headLock
    else if HoldsHead(pc') then s.headLock == None && s'.headLock == Some(t)
    else s'.headLock == None
  }

  lemma PushLocks(s: State, e: Event)
    requires Enabled(s, e) && IsPush(s, e)
    ensures LocksMove(s, Step(s, e), e.t)
  {
    hide PopStep, EmptyStep;
  }

  lemma PopLocks(s: State, e: Event)
    requires Enabled(s, e) && IsPop(s, e)
    ensures LocksMove(s, Step(s, e), e.t)
  {
    hide PushStep, EmptyStep;
  }

  lemma OtherLocks(s: State, e: Event)
    requires Enabled(s, e) && !IsPush(s, e) && !IsPop(s, e)
    ensures LocksMove(s, Step(s, e), e.t)
  {
    hide PushStep, PopStep;
  }

  lemma {:induction false} LocksStep(s: State, e: Event)
    requires Locks(s) && Enabled(s, e)
    ensures Locks(Step(s, e))
  {
    var s' := Step(s, e);
    assert LocksMove(s, s', e.t) by {
      if IsPush(s, e) {
        PushLocks(s, e);
      } else if IsPop(s, e) {
        PopLocks(s, e);
      } else {
        OtherLocks(s, e);
      }
    }
    hide Step, PcOf, HoldsHead, HoldsTail;
    forall t: Tid
      ensures HoldsTail(PcOf(s', t)) <==> s'.tailLock == Some(t)
      ensures HoldsHead(PcOf(s', t)) <==> s'.headLock == Some(t)
    {
      if t != e.t {
        OthersStay(s, e, t);
      }
    }
  }

  // ---- who owns which node

  /** What a step does to the nodes: nothing, allocate one, link its own in at the tail, take the head
      off, or delete its own. */
  predicate NodesMove(s: State, s': State, t: Tid) {
    var o, o' := Own(PcOf(s, t)), Own(PcOf(s', t));
    (s'.mem.Keys == s.mem.Keys && s'.chain == s.chain && o' == o) ||
    (o == None && o'.Some? && o'.value !in s.mem && s'.mem.Keys == s.mem.Keys + {o'.value} && s'.chain == s.chain) ||
    (o.Some? && o' == None && s'.mem.Keys == s.mem.Keys && s'.chain == s.chain + [o.value]) ||
    (o == None && o'.Some? && s.chain != [] && o'.value == s.chain[0] && s'.mem.Keys == s.mem.Keys
     && s'.chain == s.chain[1..]) ||
    (o.Some? && o' == None && s'.mem.Keys == s.mem.Keys - {o.value} && s'.chain == s.chain)
  }

  lemma PushNodes(s: State, e: Event)
    requires Enabled(s, e) && IsPush(s, e)
    ensures NodesMove(s, Step(s, e), e.t)
  {
    hide PopStep, EmptyStep;
  }

  lemma PopNodes(s: State, e: Event)
    requires Enabled(s, e) && IsPop(s, e) && Knows(s, e.t) && Linked(s)
    ensures NodesMove(s, Step(s, e), e.t)
  {
    hide PushStep, EmptyStep;
  }

  lemma OtherNodes(s: State, e: Event)
    requires Enabled(s, e) && !IsPush(s, e) && !IsPop(s, e)
    ensures NodesMove(s, Step(s, e), e.t)
  {
    hide PushStep, PopStep;
  }

  lemma {:induction false} NodesStep(s: State, e: Event)
    requires Enabled(s, e) && Knowledge(s) && Linked(s)
    ensures NodesMove(s, Step(s, e), e.t)
  {
    hide NodesMove, Linked;
    assert Knows(s, e.t);
    if IsPush(s, e) {
      PushNodes(s, e);
    } else if IsPop(s, e) {
      PopNodes(s, e);
    } else {
      OtherNodes(s, e);
    }
  }

  lemma OwnersStep(s: State, e: Event)
    requires Owners(s) && Knowledge(s) && Linked(s) && Enabled(s, e)
    ensures Owners(Step(s, e))
  {
    var s' := Step(s, e);
    NodesStep(s, e);
    hide Step, PcOf, Own, Knowledge;
    assert Owned(s, e.t);
    forall t: Tid
      ensures Owned(s', t)
    {
      assert Owned(s, t);
      if t != e.t {
        OthersStay(s, e, t);
        assert Own(PcOf(s, t)).Some? ==> Own(PcOf(s, t)) != Own(PcOf(s, e.t));
      }
    }
    forall t: Tid, u: Tid | t != u && Own(PcOf(s', t)).Some?
      ensures Own(PcOf(s', t)) != Own(PcOf(s', u))
    {
      assert Owned(s, t) && Owned(s, u);
      if t != e.t {
        OthersStay(s, e, t);
      }
      if u != e.t {
        OthersStay(s, e, u);
      }
    }
  }

  // ---- the linked list

  lemma InFlightStep(s: State, e: Event)
    requires Locks(s) && Enabled(s, e)
    ensures InFlight(Step(s, e)) == match PcOf(s, e.t)
                                    case MoveTail(v, _) => [v]
                                    case CountUp(_) => []
                                    case _ => InFlight(s)
    ensures PcOf(s, e.t).MoveTail? ==> e.Go? && InFlight(s) == []
    ensures PcOf(s, e.t).CountUp? ==> e.Go? && InFlight(s) == [PcOf(s, e.t).v]
  {
    LocksStep(s, e);
    var s' := Step(s, e);
    if s.tailLock.Some? && s.tailLock.value != e.t {
      OthersStay(s, e, s.tailLock.value);
    }
    if s'.tailLock.Some? && s'.tailLock.value != e.t {
      OthersStay(s, e, s'.tailLock.value);
    }
    assert HoldsTail(PcOf(s, e.t)) <==> s.tailLock == Some(e.t);
    assert HoldsTail(PcOf(s', e.t)) <==> s'.tailLock == Some(e.t);
  }

  lemma AppendNode(mem: map<Ref, Node>, c: seq<Ref>, head: Ref, tail: Ref, vs: seq<Value>, v: Value, p: Ref)
    requires LinkedBy(mem, c, head, tail, vs) && p in mem && p !in c && mem[tail] == Node(Some(v), Some(p))
    ensures LinkedBy(mem, c + [p], head, p, vs + [v])
  {
  }

  lemma DropNode(mem: map<Ref, Node>, c: seq<Ref>, head: Ref, tail: Ref, vs: seq<Value>)
    requires LinkedBy(mem, c, head, tail, vs) && vs != []
    ensures mem[head].next.Some? && LinkedBy(mem, c[1..], mem[head].next.value, tail, vs[1..])
  {
    assert mem[c[0]] == Node(Some(vs[0]), Some(c[1]));
    forall i | 0 <= i < |vs| - 1
      ensures mem[c[1..][i]] == Node(Some(vs[1..][i]), Some(c[1..][i + 1]))
    {
      assert mem[c[i + 1]] == Node(Some(vs[i + 1]), Some(c[i + 2]));
    }
  }

  lemma WriteTail(mem: map<Ref, Node>, c: seq<Ref>, head: Ref, tail: Ref, vs: seq<Value>, n: Node)
    requires LinkedBy(mem, c, head, tail, vs)
    ensures LinkedBy(mem[tail := n], c, head, tail, vs)
  {
  }

  lemma OffList(mem: map<Ref, Node>, mem': map<Ref, Node>, c: seq<Ref>, head: Ref, tail: Ref, vs: seq<Value>)
    requires LinkedBy(mem, c, head, tail, vs)
    requires forall x :: x in c ==> x in mem' && mem'[x] == mem[x]
    ensures LinkedBy(mem', c, head, tail, vs)
  {
    forall i | 0 <= i < |vs|
      ensures mem'[c[i]] == Node(Some(vs[i]), Some(c[i + 1]))
    {
      assert c[i] in c;
    }
  }

  lemma LinkedPush(s: State, e: Event)
    requires Linked(s) && Locks(s) && Owned(s, e.t) && Knows(s, e.t) && Enabled(s, e) && IsPush(s, e)
    ensures Linked(Step(s, e))
  {
    hide LinkedBy, InFlight, Locks, PopStep, EmptyStep;
    var s', vs := Step(s, e), s.queue + InFlight(s);
    InFlightStep(s, e);
    TailInMemory(s);
    match PcOf(s, e.t)
    case NewNode(_) =>
      OnList(s);
      OffList(s.mem, s'.mem, s.chain, s.head, s.tail, vs);
    case SetData(v, _) => WriteTail(s.mem, s.chain, s.head, s.tail, vs, s'.mem[s.tail]);
    case SetNext(_, p) => WriteTail(s.mem, s.chain, s.head, s.tail, vs, s'.mem[s.tail]);
    case MoveTail(v, p) =>
      AppendNode(s.mem, s.chain, s.head, s.tail, vs, v, p);
      assert s.queue + [] == s.queue;
    case CountUp(v) => assert s.queue + [v] + [] == s.queue + [v];
    case _ =>
  }

  lemma TailInMemory(s: State)
    requires Linked(s)
    ensures s.tail in s.mem && s.head in s.mem && s.tail in s.chain && s.head in s.chain
  {
  }

  lemma OnList(s: State)
    requires Linked(s)
    ensures forall x :: x in s.chain ==> x in s.mem
  {
  }

  /** The popper that saw a tail other than the head has something to take. */
  lemma SomethingToTake(s: State, t: Tid)
    requires Linked(s) && Locks(s) && Knows(s, t) && PcOf(s, t).MoveHead?
    ensures s.queue != [] && s.chain != [] && s.head in s.mem
    ensures s.mem[s.head] == Node(Some(s.queue[0]), Some(s.chain[1]))
  {
    var vs := s.queue + InFlight(s);
    var k :| 0 <= k < |s.chain| && s.chain[k] == PcOf(s, t).seen;
    assert k > 0;
    assert |vs| > 0;
    assert vs[0] == s.queue[0] && s.mem[s.chain[0]] == Node(Some(vs[0]), Some(s.chain[1]));
  }

  lemma {:induction false} LinkedPop(s: State, e: Event)
    requires Linked(s) && Locks(s) && Owned(s, e.t) && Knows(s, e.t) && Enabled(s, e) && IsPop(s, e)
    ensures Linked(Step(s, e))
  {
    hide LinkedBy, InFlight, Locks, PushStep, EmptyStep;
    var s', vs := Step(s, e), s.queue + InFlight(s);
    InFlightStep(s, e);
    match PcOf(s, e.t)
    case MoveHead(_, _) =>
      SomethingToTake(s, e.t);
      DropNode(s.mem, s.chain, s.head, s.tail, vs);
      assert vs[1..] == s.queue[1..] + InFlight(s);
    case Delete(g, _) =>
      OnList(s);
      OffList(s.mem, s'.mem, s.chain, s.head, s.tail, vs);
    case _ =>
  }

  lemma LinkedStep(s: State, e: Event)
    requires Linked(s) && Locks(s) && Owners(s) && Knowledge(s) && Enabled(s, e)
    ensures Linked(Step(s, e))
  {
    hide LinkedBy, InFlight, Locks, PushStep, PopStep;
    assert Owned(s, e.t) && Knows(s, e.t);
    InFlightStep(s, e);
    if IsPush(s, e) {
      LinkedPush(s, e);
    } else if IsPop(s, e) {
      LinkedPop(s, e);
    }
  }

  // ---- what threads know

  /** What a step leaves as it was for the other threads. */
  predicate SharedMove(s: State, s': State, t: Tid)
    requires s.tail in s.mem
  {
    (HoldsTail(PcOf(s, t)) || (s'.tail == s.tail && s.tail in s'.mem && s'.mem[s.tail] == s.mem[s.tail])) &&
    (HoldsHead(PcOf(s, t)) || (s'.head == s.head && s.chain <= s'.chain)) &&
    ((s'.tail == s.tail && (InFlight(s') != [] ==> InFlight(s) != [])) || s'.tail !in s.chain)
  }

  lemma SharedPush(s: State, e: Event)
    requires Linked(s) && Locks(s) && Owned(s, e.t) && Enabled(s, e) && IsPush(s, e) && s.tail in s.mem
    ensures SharedMove(s, Step(s, e), e.t)
  {
    hide LinkedBy, InFlight, Locks, PopStep, EmptyStep;
    InFlightStep(s, e);
  }

  lemma SharedPop(s: State, e: Event)
    requires Linked(s) && Locks(s) && Owned(s, e.t) && Enabled(s, e) && IsPop(s, e) && s.tail in s.mem
    ensures SharedMove(s, Step(s, e), e.t)
  {
    hide LinkedBy, InFlight, Locks, PushStep, EmptyStep;
    InFlightStep(s, e);
    TailInMemory(s);
  }

  lemma SharedOther(s: State, e: Event)
    requires Locks(s) && Enabled(s, e) && !IsPush(s, e) && !IsPop(s, e) && s.tail in s.mem
    ensures SharedMove(s, Step(s, e), e.t)
  {
    hide LinkedBy, InFlight, Locks, PushStep, PopStep;
    InFlightStep(s, e);
  }

  lemma SharedStep(s: State, e: Event)
    requires Linked(s) && Locks(s) && Owners(s) && Enabled(s, e) && s.tail in s.mem
    ensures SharedMove(s, Step(s, e), e.t)
  {
    hide Linked, Locks, SharedMove;
    assert Owned(s, e.t);
    if IsPush(s, e) {
      SharedPush(s, e);
    } else if IsPop(s, e) {
      SharedPop(s, e);
    } else {
      SharedOther(s, e);
    }
  }

  lemma OthersKnow(s: State, e: Event, u: Tid)
    requires Linked(s) && Locks(s) && Knows(s, u) && Enabled(s, e) && u != e.t && s.tail in s.mem
    requires SharedMove(s, Step(s, e), e.t)
    ensures Knows(Step(s, e), u)
  {
    hide Step, LinkedBy, InFlight, Enabled;
    OthersStay(s, e, u);
    assert HoldsTail(PcOf(s, u)) <==> s.tailLock == Some(u);
    assert HoldsTail(PcOf(s, e.t)) <==> s.tailLock == Some(e.t);
    assert HoldsHead(PcOf(s, u)) <==> s.headLock == Some(u);
    assert HoldsHead(PcOf(s, e.t)) <==> s.headLock == Some(e.t);
    var c, c' := s.chain, Step(s, e).chain;
    assert c <= c' ==> forall x :: x in c ==> x in c';
  }

  lemma SelfKnowsPush(s: State, e: Event)
    requires Linked(s) && Knows(s, e.t) && Enabled(s, e) && IsPush(s, e)
    ensures Knows(Step(s, e), e.t)
  {
    hide LinkedBy, InFlight, PopStep, EmptyStep;
  }

  lemma SelfKnowsPop(s: State, e: Event)
    requires Linked(s) && Locks(s) && Knows(s, e.t) && Enabled(s, e) && IsPop(s, e)
    ensures Knows(Step(s, e), e.t)
  {
    hide LinkedBy, InFlight, Locks, PushStep, EmptyStep;
    TailInMemory(s);
    InFlightStep(s, e);
    if PcOf(s, e.t).UnlockTailRead? {
      NotInFlight(s, e.t);
    }
  }

  lemma NotInFlight(s: State, t: Tid)
    requires Locks(s) && HoldsTail(PcOf(s, t)) && !PcOf(s, t).CountUp?
    ensures InFlight(s) == []
  {
  }

  lemma KnowledgeStep(s: State, e: Event)
    requires Linked(s) && Locks(s) && Owners(s) && Knowledge(s) && Enabled(s, e)
    ensures Knowledge(Step(s, e))
  {
    hide Linked, Locks, Knows, Owners, SharedMove, Enabled, PushStep, PopStep;
    TailInMemory(s);
    SharedStep(s, e);
    forall u: Tid
      ensures Knows(Step(s, e), u)
    {
      assert Knows(s, u);
      if u != e.t {
        OthersKnow(s, e, u);
      } else if IsPush(s, e) {
        SelfKnowsPush(s, e);
      } else if IsPop(s, e) {
        SelfKnowsPop(s, e);
      } else {
        SelfKnowsOther(s, e);
      }
    }
  }

  lemma SelfKnowsOther(s: State, e: Event)
    requires Knows(s, e.t) && Enabled(s, e) && !IsPush(s, e) && !IsPop(s, e)
    ensures Knows(Step(s, e), e.t)
  {
    hide InFlight, PushStep, PopStep;
  }

  // ---- the counter

  lemma CountingStep(s: State, e: Event)
    requires Locks(s) && Enabled(s, e)
    ensures Counting(Step(s, e)) == match PcOf(s, e.t)
                                    case MoveHead(_, g) => Counting(Step(s, e))
                                    case CountDown(_) => false
                                    case _ => Counting(s)
    ensures PcOf(s, e.t).MoveHead? ==> e.Go? && !Counting(s)
    ensures PcOf(s, e.t).CountDown? ==> e.Go? && Counting(s)
    ensures PcOf(s, e.t).ReadSize? ==> e.Go? && !Counting(s)
    ensures PcOf(Step(s, e), e.t).CountDown? ==> Counting(Step(s, e))
  {
    LocksStep(s, e);
    var s' := Step(s, e);
    if s.headLock.Some? && s.headLock.value != e.t {
      OthersStay(s, e, s.headLock.value);
    }
    if s'.headLock.Some? && s'.headLock.value != e.t {
      OthersStay(s, e, s'.headLock.value);
    }
    assert HoldsHead(PcOf(s, e.t)) <==> s.headLock == Some(e.t);
    assert HoldsHead(PcOf(s', e.t)) <==> s'.headLock == Some(e.t);
  }

  lemma SizedStep(s: State, e: Event)
    requires Sized(s) && Locks(s) && Linked(s) && Knows(s, e.t) && Enabled(s, e)
    ensures Sized(Step(s, e))
  {
    hide Counting, Locks, Linked;
    CountingStep(s, e);
    if PcOf(s, e.t).MoveHead? {
      SomethingToTake(s, e.t);
    }
  }

  // ---- the history

  lemma PhaseSnoc(trace: seq<Mark>, m: Mark, t: Tid)
    ensures var ph := PhaseOf(trace, t);
            PhaseOf(trace + [m], t) ==
            if m.t != t then ph
            else match m
                 case Call(_, op) => if ph.Outside? then Called(op) else Broken
                 case Point(_, e) => if ph.Called? && Fits(ph.op, e) then Took(e) else Broken
                 case Return(_, e) => if ph == Took(e) then Outside else Broken
  {
    assert (trace + [m])[..|trace|] == trace;
  }

  lemma ReplaySnoc(trace: seq<Mark>, m: Mark)
    ensures !m.Point? ==> Replay(trace + [m]) == Replay(trace)
    ensures Replay(trace).Some? && m.Point? ==>
              var q := Replay(trace).value;
              Replay(trace + [m]) ==
              match m.e
              case Pushed(v) => Some(q + [v])
              case Popped(v) => if q != [] && q[0] == v then Some(q[1..]) else None
              case NothingToPop => if q == [] then Some(q) else None
              case Tested(b) => if b == (q == []) then Some(q) else None
  {
    assert (trace + [m])[..|trace|] == trace;
  }

  /** The trace grows by at most one mark, and that of the thread which takes the step. */
  predicate Traced(s: State, s': State, t: Tid) {
    s'.trace == s.trace || (s'.trace != [] && s'.trace[|s'.trace| - 1].t == t && s'.trace[..|s'.trace| - 1] == s.trace)
  }

  lemma TracePush(s: State, e: Event)
    requires IsPush(s, e)
    ensures Traced(s, Step(s, e), e.t)
  {
    hide PopStep, EmptyStep;
  }

  lemma TracePop(s: State, e: Event)
    requires IsPop(s, e)
    ensures Traced(s, Step(s, e), e.t)
  {
    hide PushStep, EmptyStep;
  }

  lemma TraceOther(s: State, e: Event)
    requires !IsPush(s, e) && !IsPop(s, e)
    ensures Traced(s, Step(s, e), e.t)
  {
    hide PushStep, PopStep;
  }

  lemma TraceStep(s: State, e: Event) returns (m: Mark)
    ensures Step(s, e).trace == s.trace || Step(s, e).trace == s.trace + [m]
    ensures m.t == e.t
  {
    hide PushStep, PopStep, EmptyStep;
    var tr := Step(s, e).trace;
    if IsPush(s, e) {
      TracePush(s, e);
    } else if IsPop(s, e) {
      TracePop(s, e);
    } else {
      TraceOther(s, e);
    }
    m := if tr == s.trace then Return(e.t, NothingToPop) else tr[|tr| - 1];
    assert tr != s.trace ==> tr == tr[..|tr| - 1] + [m];
  }

  lemma NodeKept(s: State, e: Event, g: Ref)
    requires Enabled(s, e) && g in s.mem && g != s.tail && Own(PcOf(s, e.t)) != Some(g)
    ensures g in Step(s, e).mem && Step(s, e).mem[g] == s.mem[g]
  {
    if IsPush(s, e) {
      hide PopStep, EmptyStep;
    } else if IsPop(s, e) {
      hide PushStep, EmptyStep;
    }
  }

  /** The node another thread owns keeps its data. */
  lemma OwnedKept(s: State, e: Event, u: Tid, g: Ref)
    requires Owners(s) && Linked(s) && Enabled(s, e) && u != e.t && Own(PcOf(s, u)) == Some(g)
    ensures g in s.mem && g in Step(s, e).mem && Step(s, e).mem[g] == s.mem[g]
  {
    hide LinkedBy, Step, Enabled, Own;
    assert Owned(s, u) && Own(PcOf(s, u)) != Own(PcOf(s, e.t));
    TailInMemory(s);
    NodeKept(s, e, g);
  }

  lemma {:induction false} OthersExpected(s: State, e: Event, u: Tid)
    requires Owners(s) && Linked(s) && Locks(s) && Enabled(s, e) && u != e.t && s.tail in s.mem
    requires SharedMove(s, Step(s, e), e.t)
    ensures Expected(Step(s, e), u) == Expected(s, u)
  {
    hide Step, Linked, InFlight, Owners, Enabled;
    OthersStay(s, e, u);
    assert HoldsHead(PcOf(s, u)) <==> s.headLock == Some(u);
    assert HoldsHead(PcOf(s, e.t)) <==> s.headLock == Some(e.t);
    var o := Own(PcOf(s, u));
    if o.Some? {
      OwnedKept(s, e, u, o.value);
    }
  }

  lemma SelfPush(s: State, e: Event)
    requires PhaseOf(s.trace, e.t) == Expected(s, e.t) && Enabled(s, e) && IsPush(s, e)
    ensures var s' := Step(s, e); PhaseOf(s'.trace, e.t) == Expected(s', e.t) && Expected(s', e.t) != Broken
  {
    hide PhaseOf, PopStep, EmptyStep;
    var pc := PcOf(s, e.t);
    if pc.CountUp? {
      PhaseSnoc(s.trace, Point(e.t, Pushed(pc.v)), e.t);
    } else if pc.UnlockTail? {
      PhaseSnoc(s.trace, Return(e.t, Pushed(pc.v)), e.t);
    }
  }

  lemma SelfPop(s: State, e: Event)
    requires PhaseOf(s.trace, e.t) == Expected(s, e.t) && Expected(s, e.t) != Broken && Enabled(s, e) && IsPop(s, e)
    requires Linked(s) && Locks(s) && Knows(s, e.t)
    ensures var s' := Step(s, e); PhaseOf(s'.trace, e.t) == Expected(s', e.t) && Expected(s', e.t) != Broken
  {
    hide PhaseOf, PushStep, EmptyStep, LinkedBy, InFlight, Locks;
    var pc := PcOf(s, e.t);
    match pc
    case ReadTail => PhaseSnoc(s.trace, Point(e.t, NothingToPop), e.t);
    case MoveHead(_, _) =>
      SomethingToTake(s, e.t);
      PhaseSnoc(s.trace, Point(e.t, Popped(s.queue[0])), e.t);
    case UnlockHeadEmpty => PhaseSnoc(s.trace, Return(e.t, NothingToPop), e.t);
    case Delete(_, res) => PhaseSnoc(s.trace, Return(e.t, Popped(res)), e.t);
    case _ =>
  }

  lemma SelfOther(s: State, e: Event)
    requires PhaseOf(s.trace, e.t) == Expected(s, e.t) && Enabled(s, e) && !IsPush(s, e) && !IsPop(s, e)
    ensures var s' := Step(s, e); PhaseOf(s'.trace, e.t) == Expected(s', e.t) && Expected(s', e.t) != Broken
  {
    hide PhaseOf, PushStep, PopStep;
    match e
    case Begin(t, op) => PhaseSnoc(s.trace, Call(t, op), t);
    case Go(t, _) =>
      PhaseSnoc(s.trace, Point(t, Tested(s.size == 0)), t);
      if PcOf(s, t).UnlockHeadTested? {
        PhaseSnoc(s.trace, Return(t, Tested(PcOf(s, t).isEmpty)), t);
      }
  }

  lemma PhasesStep(s: State, e: Event)
    requires Inv(s) && Enabled(s, e)
    ensures Phases(Step(s, e))
  {
    hide Linked, Locks, Knows, Owners, SharedMove, Enabled, Step, PhaseOf, Expected, Sized, Replay;
    TailInMemory(s);
    SharedStep(s, e);
    var m := TraceStep(s, e);
    forall u: Tid
      ensures PhaseOf(Step(s, e).trace, u) == Expected(Step(s, e), u) && Expected(Step(s, e), u) != Broken
    {
      assert PhaseOf(s.trace, u) == Expected(s, u) && Knows(s, u);
      if u != e.t {
        PhaseSnoc(s.trace, m, u);
        OthersExpected(s, e, u);
      } else if IsPush(s, e) {
        SelfPush(s, e);
      } else if IsPop(s, e) {
        SelfPop(s, e);
      } else {
        SelfOther(s, e);
      }
    }
  }

  lemma EmptyQueue(s: State)
    requires Linked(s) && s.head == s.tail
    ensures s.queue == []
  {
  }

  lemma ReplayPush(s: State, e: Event)
    requires Replay(s.trace) == Some(s.queue) && Enabled(s, e) && IsPush(s, e)
    ensures Replay(Step(s, e).trace) == Some(Step(s, e).queue)
  {
    hide Replay, PopStep, EmptyStep;
    var pc := PcOf(s, e.t);
    if pc.CountUp? {
      ReplaySnoc(s.trace, Point(e.t, Pushed(pc.v)));
    } else if pc.UnlockTail? {
      ReplaySnoc(s.trace, Return(e.t, Pushed(pc.v)));
    }
  }

  lemma {:induction false} ReplayPop(s: State, e: Event)
    requires Replay(s.trace) == Some(s.queue) && Linked(s) && Locks(s) && Knows(s, e.t) && Enabled(s, e) && IsPop(s, e)
    ensures Replay(Step(s, e).trace) == Some(Step(s, e).queue)
  {
    hide Linked, Locks, Replay, PushStep, EmptyStep;
    var pc := PcOf(s, e.t);
    match pc
    case ReadTail =>
      if s.head == s.tail {
        EmptyQueue(s);
        ReplaySnoc(s.trace, Point(e.t, NothingToPop));
      }
    case MoveHead(_, _) =>
      SomethingToTake(s, e.t);
      ReplaySnoc(s.trace, Point(e.t, Popped(s.queue[0])));
    case UnlockHeadEmpty => ReplaySnoc(s.trace, Return(e.t, NothingToPop));
    case Delete(_, res) => ReplaySnoc(s.trace, Return(e.t, Popped(res)));
    case _ =>
  }

  lemma ReplayOther(s: State, e: Event)
    requires Replay(s.trace) == Some(s.queue) && Locks(s) && Sized(s) && Enabled(s, e) && !IsPush(s, e) && !IsPop(s, e)
    ensures Replay(Step(s, e).trace) == Some(Step(s, e).queue)
  {
    hide Locks, Replay, PushStep, PopStep, Counting;
    CountingStep(s, e);
    match e
    case Begin(t, op) => ReplaySnoc(s.trace, Call(t, op));
    case Go(t, _) =>
      ReplaySnoc(s.trace, Point(t, Tested(s.size == 0)));
      if PcOf(s, t).UnlockHeadTested? {
        ReplaySnoc(s.trace, Return(t, Tested(PcOf(s, t).isEmpty)));
      }
  }

  /** Every effect is one that a sequential queue would show at that moment. */
  lemma {:induction false} ReplayStep(s: State, e: Event)
    requires Replay(s.trace) == Some(s.queue) && Linked(s) && Locks(s) && Sized(s) && Knows(s, e.t) && Enabled(s, e)
    ensures Replay(Step(s, e).trace) == Some(Step(s, e).queue)
  {
    hide Linked, Locks, Replay, Sized, Knows, Enabled, Step;
    if IsPush(s, e) {
      ReplayPush(s, e);
    } else if IsPop(s, e) {
      ReplayPop(s, e);
    } else {
      ReplayOther(s, e);
    }
  }

  lemma InvStep(s: State, e: Event)
    requires Inv(s) && Enabled(s, e)
    ensures Inv(Step(s, e))
  {
    hide Linked, Locks, Knows, Owners, Sized, Phases, Replay, Enabled, Step;
    LocksStep(s, e);
    OwnersStep(s, e);
    LinkedStep(s, e);
    KnowledgeStep(s, e);
    assert Knows(s, e.t);
    SizedStep(s, e);
    PhasesStep(s, e);
    ReplayStep(s, e);
  }

  lemma InvInitial(dummy: Ref)
    ensures Inv(Initial(dummy))
  {
    var s := Initial(dummy);
    assert s.queue + InFlight(s) == [];
  }

  lemma {:induction false} InvRun(s: State, es: seq<Event>)
    requires Inv(s) && Possible(s, es)
    ensures Inv(Run(s, es))
    decreases |es|
  {
    hide Inv, Enabled, Step;
    if es != [] {
      InvStep(s, es[0]);
      InvRun(Step(s, es[0]), es[1..]);
    }
  }

  /** MAIN RESULT. The queue is linearizable: in every interleaving, each operation of each thread takes
      effect exactly once between its call and its return and returns what that effect was, and the
      effects in their order are those of a sequential FIFO queue, which holds what the list holds. */
  lemma Linearizable(dummy: Ref, es: seq<Event>)
    requires Possible(Initial(dummy), es)
    ensures var s := Run(Initial(dummy), es);
            Replay(s.trace) == Some(s.queue) && LinkedBy(s.mem, s.chain, s.head, s.tail, s.queue + InFlight(s))
            && forall t: Tid :: PhaseOf(s.trace, t) != Broken && (PcOf(s, t).Idle? ==> PhaseOf(s.trace, t) == Outside)
  {
    hide Run, Possible, Replay, LinkedBy;
    InvInitial(dummy);
    InvRun(Initial(dummy), es);
  }

  /** The counter: it never goes below zero, and it is the number of linked nodes less the push between
      moving the tail and counting, plus the pop between moving the head and counting. */
  lemma CounterExact(dummy: Ref, es: seq<Event>)
    requires Possible(Initial(dummy), es)
    ensures var s := Run(Initial(dummy), es);
            s.size >= 0 && s.size == |s.chain| - 1 - |InFlight(s)| + (if Counting(s) then 1 else 0)
            && (Counting(s) ==> s.size >= 1)
  {
    hide Run, Possible;
    InvInitial(dummy);
    InvRun(Initial(dummy), es);
  }

  /** The steps whose guards stand for a read or write through a pointer. */
  predicate Safe(s: State, t: Tid) {
    match PcOf(s, t)
    case SetData(_, p) => s.tail in s.mem && p in s.mem
    case SetNext(_, p) => s.tail in s.mem && p in s.mem
    case MoveHead(_, g) => g in s.mem && s.mem[g].next.Some? && s.chain != [] && s.queue != []
    case TakeData(g) => g in s.mem && s.mem[g].data.Some?
    case Delete(g, _) => g in s.mem
    case _ => true
  }

  /** No thread ever follows a dangling or unset pointer. */
  lemma MemorySafe(dummy: Ref, es: seq<Event>, t: Tid)
    requires Possible(Initial(dummy), es)
    ensures Safe(Run(Initial(dummy), es), t)
  {
    hide Run, Possible, Inv, Safe;
    InvInitial(dummy);
    InvRun(Initial(dummy), es);
    SafeHere(Run(Initial(dummy), es), t);
  }

  lemma SafeHere(s: State, t: Tid)
    requires Inv(s)
    ensures Safe(s, t)
  {
    hide Replay, LinkedBy, PhaseOf, Sized, Locks;
    assert Knows(s, t) && Owned(s, t);
    assert PhaseOf(s.trace, t) == Expected(s, t);
    TailInMemory(s);
    if PcOf(s, t).MoveHead? {
      SomethingToTake(s, t);
    }
  }

  /** No two threads are inside the same critical section, and none writes a node another one owns. */
  lemma Exclusive(dummy: Ref, es: seq<Event>, t: Tid, u: Tid)
    requires Possible(Initial(dummy), es) && t != u
    ensures var s := Run(Initial(dummy), es);
            !(HoldsTail(PcOf(s, t)) && HoldsTail(PcOf(s, u))) && !(HoldsHead(PcOf(s, t)) && HoldsHead(PcOf(s, u)))
            && (Own(PcOf(s, t)).Some? ==> Own(PcOf(s, t)) != Own(PcOf(s, u)))
  {
    hide Run, Possible;
    InvInitial(dummy);
    InvRun(Initial(dummy), es);
  }
}

/** The two-lock queue gets on: no operation takes more than a fixed number of its thread's own steps, some thread can
    always take one, and an operation undisturbed does what a sequential queue would. */
module QueueProgress {
  import opened TwoLockQueue

  /** A bound on the steps a thread still has to take. */
  function Rank(pc: Pc): nat {
    match pc
    case Idle => 0
    case NewNode(_) => 7
    case LockTail(_, _) => 6
    case SetData(_, _) => 5
    case SetNext(_, _) => 4
    case MoveTail(_, _) => 3
    case CountUp(_) => 2
    case UnlockTail(_) => 1
    case LockHead => 11
    case LockTailToRead => 10
    case ReadTail => 9
    case UnlockTailRead(_) => 8
    case Compare(_) => 7
    case TakeHead(_) => 6
    case MoveHead(_, _) => 5
    case CountDown(_) => 4
    case UnlockHead(_) => 3
    case UnlockHeadEmpty => 1
    case TakeData(_) => 2
    case Delete(_, _) => 1
    case LockHeadToTest => 3
    case ReadSize => 2
    case UnlockHeadTested(_) => 1
  }

  lemma RankPush(s: State, e: Event)
    requires Safe(s, e.t) && Enabled(s, e) && IsPush(s, e)
    ensures Rank(PcOf(Step(s, e), e.t)) < Rank(PcOf(s, e.t))
  {
    hide PopStep, EmptyStep;
  }

  lemma RankPop(s: State, e: Event)
    requires Safe(s, e.t) && Enabled(s, e) && IsPop(s, e)
    ensures Rank(PcOf(Step(s, e), e.t)) < Rank(PcOf(s, e.t))
  {
    hide PushStep, EmptyStep;
  }

  lemma RankEmpty(s: State, e: Event)
    requires Enabled(s, e) && IsEmpty(s, e)
    ensures Rank(PcOf(Step(s, e), e.t)) < Rank(PcOf(s, e.t))
  {
    hide PushStep, PopStep;
  }

  /** Each step of an operation brings its thread nearer to the end. */
  lemma {:induction false} RankFalls(s: State, e: Event)
    requires Inv(s) && Enabled(s, e) && e.Go?
    ensures Rank(PcOf(Step(s, e), e.t)) < Rank(PcOf(s, e.t))
  {
    hide Inv, Step, Rank, Enabled, Safe;
    SafeHere(s, e.t);
    if IsPush(s, e) {
      RankPush(s, e);
    } else if IsPop(s, e) {
      RankPop(s, e);
    } else {
      RankEmpty(s, e);
    }
  }

  /** A thread's own steps in a run. */
  function OwnSteps(es: seq<Event>, t: Tid): nat {
    if es == [] then 0 else (if es[0].Go? && es[0].t == t then 1 else 0) + OwnSteps(es[1..], t)
  }

  predicate NoCall(es: seq<Event>, t: Tid) {
    forall e :: e in es ==> e.t != t || !e.Begin?
  }

  /** Whatever the other threads do in between, an operation takes no more of its thread's steps than its rank. */
  lemma {:induction false} BoundedSteps(s: State, es: seq<Event>, t: Tid)
    requires Inv(s) && Possible(s, es) && NoCall(es, t)
    ensures OwnSteps(es, t) + Rank(PcOf(Run(s, es), t)) <= Rank(PcOf(s, t))
    decreases |es|
  {
    hide Inv, Enabled, Step, Rank;
    if es != [] {
      var s' := Step(s, es[0]);
      assert es[0] in es && forall e :: e in es[1..] ==> e in es;
      InvStep(s, es[0]);
      BoundedSteps(s', es[1..], t);
      if es[0].t == t {
        RankFalls(s, es[0]);
      } else {
        OthersStay(s, es[0], t);
      }
    }
  }

  lemma {:induction false} Above(refs: set<Ref>) returns (n: Ref)
    ensures forall r :: r in refs ==> r < n
    decreases |refs|
  {
    if refs == {} {
      n := 0;
    } else {
      var r :| r in refs;
      var m := Above(refs - {r});
      n := if r < m then m else r + 1;
      forall x | x in refs
        ensures x < n
      {
        if x != r {
          assert x in refs - {r};
        }
      }
    }
  }

  lemma Unused(s: State) returns (spare: Ref)
    ensures spare !in s.mem
  {
    spare := Above(s.mem.Keys);
  }

  /** As long as some operation is under way, some thread can take a step. */
  lemma NeverStuck(s: State, t: Tid) returns (u: Tid, spare: Ref)
    requires Inv(s) && !PcOf(s, t).Idle?
    ensures Enabled(s, Go(u, spare))
  {
    hide Linked, Owners, Knowledge, Sized, Phases, Replay;
    spare := Unused(s);
    u := t;
    if (PcOf(s, t).LockHead? || PcOf(s, t).LockHeadToTest?) && s.headLock.Some? {
      u := s.headLock.value;
      assert HoldsHead(PcOf(s, u));
    }
    if (PcOf(s, u).LockTail? || PcOf(s, u).LockTailToRead?) && s.tailLock.Some? {
      u := s.tailLock.value;
      assert HoldsTail(PcOf(s, u));
    }
  }

  // ---- an operation undisturbed

  /** No other thread holds a lock. */
  predicate Alone(s: State, t: Tid) {
    (s.headLock.Some? ==> s.headLock.value == t) && (s.tailLock.Some? ==> s.tailLock.value == t)
  }

  function Taken(queue: seq<Value>): Effect {
    if queue == [] then NothingToPop else Popped(queue[0])
  }

  function Rest(queue: seq<Value>): seq<Value> {
    if queue == [] then [] else queue[1..]
  }

  /** The effect the thread's operation will have returned. */
  function Result(s: State, t: Tid): Effect {
    match PcOf(s, t)
    case NewNode(v) => Pushed(v)
    case LockTail(v, _) => Pushed(v)
    case SetData(v, _) => Pushed(v)
    case SetNext(v, _) => Pushed(v)
    case MoveTail(v, _) => Pushed(v)
    case CountUp(v) => Pushed(v)
    case UnlockTail(v) => Pushed(v)
    case CountDown(gone) => Carried(s, gone)
    case UnlockHead(gone) => Carried(s, gone)
    case TakeData(gone) => Carried(s, gone)
    case Delete(_, res) => Popped(res)
    case UnlockHeadEmpty => NothingToPop
    case LockHeadToTest => Tested(s.queue == [])
    case ReadSize => Tested(s.queue == [])
    case UnlockHeadTested(b) => Tested(b)
    case _ => Taken(s.queue)
  }

  function Carried(s: State, gone: Ref): Effect {
    if gone in s.mem && s.mem[gone].data.Some? then Popped(s.mem[gone].data.value) else NothingToPop
  }

  /** And the queue it will leave. */
  function Left(s: State, t: Tid): seq<Value> {
    var pc := PcOf(s, t);
    if InPush(pc) && !pc.UnlockTail? then s.queue + [Result(s, t).v]
    else if pc.LockHead? || pc.LockTailToRead? || pc.ReadTail? || pc.UnlockTailRead? || pc.Compare? || pc.TakeHead?
            || pc.MoveHead? then Rest(s.queue)
    else s.queue
  }

  /** Where the popper stands, as far as it has looked. */
  predicate SawRight(s: State, t: Tid) {
    match PcOf(s, t)
    case UnlockTailRead(x) => x == s.head <==> s.queue == []
    case Compare(x) => x == s.head <==> s.queue == []
    case TakeHead(_) => s.queue != []
    case MoveHead(_, _) => s.queue != []
    case UnlockHeadEmpty => s.queue == []
    case _ => true
  }

  lemma SoloEnabled(s: State, t: Tid, spare: Ref)
    requires Inv(s) && Alone(s, t) && !PcOf(s, t).Idle? && spare !in s.mem
    ensures Enabled(s, Go(t, spare)) && Alone(Step(s, Go(t, spare)), t)
  {
    hide Linked, Owners, Knowledge, Sized, Phases, Replay, Step;
    assert HoldsTail(PcOf(s, t)) <==> s.tailLock == Some(t);
    assert HoldsHead(PcOf(s, t)) <==> s.headLock == Some(t);
    SoloLocks(s, Go(t, spare));
  }

  lemma SoloLocks(s: State, e: Event)
    requires Locks(s) && Alone(s, e.t) && Enabled(s, e)
    ensures Alone(Step(s, e), e.t)
  {
    if IsPush(s, e) {
      PushLocks(s, e);
    } else if IsPop(s, e) {
      PopLocks(s, e);
    } else {
      OtherLocks(s, e);
    }
  }

  predicate Advances(s: State, s': State, t: Tid) {
    if PcOf(s', t).Idle? then s'.queue == Left(s, t) && s'.trace == s.trace + [Return(t, Result(s, t))]
    else Result(s', t) == Result(s, t) && Left(s', t) == Left(s, t) && SawRight(s', t)
  }

  lemma SoloPush(s: State, e: Event)
    requires Inv(s) && Enabled(s, e) && IsPush(s, e)
    ensures Advances(s, Step(s, e), e.t)
  {
    hide PopStep, EmptyStep, Inv;
    SafeHere(s, e.t);
  }

  lemma SoloEmpty(s: State, e: Event)
    requires Inv(s) && Enabled(s, e) && e.Go? && IsEmpty(s, e)
    ensures Advances(s, Step(s, e), e.t)
  {
    hide PopStep, PushStep, Locks, Linked, Owners, Knowledge, Phases, Replay, Counting;
    CountingStep(s, e);
  }

  lemma SoloPop(s: State, e: Event)
    requires Inv(s) && Enabled(s, e) && IsPop(s, e) && SawRight(s, e.t)
    ensures Advances(s, Step(s, e), e.t)
  {
    hide PushStep, EmptyStep, Inv;
    SafeHere(s, e.t);
    match PcOf(s, e.t)
    case ReadTail => SawAll(s, e.t);
    case MoveHead(_, _) => TakesFirst(s, e.t);
    case _ =>
  }

  /** With the tail lock held nothing is in flight, so the tail tells whether the queue is empty. */
  lemma SawAll(s: State, t: Tid)
    requires Inv(s) && PcOf(s, t).ReadTail?
    ensures s.tail == s.head <==> s.queue == []
  {
    hide Owners, Knowledge, Sized, Phases, Replay, Locks;
    NotInFlight(s, t);
    assert s.queue + [] == s.queue;
    if s.queue != [] {
      assert s.chain[0] != s.chain[|s.chain| - 1];
    }
  }

  lemma TakesFirst(s: State, t: Tid)
    requires Inv(s) && PcOf(s, t).MoveHead?
    ensures PcOf(s, t).gone in s.mem && s.queue != [] && s.mem[PcOf(s, t).gone].data == Some(s.queue[0])
  {
    hide Owners, Sized, Phases, Replay, Linked, Locks;
    assert Knows(s, t);
    SomethingToTake(s, t);
  }

  lemma {:induction false} SoloStep(s: State, e: Event)
    requires Inv(s) && Enabled(s, e) && e.Go? && SawRight(s, e.t)
    ensures Advances(s, Step(s, e), e.t)
  {
    hide Inv, Step, Enabled, SawRight, Advances;
    if IsPush(s, e) {
      SoloPush(s, e);
    } else if IsPop(s, e) {
      SoloPop(s, e);
    } else {
      SoloEmpty(s, e);
    }
  }

  predicate OnlyGoes(es: seq<Event>, t: Tid) {
    forall e :: e in es ==> e.Go? && e.t == t
  }

  /** Undisturbed, an operation under way is finished by its thread within its rank. */
  lemma {:induction false} Finishes(s: State, t: Tid) returns (es: seq<Event>)
    requires Inv(s) && Alone(s, t) && !PcOf(s, t).Idle? && SawRight(s, t)
    ensures Possible(s, es) && OnlyGoes(es, t) && |es| <= Rank(PcOf(s, t))
    ensures var s' := Run(s, es);
            PcOf(s', t).Idle? && s'.queue == Left(s, t) && s'.trace != []
            && s'.trace[|s'.trace| - 1] == Return(t, Result(s, t))
    decreases Rank(PcOf(s, t))
  {
    hide Inv, Alone, Enabled, Step, Rank, Result, Left, SawRight;
    var spare := Unused(s);
    var e := Go(t, spare);
    SoloEnabled(s, t, spare);
    RankFalls(s, e);
    SoloStep(s, e);
    InvStep(s, e);
    var rest := [];
    if !PcOf(Step(s, e), t).Idle? {
      rest := Finishes(Step(s, e), t);
    }
    es := [e] + rest;
    assert es[0] == e && es[1..] == rest;
  }

  /** MAIN RESULT. In every state any run reaches with both locks free, an operation called by an idle thread and not
      disturbed returns after at most eleven steps, with what a sequential queue gives: push adds its value, try_pop
      takes the oldest value exactly if there is one, and empty tells whether there is none. */
  lemma Completes(dummy: Ref, es: seq<Event>, t: Tid, op: Op) returns (goes: seq<Event>)
    requires Possible(Initial(dummy), es)
    requires var s := Run(Initial(dummy), es); s.headLock.None? && s.tailLock.None? && PcOf(s, t).Idle?
    ensures OnlyGoes(goes, t) && |goes| <= 11 && Possible(Run(Initial(dummy), es), [Begin(t, op)] + goes)
    ensures var s, s' := Run(Initial(dummy), es), Run(Run(Initial(dummy), es), [Begin(t, op)] + goes);
            PcOf(s', t).Idle? && s'.trace != [] &&
            var last := s'.trace[|s'.trace| - 1];
            match op
            case PushOp(v) => last == Return(t, Pushed(v)) && s'.queue == s.queue + [v]
            case PopOp =>
              if s.queue == [] then last == Return(t, NothingToPop) && s'.queue == []
              else last == Return(t, Popped(s.queue[0])) && s'.queue == s.queue[1..]
            case EmptyOp => last == Return(t, Tested(s.queue == [])) && s'.queue == s.queue
  {
    hide Inv, Run, Possible;
    InvInitial(dummy);
    InvRun(Initial(dummy), es);
    var s := Run(Initial(dummy), es);
    var s1 := Step(s, Begin(t, op));
    InvStep(s, Begin(t, op));
    goes := Finishes(s1, t);
    RunFirst(s, Begin(t, op), goes);
  }

  lemma RunFirst(s: State, e: Event, es: seq<Event>)
    requires Enabled(s, e) && Possible(Step(s, e), es)
    ensures Possible(s, [e] + es) && Run(s, [e] + es) == Run(Step(s, e), es)
  {
    hide Enabled, Step;
    assert ([e] + es)[1..] == es;
  }
}

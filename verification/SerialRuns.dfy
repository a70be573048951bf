/** What holds of the half-duplex processor over whole runs. */
module SerialRuns {
  import opened ByteStrings
  import opened Resp
  import ParserMachine
  import opened Chunking
  import Buffers
  import opened ParserFlow
  import opened Server
  import opened SerialSystem

  /** MAIN RESULT. In every run, whatever the interleaving of pushes, partial writes, server steps, reads in
      chunks of any size and errors, and whatever lies in memory behind the read bytes: the i-th callback called
      with a reply is that of the i-th job that entered the queue, the server has read exactly that job's query
      as its i-th request, the reply handed over is its answer to it, and no reply ever comes without a query. Only
      the last two need that the parser was never left waiting inside an array nested in a reply, which takes such
      a reply. */
  lemma HalfDuplexInOrder(es: seq<Event>)
    requires Possible(INITIAL, es)
    ensures var s := Run(INITIAL, es);
            |s.p.delivered| <= |s.accepted| && |s.exchanges| <= s.taken <= |s.accepted| &&
            (forall i :: 0 <= i < |s.p.delivered| ==> s.p.delivered[i].job == s.accepted[i]) &&
            (forall i :: 0 <= i < |s.exchanges| ==> s.exchanges[i].parts == s.accepted[i].parts) &&
            (FlatAnswers(s) ==> !s.cut) &&
            (!s.cut ==> s.phase != SyncFault && |s.p.delivered| <= |s.exchanges| &&
                        forall i :: 0 <= i < |s.p.delivered| ==> s.p.delivered[i].resp == Val(s.exchanges[i].reply))
  {
    hide Run, Possible, Val, Requests, Built, Wf, ParserKept, BytesKept, FlatAnswers;
    InvInitial();
    InvRun(INITIAL, es);
    var s := Run(INITIAL, es);
    forall i | 0 <= i < |s.p.delivered|
      ensures s.p.delivered[i].job == s.accepted[i]
    {
      assert Jobs(s.p.delivered)[i] == s.accepted[i];
    }
  }

  /** One direction at a time. In every run without an error the queries sent and the queue are the unanswered
      rest; while a query is unanswered the flag is up; at most one operation is outstanding on the socket; no
      batch exceeds eleven queries; and while the processor reads, the socket has taken all of them. */
  lemma OneDirectionAtATime(es: seq<Event>)
    requires Possible(INITIAL, es)
    ensures var s := Run(INITIAL, es);
            !s.p.err ==>
              s.accepted == Jobs(s.p.delivered) + s.p.sended + s.p.queue && s.taken <= |s.accepted|
              && (s.p.sended != [] ==> s.p.running) && s.writing + s.reading <= 1
              && |s.p.sended| <= MAX_QUERY_IN_MULTIBUFF + 1
              && (s.reading > 0 ==> s.sent == Promised(s))
  {
    hide Run, Possible, Jobs, Promised, ServedInOrder, RepliesKept;
    InvInitial();
    InvRun(INITIAL, es);
    var s := Run(INITIAL, es);
    if !s.p.err {
      assert Jobs(s.p.delivered) + [] == Jobs(s.p.delivered);
      assert s.unsent == [] ==> s.sent + s.unsent == s.sent;
    }
  }

  /** And none is held back: in a run without errors and such stops, whenever no received byte is left to parse and
      the wire is empty, every query that was answered has been called back, except that a last reply ending in an
      empty simple string or error waits for one byte more. */
  lemma EveryReplyIsDelivered(es: seq<Event>)
    requires Possible(INITIAL, es)
    ensures var s := Run(INITIAL, es);
            !s.phase.Parsing? && !s.phase.ParseFault? && s.wire == [] && !s.p.err && !s.cut ==>
              |s.p.delivered| == |s.exchanges| ||
              (|s.p.delivered| == |s.exchanges| - 1 && EndsBlank(s.exchanges[|s.exchanges| - 1].reply))
  {
    hide Run, Possible, Val, Ordered, BytesKept, ServedInOrder, HalfDuplex, Sound, Hungry;
    InvInitial();
    InvRun(INITIAL, es);
    var s := Run(INITIAL, es);
    if !s.phase.Parsing? && !s.phase.ParseFault? && s.wire == [] && !s.p.err && !s.cut {
      NothingHeld(s.p.parser, Pending(s));
    }
  }

  /** Whenever the processor reads, it holds of replies not delivered no more than the next one, unless the parser is
      bound to throw. So while no reply is longer than half the limit less one read, there is always room to read,
      however many bytes have passed. */
  lemma EveryReadFindsRoom(es: seq<Event>)
    requires Possible(INITIAL, es)
    ensures var s, rs := Run(INITIAL, es), Pending(Run(INITIAL, es));
            !s.cut ==>
              s.p.held + |s.wire| == |EncAll(rs)|
              && (s.phase == Reading && !Doomed(s.p.parser, s.wire) ==>
                    (s.p.held <= if rs == [] then 0 else |Enc(rs[0])|)
                    && ((forall v :: v in rs ==> |Enc(v)| + Buffers.RESP_RELEASE_SZ <= Buffers.MAX_BUFF_SIZE / 2) ==>
                          s.p.held + Buffers.RESP_RELEASE_SZ <= Buffers.MAX_BUFF_SIZE / 2))
  {
    hide Run, Possible, Ordered, BytesKept, ServedInOrder, HalfDuplex, Sound, Hungry, Doomed, Enc, EncAll, Val, Pending;
    InvInitial();
    InvRun(INITIAL, es);
    var s := Run(INITIAL, es);
    if !s.cut && s.phase == Reading && !Doomed(s.p.parser, s.wire) {
      HungryHolds(s.p.parser, Pending(s), s.wire);
    }
  }

  /** What a turn of the reading handler leads to. With no complete reply left it reads on exactly while a query sent
      is unanswered; with none it reports the work done exactly if stop is set and every accepted query is answered,
      and otherwise lays down the flag. */
  lemma TurnLeadsOn(es: seq<Event>, stale: char)
    requires Possible(INITIAL, es) && Enabled(Run(INITIAL, es), Parse(stale))
    ensures var s, s' := Run(INITIAL, es), Step(Run(INITIAL, es), Parse(stale));
            (!s'.cut ==> (s'.phase == Parsing <==> s'.parsed == s.parsed + 1))
            && (s'.phase != ParseFault && s'.parsed == s.parsed ==>
                  (s'.phase == Reading <==> |s'.p.delivered| < s'.taken)
                  && (s'.phase == Finished <==> s'.p.stop && |s'.p.delivered| == |s'.accepted|)
                  && (s'.phase == Resting <==>
                      |s'.p.delivered| == s'.taken && (s'.p.stop ==> s'.taken < |s'.accepted|)))
  {
    hide Run, Possible, BytesKept, ServedInOrder, RepliesRight, Enabled, Step, Ordered, HalfDuplex;
    InvInitial();
    InvRun(INITIAL, es);
    var s := Run(INITIAL, es);
    InvStep(s, Parse(stale));
    ParsePhase(s, stale);
    if !Step(s, Parse(stale)).cut {
      NeverSyncFault(Step(s, Parse(stale)));
    }
  }

  lemma NeverSyncFault(s: Sys)
    requires Inv(s) && !s.cut
    ensures s.phase != SyncFault
  {
    hide Ordered, BytesKept, ServedInOrder, HalfDuplex;
  }

  lemma ParsePhase(s: Sys, stale: char)
    requires Ordered(s) && HalfDuplex(s) && Enabled(s, Parse(stale)) && Ordered(Step(s, Parse(stale)))
    ensures var s' := Step(s, Parse(stale));
            (s'.phase == Parsing || s'.phase == SyncFault <==> s'.parsed == s.parsed + 1)
            && (s'.phase != ParseFault && s'.parsed == s.parsed ==>
                  (s'.phase == Reading <==> |s'.p.delivered| < s'.taken)
                  && (s'.phase == Finished <==> s'.p.stop && |s'.p.delivered| == |s'.accepted|)
                  && (s'.phase == Resting <==>
                      |s'.p.delivered| == s'.taken && (s'.p.stop ==> s'.taken < |s'.accepted|)))
  {
    hide Jobs, ParserMachine.ParseOne, ParserMachine.StillHeld, CutInside, Ordered;
    var s' := Step(s, Parse(stale));
    Counts(s');
  }

  lemma Counts(s: Sys)
    requires Ordered(s) && !s.p.err
    ensures |s.accepted| == |s.p.delivered| + |s.p.sended| + |s.p.queue|
    ensures s.taken == |s.p.delivered| + |s.p.sended|
  {
    hide Jobs;
    assert |Jobs(s.p.delivered) + s.p.aborted + s.p.sended + s.p.queue| == |s.p.delivered| + |s.p.sended| + |s.p.queue|;
  }

  /** After an error nobody is called any more: not even the callback of a push that had passed the stop
      test before the error and enters the queue after it. */
  lemma {:induction false} NobodyCalledAfterError(s: Sys, es: seq<Event>)
    requires Inv(s) && s.p.err && Possible(s, es)
    ensures var p, p' := s.p, Run(s, es).p;
            p'.err && p'.delivered == p.delivered && p'.aborted == p.aborted && p.queue <= p'.queue
    decreases |es|
  {
    hide Inv, Enabled, Step;
    if es != [] {
      InvStep(s, es[0]);
      QuietStep(s, es[0]);
      NobodyCalledAfterError(Step(s, es[0]), es[1..]);
    }
  }

  lemma QuietStep(s: Sys, e: Event)
    requires Inv(s) && s.p.err && Enabled(s, e)
    ensures var p, p' := s.p, Step(s, e).p;
            p'.err && p'.delivered == p.delivered && p'.aborted == p.aborted && p.queue <= p'.queue
  {
    hide Ordered, BytesKept, ServedInOrder, RepliesKept, BatchStep, ParseStep, Built, CanServe, ParserMachine.Accept;
  }

  /** Exactly once, or never: each job that entered the queue is delivered, aborted, awaiting its reply or
      queued; what is queued after an error stays there. */
  lemma EachJobInOnePlace(es: seq<Event>)
    requires Possible(INITIAL, es)
    ensures var s := Run(INITIAL, es);
            s.accepted == Jobs(s.p.delivered) + s.p.aborted + s.p.sended + s.p.queue
            && (s.p.err ==> s.p.sended == [] && s.p.stop) && (!s.p.err ==> s.p.aborted == [])
  {
    hide Run, Possible, BytesKept, ServedInOrder, RepliesKept, HalfDuplex;
    InvInitial();
    InvRun(INITIAL, es);
  }

  lemma {:induction false} RunConcat(s: Sys, es: seq<Event>, more: seq<Event>)
    requires Possible(s, es) && Possible(Run(s, es), more)
    ensures Possible(s, es + more) && Run(s, es + more) == Run(Run(s, es), more)
    decreases |es|
  {
    hide Step, Enabled;
    if es == [] {
      assert es + more == more;
    } else {
      assert (es + more)[1..] == es[1..] + more;
      RunConcat(Step(s, es[0]), es[1..], more);
    }
  }

  lemma ErrorSettles(s: Sys)
    requires Inv(s) && Enabled(s, Error)
    ensures var s' := Step(s, Error);
            s'.p.err && s'.p.queue == [] && s'.accepted == s.accepted
            && Jobs(s'.p.delivered) + s'.p.aborted == s.accepted
  {
    hide BytesKept, ServedInOrder, RepliesKept, HalfDuplex, Jobs;
    var p := s.p;
    assert Jobs(p.delivered) + (p.aborted + p.sended + p.queue) == Jobs(p.delivered) + p.aborted + p.sended + p.queue;
  }

  /** Exactly once, with the exact condition: in every run with a socket error, the callbacks delivered and
      aborted are those of exactly the jobs that had entered the queue before the error, in order; the jobs
      that entered after it are exactly those still queued at the end. A callback is lost if and only if its
      job enters after the error. */
  lemma LostIffAfterError(pre: seq<Event>, post: seq<Event>)
    requires Possible(INITIAL, pre) && Enabled(Run(INITIAL, pre), Error)
    requires Possible(Step(Run(INITIAL, pre), Error), post)
    ensures Possible(INITIAL, pre + ([Error] + post))
    ensures var before, s := Run(INITIAL, pre).accepted, Run(INITIAL, pre + ([Error] + post));
            before <= s.accepted && Jobs(s.p.delivered) + s.p.aborted == before && s.p.queue == s.accepted[|before|..]
  {
    hide Step, Enabled, Run, Possible, Inv, Jobs;
    var s := Run(INITIAL, pre);
    InvInitial();
    InvRun(INITIAL, pre);
    ErrorSettles(s);
    InvStep(s, Error);
    var s1 := Step(s, Error);
    NobodyCalledAfterError(s1, post);
    RunCons(s, Error, post, Run(s1, post));
    RunConcat(INITIAL, pre, [Error] + post);
    InvRun(s1, post);
    AfterError(Run(s1, post));
  }

  lemma AfterError(s: Sys)
    requires Inv(s) && s.p.err
    ensures s.accepted == Jobs(s.p.delivered) + s.p.aborted + s.p.queue
  {
    hide BytesKept, ServedInOrder, RepliesKept, HalfDuplex, Jobs;
    assert Jobs(s.p.delivered) + s.p.aborted + [] == Jobs(s.p.delivered) + s.p.aborted;
  }

  /** The processor has ended for good: its work is done, the socket failed, or the handler threw. */
  predicate Halted(s: Sys) {
    s.phase.Finished? || s.phase.Closed? || s.phase.ParseFault? || s.phase.SyncFault?
  }

  lemma HaltedStep(s: Sys, e: Event)
    requires Inv(s) && Halted(s) && Enabled(s, e)
    ensures var s' := Step(s, e);
            s'.phase == s.phase && s'.p.delivered == s.p.delivered && s'.p.aborted == s.p.aborted
            && s'.p.sended == s.p.sended && s.p.queue <= s'.p.queue && s.accepted <= s'.accepted
  {
    hide Ordered, BytesKept, ServedInOrder, RepliesKept, BatchStep, ParseStep, Built, CanServe, ParserMachine.Accept;
  }

  lemma {:induction false} StaysHalted(s: Sys, es: seq<Event>)
    requires Inv(s) && Halted(s) && Possible(s, es)
    ensures var s' := Run(s, es);
            s'.phase == s.phase && s'.p.delivered == s.p.delivered && s'.p.aborted == s.p.aborted
            && s'.p.sended == s.p.sended && s.p.queue <= s'.p.queue && s.accepted <= s'.accepted
    decreases |es|
  {
    hide Inv, Enabled, Step;
    if es != [] {
      InvStep(s, es[0]);
      HaltedStep(s, es[0]);
      StaysHalted(Step(s, es[0]), es[1..]);
    }
  }

  /** How it ends. */
  lemma Ending(s: Sys, e: Event)
    requires Inv(s) && !Halted(s) && Enabled(s, e) && Halted(Step(s, e))
    ensures var p, s' := Step(s, e).p, Step(s, e);
            s'.accepted == Jobs(p.delivered) + p.aborted + p.sended + p.queue &&
            if s'.phase.Finished? || s'.phase.Closed? then p.sended == [] && p.queue == [] else p.aborted == []
  {
    hide BytesKept, ServedInOrder, RepliesKept, Built, CanServe, ParserMachine.Accept, BatchStep, Jobs, Ordered;
    InvStep(s, e);
    assert Ordered(Step(s, e));
    if e.Parse? {
      EndingTurn(s.p, e.stale);
    } else if e.Batch? {
      BatchKeeps(s, s.phase.taken);
    }
    EndingOrder(s, Step(s, e));
  }

  lemma EndingTurn(p: Proc, stale: char)
    ensures var t := Turn(p, stale);
            t.phase.Finished? ==> t.p.sended == [] && t.p.queue == []
  {
    hide ParserMachine.ParseOne;
  }

  lemma EndingOrder(s: Sys, s': Sys)
    requires Ordered(s) && Ordered(s') && HalfDuplex(s')
    ensures s'.accepted == Jobs(s'.p.delivered) + s'.p.aborted + s'.p.sended + s'.p.queue
    ensures s'.phase != Closed ==> s'.p.aborted == []
  {
    hide Jobs;
  }

  /** The exact condition for every run, with an error or without. Once the processor has ended, nobody is called
      any more. If it ended because its work was done or the socket failed, the callbacks called are those of exactly
      the jobs that had entered by then, in order; if the handler threw, of exactly the first of them, those whose
      replies were delivered. All other jobs stay sent or queued for ever. */
  lemma CalledIffBeforeEnd(pre: seq<Event>, e: Event, post: seq<Event>)
    requires Possible(INITIAL, pre) && !Halted(Run(INITIAL, pre)) && Enabled(Run(INITIAL, pre), e)
    requires Halted(Step(Run(INITIAL, pre), e)) && Possible(Step(Run(INITIAL, pre), e), post)
    ensures var a, b := Step(Run(INITIAL, pre), e), Run(Step(Run(INITIAL, pre), e), post);
            var called := Jobs(b.p.delivered) + b.p.aborted;
            a.accepted <= b.accepted && b.accepted == called + b.p.sended + b.p.queue &&
            called == if a.phase.Finished? || a.phase.Closed? then a.accepted else Jobs(a.p.delivered)
  {
    hide Step, Enabled, Run, Possible, BytesKept, ServedInOrder, RepliesKept, HalfDuplex, Jobs;
    var s := Run(INITIAL, pre);
    InvInitial();
    InvRun(INITIAL, pre);
    Ending(s, e);
    InvStep(s, e);
    var a := Step(s, e);
    StaysHalted(a, post);
    InvRun(a, post);
    NothingMore(Jobs(a.p.delivered), a.p.aborted);
  }

  lemma NothingMore(d: seq<Job>, a: seq<Job>)
    ensures d + a + [] + [] == d + a && (a == [] ==> d + a == d)
  {
  }

  /** Such a push is lost: in every state after an error in which a job still waits for room, it can enter
      the queue, and from then on stays there, neither delivered nor aborted. */
  lemma AdmittedIsLost(s: Sys, i: nat, more: seq<Event>)
    requires Inv(s) && s.p.err && i < |s.admitted| && |s.p.queue| <= MAX_BUFF_SIZE
    requires Possible(Step(s, Enqueue(i)), more)
    ensures var p := Run(Step(s, Enqueue(i)), more).p;
            s.admitted[i] in p.queue && p.delivered == s.p.delivered && p.aborted == s.p.aborted
  {
    hide Inv, Run, Possible;
    var s' := Step(s, Enqueue(i));
    InvStep(s, Enqueue(i));
    NobodyCalledAfterError(s', more);
    var k := |s.p.queue|;
    assert s'.p.queue[k] == s.admitted[i];
  }

  lemma RunCons(s: Sys, e: Event, es: seq<Event>, last: Sys)
    requires Enabled(s, e) && Possible(Step(s, e), es) && Run(Step(s, e), es) == last
    ensures Possible(s, [e] + es) && Run(s, [e] + es) == last
  {
    hide Step, Enabled;
    assert ([e] + es)[1..] == es;
  }

  lemma RunNothing(s: Sys)
    ensures Possible(s, []) && Run(s, []) == s
  {
  }

  /** And such a state is reached: one thread's write fails while another thread's push waits for room. */
  lemma AdmittedIsReached(a: Job, b: Job) returns (es: seq<Event>)
    requires Built(a) && Built(b)
    ensures Possible(INITIAL, es)
    ensures var s := Run(INITIAL, es); s.p.err && s.admitted == [b] && s.p.queue == []
  {
    hide Run, Possible, Built, Concat;
    var p1 := NEW_PROC.(queue := [a]);
    var s2 := INITIAL.(p := p1, accepted := [a]);
    var s4 := s2.(p := p1.(running := true), phase := Batching(0));
    var s5 := BatchStep(s4, 0);
    var s6 := s5.(phase := Writing, writing := 1);
    var s7 := s6.(admitted := [b]);
    var s8 := Step(s7, Error);
    RunNothing(s8);
    var e8 := [Error] + [];
    RunCons(s7, Error, [], s8);
    var e7 := [TestStop(b)] + e8;
    assert Step(s6, TestStop(b)) == s7;
    RunCons(s6, TestStop(b), e8, s8);
    var e6 := [Batch] + e7;
    assert Step(s5, Batch) == s6;
    RunCons(s5, Batch, e7, s8);
    var e5 := [Batch] + e6;
    RunCons(s4, Batch, e6, s8);
    var e4 := [Check] + e5;
    var s3 := Step(s2, Acquire);
    assert Step(s3, Check) == s4;
    RunCons(s3, Check, e5, s8);
    var e3 := [Acquire] + e4;
    RunCons(s2, Acquire, e4, s8);
    var e2 := [Enqueue(0)] + e3;
    var s1 := Step(INITIAL, TestStop(a));
    assert Step(s1, Enqueue(0)) == s2;
    RunCons(s1, Enqueue(0), e3, s8);
    es := [TestStop(a)] + e2;
    RunCons(INITIAL, TestStop(a), e2, s8);
  }
}

/** What holds of the pipelining processor over whole runs. */
module PipelineRuns {
  import opened ByteStrings
  import opened Resp
  import opened ParserSpec
  import ParserMachine
  import opened Chunking
  import opened StreamRuns
  import Departures
  import opened ParserFlow
  import opened Buffers
  import OutputBuffer
  import opened QueryRoundTrip
  import opened Server
  import opened PipelineSystem

  /** MAIN RESULT. In every run, whatever the interleaving of pushes, waits for room, partial writes, server
      steps, reads in chunks of any size and socket errors, and whatever lies in memory behind the read bytes:
      the i-th callback called with a reply before a socket error is the i-th one accepted, the server has read
      exactly that push's query as its i-th request, and the reply handed over is its answer to it. Only the last
      needs that the parser was never left waiting inside an array nested in a reply, which takes such a reply. */
  lemma EveryCallbackGetsItsReply(es: seq<Event>)
    requires Possible(INITIAL, es)
    ensures var s := Run(INITIAL, es);
            Timely(s) <= |s.client.delivered| && Timely(s) <= |s.pushed| && |s.exchanges| <= |s.pushed| &&
            (forall i :: 0 <= i < Timely(s) ==> s.client.delivered[i].cb == s.pushed[i].cb) &&
            (forall i :: 0 <= i < |s.exchanges| ==> s.exchanges[i].parts == s.pushed[i].parts) &&
            (FlatAnswers(s) ==> !s.cut) &&
            (!s.cut ==> Timely(s) <= |s.exchanges| &&
                        forall i :: 0 <= i < Timely(s) ==> s.client.delivered[i].resp == Val(s.exchanges[i].reply))
  {
    hide Run, Possible, Inv;
    InvInitial();
    InvRun(INITIAL, es);
    var s := Run(INITIAL, es);
    Shapes(s);
    forall i | 0 <= i < Timely(s)
      ensures s.client.delivered[i].cb == s.pushed[i].cb
    {
      TimelyCallback(s, i);
    }
    Answers(s);
  }

  lemma Shapes(s: Sys)
    requires Inv(s)
    ensures Timely(s) <= |s.client.delivered| && Timely(s) <= |s.pushed|
    ensures |s.exchanges| <= |Complete(s)| <= |s.pushed|
    ensures s.known <= |s.pushed| && s.answered <= |s.client.delivered|
    ensures s.client.err ==> |s.exchanges| <= s.known
  {
    hide PushedCallbacks, DeliveredCallbacks, Requests, Wf, Sendable, BytesKept, RepliesKept;
    assert |PushedCallbacks(s.pushed)| == |s.pushed|;
    assert |PushedCallbacks(s.pushed[..s.known])| == s.known;
  }

  lemma TimelyCallback(s: Sys, i: nat)
    requires Inv(s) && i < Timely(s) && Timely(s) <= |s.client.delivered| && Timely(s) <= |s.pushed|
    ensures s.client.delivered[i].cb == s.pushed[i].cb
  {
    hide BytesKept, ServedInOrder, RepliesKept, Complete, PushedCallbacks, DeliveredCallbacks;
    var c := s.client;
    if c.err {
      assert PushedCallbacks(s.pushed[..s.known])[i] == DeliveredCallbacks(c.delivered[..s.answered])[i];
    } else {
      assert PushedCallbacks(s.pushed)[i] == DeliveredCallbacks(c.delivered)[i];
    }
  }

  lemma Answers(s: Sys)
    requires Inv(s) && Timely(s) <= |s.client.delivered| && |s.exchanges| <= |s.pushed|
    ensures forall i :: 0 <= i < |s.exchanges| ==> s.exchanges[i].parts == s.pushed[i].parts
    ensures FlatAnswers(s) ==> !s.cut
    ensures !s.cut ==> Timely(s) <= |s.exchanges| &&
                       forall i :: 0 <= i < Timely(s) ==> s.client.delivered[i].resp == Val(s.exchanges[i].reply)
  {
    hide CallbacksKept, BytesKept, Requests, Wf, FlatAnswers, Sendable, ParserKept, Val, IsReply, Complete;
  }

  /** And none is held back: in a run without errors and such stops, when the reader waits and the wire is empty, every
      callback whose query was answered has been called, except that a last reply ending in an empty
      simple string or error waits for one byte more. */
  lemma EveryReplyIsDelivered(es: seq<Event>)
    requires Possible(INITIAL, es)
    ensures var s := Run(INITIAL, es);
            s.client.reader == Reading && s.wire == [] && !s.client.err && !s.cut ==>
              |s.client.delivered| == |s.exchanges| ||
              (|s.client.delivered| == |s.exchanges| - 1 && EndsBlank(s.exchanges[|s.exchanges| - 1].reply))
  {
    hide Run, Possible, Val, CallbacksKept, BytesKept, ServedInOrder, Sound, Hungry;
    InvInitial();
    InvRun(INITIAL, es);
    var s := Run(INITIAL, es);
    if s.client.reader == Reading && s.wire == [] && !s.client.err && !s.cut {
      NothingHeld(s.client.parser, Pending(s));
    }
  }

  /** The reading handler never meets a reply without a callback, unless the parser was left waiting inside a
      nested array: its sync error is unreachable. */
  lemma NoSyncError(es: seq<Event>)
    requires Possible(INITIAL, es)
    ensures Run(INITIAL, es).client.reader == SyncFault ==> Run(INITIAL, es).cut
  {
    InvInitial();
    InvRun(INITIAL, es);
  }

  /** Exactly once: before a socket error each accepted callback has been called with its reply or is queued.
      After one, each callback accepted before it was called with its reply before it, or has been called with
      the error, and each accepted after it stays queued or is called with a reply. Order is push order. */
  lemma ExactlyOnce(es: seq<Event>)
    requires Possible(INITIAL, es)
    ensures var s, c := Run(INITIAL, es), Run(INITIAL, es).client;
            s.known <= |s.pushed| && s.answered <= |c.delivered| &&
            if c.err then
              PushedCallbacks(s.pushed[..s.known]) == DeliveredCallbacks(c.delivered[..s.answered]) + c.aborted &&
              PushedCallbacks(s.pushed[s.known..]) == DeliveredCallbacks(c.delivered[s.answered..]) + c.cbq
            else c.aborted == [] && PushedCallbacks(s.pushed) == DeliveredCallbacks(c.delivered) + c.cbq
  {
    hide BytesKept, ServedInOrder, RepliesKept, Run, Possible, PushedCallbacks, DeliveredCallbacks;
    InvInitial();
    InvRun(INITIAL, es);
  }

  /** The callbacks given to push in a run, accepted or not. */
  function Given(es: seq<Event>): multiset<Callback> {
    if es == [] then multiset{} else Given(es[..|es| - 1]) + GivenIn(es[|es| - 1])
  }

  function GivenIn(e: Event): multiset<Callback> {
    if e.PushTest? || e.PushRefused? then multiset{e.cb} else multiset{}
  }

  lemma {:induction false} RunSnoc(s: Sys, es: seq<Event>)
    requires Possible(s, es) && es != []
    ensures var n := |es| - 1;
            Possible(s, es[..n]) && Enabled(Run(s, es[..n]), es[n]) && Run(s, es) == Step(Run(s, es[..n]), es[n])
    decreases |es|
  {
    hide Enabled, Step;
    var n := |es| - 1;
    if n == 0 {
      assert es[1..] == [] && es[..0] == [];
    } else {
      RunSnoc(Step(s, es[0]), es[1..]);
      assert es[1..][..n - 1] == es[..n][1..] && es[1..][n - 1] == es[n];
    }
  }

  /** The callbacks of the pushes between the stop test and queueing. */
  function InHand(s: Sys): multiset<Callback> {
    multiset(PushedCallbacks(s.waiting)) + if s.lock.Tested? then multiset{s.lock.push.cb} else multiset{}
  }

  /** Callbacks in hand, accepted and refused in a state. */
  function Answerable(s: Sys): multiset<Callback> {
    multiset(PushedCallbacks(s.pushed)) + InHand(s) + multiset(s.client.rejected)
  }

  lemma PushedRemoved(ps: seq<Push>, i: nat)
    requires i < |ps|
    ensures multiset(PushedCallbacks(ps)) == multiset(PushedCallbacks(ps[..i] + ps[i + 1..])) + multiset{ps[i].cb}
    ensures multiset(ps) == multiset(ps[..i] + ps[i + 1..]) + multiset{ps[i]}
  {
    hide PushedCallbacks;
    var a, b := ps[..i], ps[i + 1..];
    Around(ps, i);
    PushedSnoc(a, ps[i]);
    PushedApart(a + [ps[i]], b);
    PushedApart(a, b);
  }

  lemma Around<T>(xs: seq<T>, i: nat)
    requires i < |xs|
    ensures xs == xs[..i] + [xs[i]] + xs[i + 1..]
  {
  }

  lemma PushedApart(a: seq<Push>, b: seq<Push>)
    ensures PushedCallbacks(a + b) == PushedCallbacks(a) + PushedCallbacks(b)
  {
  }

  lemma InHandTest(s: Sys, e: Event)
    requires Enabled(s, e) && e.PushTest?
    ensures InHand(Step(s, e)) == InHand(s) + GivenIn(e)
  {
    hide QueryBytes, PushedCallbacks, Sendable, Fits;
    var p := Push(e.cb, e.parts);
    PushedSnoc(s.waiting, p);
    MultisetSnoc(PushedCallbacks(s.waiting), e.cb);
  }

  lemma InHandWakes(s: Sys, e: Event)
    requires Enabled(s, e) && e.Wake?
    ensures InHand(Step(s, e)) == InHand(s) + GivenIn(e)
  {
    hide QueryBytes, PushedCallbacks, Fits;
    PushedRemoved(s.waiting, e.i);
  }

  lemma MultisetSnoc(cs: seq<Callback>, cb: Callback)
    ensures multiset(cs + [cb]) == multiset(cs) + multiset{cb}
  {
  }

  lemma AnswerableWaits(s: Sys, e: Event)
    requires Enabled(s, e) && (e.PushTest? || e.Wake?)
    ensures Answerable(Step(s, e)) == Answerable(s) + GivenIn(e)
  {
    hide PushedCallbacks, Fits, InHand, GivenIn;
    if e.PushTest? {
      InHandTest(s, e);
    } else {
      InHandWakes(s, e);
    }
  }

  lemma AnswerablePush(s: Sys, e: Event)
    requires Enabled(s, e) && e.PushCallback?
    ensures Answerable(Step(s, e)) == Answerable(s)
  {
    hide PushedCallbacks;
    var cb := s.lock.push.cb;
    PushedSnoc(s.pushed, s.lock.push);
    MultisetSnoc(PushedCallbacks(s.pushed), cb);
    Across(multiset(PushedCallbacks(s.pushed)), multiset(PushedCallbacks(s.waiting)), multiset(s.client.rejected),
           multiset{cb});
  }

  lemma Across(a: multiset<Callback>, b: multiset<Callback>, c: multiset<Callback>, x: multiset<Callback>)
    ensures (a + x) + (b + multiset{}) + c == a + (b + x) + c
  {
  }

  lemma AnswerableRefused(s: Sys, e: Event)
    requires Enabled(s, e) && e.PushRefused?
    ensures Answerable(Step(s, e)) == Answerable(s) + GivenIn(e)
  {
    hide PushedCallbacks;
    assert InHand(Step(s, e)) == InHand(s);
    MultisetSnoc(s.client.rejected, e.cb);
  }

  lemma {:induction false} AnswerableStep(s: Sys, e: Event)
    requires Enabled(s, e)
    ensures Answerable(Step(s, e)) == Answerable(s) + GivenIn(e)
  {
    hide QueryBytes, Requests, ParserMachine.Accept, Turn, Sendable, PushedCallbacks, Wf, Checked, Confirmed,
      Failed, Fits;
    if e.PushTest? || e.Wake? {
      AnswerableWaits(s, e);
    } else if e.PushCallback? {
      AnswerablePush(s, e);
    } else if e.PushRefused? {
      AnswerableRefused(s, e);
    } else if e.Check? || e.Confirm? || e.SocketError? {
      WriterKeeps(s.client, if e.Confirm? then s.writer.n else 0);
    } else if e.Parse? {
      TurnKeeps(s.client, e.stale);
    }
  }

  lemma {:induction false} AnswerableRun(es: seq<Event>)
    requires Possible(INITIAL, es)
    ensures Answerable(Run(INITIAL, es)) == Given(es)
    decreases |es|
  {
    hide Enabled, Step, Answerable;
    if es == [] {
      NothingGiven();
    } else {
      RunSnoc(INITIAL, es);
      AnswerableRun(es[..|es| - 1]);
      AnswerableStep(Run(INITIAL, es[..|es| - 1]), es[|es| - 1]);
    }
  }

  lemma NothingGiven()
    ensures Answerable(INITIAL) == multiset{}
  {
    assert PushedCallbacks([]) == [];
  }

  /** No callback given to push is forgotten or called twice: each is, as often as it was given, among those
      called with a reply, those called with the error, those refused, those queued, and those whose push is
      under way or waits for room. */
  lemma {:induction false} EveryPushAccounted(es: seq<Event>)
    requires Possible(INITIAL, es)
    ensures var s := Run(INITIAL, es);
            Given(es) == multiset(DeliveredCallbacks(s.client.delivered)) + multiset(s.client.aborted)
            + multiset(s.client.cbq) + InHand(s) + multiset(s.client.rejected)
  {
    hide Run, Possible, Given, PushedCallbacks, DeliveredCallbacks, InHand;
    AnswerableRun(es);
    ExactlyOnce(es);
    var s := Run(INITIAL, es);
    assert s.pushed == s.pushed[..s.known] + s.pushed[s.known..];
    PushedApart(s.pushed[..s.known], s.pushed[s.known..]);
    DeliveredApart(s.client.delivered, s.answered);
  }

  lemma DeliveredApart(ds: seq<Delivery>, k: nat)
    requires k <= |ds|
    ensures DeliveredCallbacks(ds) == DeliveredCallbacks(ds[..k]) + DeliveredCallbacks(ds[k..])
  {
  }

  /** Whenever the reader waits, it holds of replies not delivered no more than the next one, unless the parser is
      bound to throw. So while no reply is longer than half the limit less one read, there is always room to read,
      however many bytes have passed. */
  lemma EveryReadFindsRoom(es: seq<Event>)
    requires Possible(INITIAL, es)
    ensures var s, rs := Run(INITIAL, es), Pending(Run(INITIAL, es));
            !s.cut ==>
              s.client.held + |s.wire| == |EncAll(rs)|
              && (s.client.reader == Reading && !Doomed(s.client.parser, s.wire) ==>
                    (s.client.held <= if rs == [] then 0 else |Enc(rs[0])|)
                    && ((forall v :: v in rs ==> |Enc(v)| + RESP_RELEASE_SZ <= MAX_BUFF_SIZE / 2) ==>
                          s.client.held + RESP_RELEASE_SZ <= MAX_BUFF_SIZE / 2))
  {
    hide Run, Possible, CallbacksKept, BytesKept, ServedInOrder, Sound, Hungry, Doomed, Enc, EncAll, Val, Pending;
    InvInitial();
    InvRun(INITIAL, es);
    var s := Run(INITIAL, es);
    if !s.cut && s.client.reader == Reading && !Doomed(s.client.parser, s.wire) {
      HungryHolds(s.client.parser, Pending(s), s.wire);
    }
  }

  /** Only a turn of the reader ends it. */
  lemma OnlyTurnsEnd(s: Sys, e: Event)
    requires s.client.reader != Finished && Enabled(s, e) && !e.Parse?
    ensures Step(s, e).client.reader != Finished
  {
    hide QueryBytes, Requests, ParserMachine.Accept, Sendable, Wf, Fits, Checked, Confirmed;
    if e.Check? || e.Confirm? {
      WriterKeeps(s.client, if e.Confirm? then s.writer.n else 0);
    }
  }

  /** When the reader reports the work done: exactly when a reply has come, stop is set and no callback is left. */
  lemma ReaderEndsIff(es: seq<Event>, e: Event)
    requires Possible(INITIAL, es) && Enabled(Run(INITIAL, es), e) && Run(INITIAL, es).client.reader != Finished
    ensures var s, s' := Run(INITIAL, es), Step(Run(INITIAL, es), e);
            !s'.cut ==> (s'.client.reader == Finished <==>
                         s'.parsed == s.parsed + 1 && s'.client.stop && s'.client.cbq == [])
  {
    hide Run, Possible, BytesKept, ServedInOrder, RepliesRight, Enabled, Step;
    InvInitial();
    InvRun(INITIAL, es);
    var s := Run(INITIAL, es);
    InvStep(s, e);
    if e.Parse? {
      TurnEnds(s, e);
      if !Step(s, e).cut {
        NeverSyncFault(Step(s, e));
      }
    } else {
      OnlyTurnsEnd(s, e);
      OnlyTurnsParse(s, e);
    }
  }

  lemma NeverSyncFault(s: Sys)
    requires Inv(s) && !s.cut
    ensures s.client.reader != SyncFault
  {
  }

  lemma OnlyTurnsParse(s: Sys, e: Event)
    requires Enabled(s, e) && !e.Parse?
    ensures Step(s, e).parsed == s.parsed
  {
  }

  lemma TurnEnds(s: Sys, e: Event)
    requires CallbacksKept(s) && Enabled(s, e) && e.Parse?
    ensures var s' := Step(s, e);
            s'.client.reader == Finished || s'.client.reader == SyncFault <==>
            s'.parsed == s.parsed + 1 && s'.client.cbq == [] && (s'.client.stop || s.client.cbq == [])
    ensures Step(s, e).client.reader == Finished ==> Step(s, e).client.stop
  {
    hide ParserMachine.ParseOne, ParserMachine.StillHeld, PushedCallbacks, DeliveredCallbacks, CutInside;
    assert s.client.cbq != [] ==> |s.client.cbq[1..]| == |s.client.cbq| - 1;
  }

  /** And what that means: without an error, when the reader reports the work done, every accepted callback has been
      called with a reply, in push order, and the reports of later steps change nothing of it. */
  lemma DoneWhenAllDelivered(pre: seq<Event>, e: Event, post: seq<Event>)
    requires Possible(INITIAL, pre) && Enabled(Run(INITIAL, pre), e) && Run(INITIAL, pre).client.reader != Finished
    requires var a := Step(Run(INITIAL, pre), e); a.client.reader == Finished && !a.client.err && Possible(a, post)
    ensures var a, b := Step(Run(INITIAL, pre), e), Run(Step(Run(INITIAL, pre), e), post);
            a.client.stop && a.client.cbq == [] && PushedCallbacks(a.pushed) == DeliveredCallbacks(b.client.delivered)
  {
    hide Run, Possible, BytesKept, ServedInOrder, RepliesKept, Enabled, Step, PushedCallbacks, DeliveredCallbacks;
    InvInitial();
    InvRun(INITIAL, pre);
    var s := Run(INITIAL, pre);
    InvStep(s, e);
    if e.Parse? {
      TurnEnds(s, e);
    } else {
      OnlyTurnsEnd(s, e);
    }
    var a := Step(s, e);
    assert DeliveredCallbacks(a.client.delivered) + [] == DeliveredCallbacks(a.client.delivered);
    EndedReaderCallsNobody(a, post);
  }

  /** The winner of the writer flag lays it down again exactly when every byte is sent, and otherwise offers some. */
  lemma IdleIffAllSent(es: seq<Event>)
    requires Possible(INITIAL, es) && Enabled(Run(INITIAL, es), Check) && !Run(INITIAL, es).client.err
    ensures var s, s' := Run(INITIAL, es), Step(Run(INITIAL, es), Check);
            (s'.writer == Free <==> s.sent == Promised(s)) && (s'.writer != Free ==> s'.client.out.unsent != [])
  {
    hide Run, Possible, CallbacksKept, ServedInOrder, RepliesKept;
    InvInitial();
    InvRun(INITIAL, es);
    CheckSends(Run(INITIAL, es));
  }

  lemma CheckSends(s: Sys)
    requires BytesKept(s) && Enabled(s, Check) && !s.client.err
    ensures var s' := Step(s, Check);
            (s'.writer == Free <==> s.sent == Promised(s)) && (s'.writer != Free ==> s'.client.out.unsent != [])
            && Promised(s') == Promised(s) && s'.sent == s.sent
  {
    hide Promised;
    var o := s.client.out;
    SamePromised(s, Step(s, Check));
    assert s.sent + o.unsent + o.live == Promised(s);
    assert |s.sent + o.unsent + o.live| == |s.sent| + |o.unsent| + |o.live|;
    if OutputBuffer.IsDrained(o) {
      assert s.sent + o.unsent + o.live == s.sent;
    }
  }

  lemma SamePromised(s: Sys, s': Sys)
    requires s'.pushed == s.pushed && s'.lock.Midway? == s.lock.Midway?
    requires s'.client.err == s.client.err && s'.known == s.known
    ensures Promised(s') == Promised(s)
  {
    hide Queries;
    SameComplete(s, s');
  }

  /** After stop no push is accepted but those that had passed the stop test. */
  lemma {:induction false} StoppedAdmitsNobody(s: Sys, es: seq<Event>)
    requires s.client.stop && Possible(s, es)
    ensures var s' := Run(s, es); s'.client.stop && Passed(s') == Passed(s) && s.pushed <= s'.pushed
    decreases |es|
  {
    hide Step, Enabled, Passed;
    if es != [] {
      PassedStep(s, es[0]);
      StaysStopped(s, es[0]);
      StoppedAdmitsNobody(Step(s, es[0]), es[1..]);
    }
  }

  lemma StaysStopped(s: Sys, e: Event)
    requires s.client.stop && Enabled(s, e)
    ensures Step(s, e).client.stop
  {
    hide QueryBytes, Requests, ParserMachine.Accept, Turn, Sendable, Wf, Fits;
    if e.Parse? {
      TurnKeeps(s.client, e.stale);
    }
  }

  /** A socket error makes room: every waiting push below the limit fits at once. */
  lemma ErrorMakesRoom(s: Sys, p: Push)
    requires Enabled(s, SocketError)
    ensures Fits(Step(s, SocketError).client, p) <==> |QueryBytes(p.parts)| < MAX_BUFF_SIZE
  {
    hide QueryBytes;
  }

  /** Once the reader has ended nobody is called with a reply any more. A push that passed the stop test just
      before stop was called is such a case: its callback stays queued. */
  lemma {:induction false} EndedReaderCallsNobody(s: Sys, es: seq<Event>)
    requires s.client.reader == Finished && Possible(s, es)
    ensures var c, c' := s.client, Run(s, es).client;
            c'.reader == Finished && c'.delivered == c.delivered && (!c'.err ==> !c.err && c.cbq <= c'.cbq)
    decreases |es|
  {
    hide Step, Enabled;
    if es != [] {
      EndedStep(s, es[0]);
      EndedReaderCallsNobody(Step(s, es[0]), es[1..]);
    }
  }

  lemma EndedStep(s: Sys, e: Event)
    requires s.client.reader == Finished && Enabled(s, e)
    ensures var c, c' := s.client, Step(s, e).client;
            c'.reader == Finished && c'.delivered == c.delivered && (!c'.err ==> c.cbq <= c'.cbq) && (c.err ==> c'.err)
  {
    hide QueryBytes, Requests, ParserMachine.Accept, ParserMachine.ParseOne, Turn, Sendable, Wf, Fits, CutInside,
      Checked, Confirmed;
    if e.Check? || e.Confirm? {
      WriterKeeps(s.client, if e.Confirm? then s.writer.n else 0);
    }
  }

  /** The pushes that have passed the stop test, accepted or not. */
  function Passed(s: Sys): multiset<Push> {
    multiset(s.pushed) + multiset(s.waiting) + if s.lock.Tested? then multiset{s.lock.push} else multiset{}
  }

  /** What a socket error leaves alone from then on. */
  predicate Settled(s: Sys, s': Sys) {
    s'.client.err && s'.client.stop && s'.known == s.known && s'.answered == s.answered && s'.sent == s.sent &&
    s'.client.aborted == s.client.aborted && s.client.delivered <= s'.client.delivered && s.pushed <= s'.pushed &&
    Passed(s') == Passed(s)
  }

  lemma PassedStep(s: Sys, e: Event)
    requires s.client.stop && Enabled(s, e)
    ensures Passed(Step(s, e)) == Passed(s) && s.pushed <= Step(s, e).pushed
  {
    hide QueryBytes, Requests, ParserMachine.Accept, Turn, Sendable, Wf, Fits, Checked, Confirmed,
      PushedCallbacks;
    if e.Wake? {
      PushedRemoved(s.waiting, e.i);
    }
  }

  lemma SettledStep(s: Sys, e: Event)
    requires s.client.err && s.client.stop && Enabled(s, e)
    ensures Settled(s, Step(s, e))
  {
    hide QueryBytes, Requests, ParserMachine.Accept, Turn, Sendable, Wf, Fits, Passed;
    PassedStep(s, e);
    if e.Parse? {
      var c, r := s.client, ParserMachine.ParseOne(s.client.parser, e.stale);
      TurnKeeps(c, e.stale);
      if r.st == Done && c.cbq != [] {
        TurnDelivers(c, e.stale, r);
      } else {
        TurnIdles(c, e.stale, r);
      }
    }
  }

  lemma {:induction false} StaysSettled(s: Sys, es: seq<Event>)
    requires s.client.err && s.client.stop && Possible(s, es)
    ensures Settled(s, Run(s, es))
    decreases |es|
  {
    hide Step, Enabled, Passed;
    if es != [] {
      SettledStep(s, es[0]);
      StaysSettled(Step(s, es[0]), es[1..]);
    }
  }

  /** After a socket error no byte is sent, nobody is aborted, and no push is accepted but those that had passed
      the stop test before. */
  lemma QuietAfterError(es: seq<Event>, more: seq<Event>)
    requires Possible(INITIAL, es) && Run(INITIAL, es).client.err && Possible(Run(INITIAL, es), more)
    ensures var s, s' := Run(INITIAL, es), Run(Run(INITIAL, es), more);
            s'.sent == s.sent && s'.client.aborted == s.client.aborted && s.pushed <= s'.pushed
            && Passed(s') == Passed(s)
  {
    hide Run, Possible, BytesKept, ServedInOrder, RepliesKept, Passed;
    InvInitial();
    InvRun(INITIAL, es);
    StaysSettled(Run(INITIAL, es), more);
  }

  /** The exact condition. When a socket error comes, in any run, each push accepted before it has its callback
      called exactly once: with its reply before the error, or with the error. Each push accepted after it, which
      is one that was waiting for room, has its query never read by the server: its callback stays queued, or is
      called with a reply, to a query accepted before as long as replies come out right. A callback is called with
      what is its own if and only if its push is accepted before the error. */
  lemma RightIffBeforeError(pre: seq<Event>, post: seq<Event>)
    requires Possible(INITIAL, pre) && Enabled(Run(INITIAL, pre), SocketError)
    requires Possible(Step(Run(INITIAL, pre), SocketError), post)
    ensures var a, b := Run(INITIAL, pre), Run(Step(Run(INITIAL, pre), SocketError), post);
            var n, d := |a.pushed|, |a.client.delivered|;
            a.pushed <= b.pushed && a.client.delivered <= b.client.delivered &&
            PushedCallbacks(a.pushed) == DeliveredCallbacks(a.client.delivered) + b.client.aborted &&
            PushedCallbacks(b.pushed[n..]) == DeliveredCallbacks(b.client.delivered[d..]) + b.client.cbq &&
            |b.exchanges| <= n && (forall i :: 0 <= i < |b.exchanges| ==> b.exchanges[i].parts == a.pushed[i].parts) &&
            (!b.cut ==> forall i :: d <= i < |b.client.delivered| ==> IsReply(b.client.delivered[i].resp, b.exchanges))
  {
    hide Run, Possible, Inv, PushedCallbacks, DeliveredCallbacks, IsReply, Passed;
    var a := Run(INITIAL, pre);
    InvInitial();
    InvRun(INITIAL, pre);
    InvStep(a, SocketError);
    var a' := Step(a, SocketError);
    InvRun(a', post);
    AfterError(a');
    StaysSettled(a', post);
    var b := Run(a', post);
    AfterError(b);
    assert b.pushed[..b.known] == a.pushed && b.client.delivered[..b.answered] == a.client.delivered;
  }

  lemma AfterError(s: Sys)
    requires Inv(s) && s.client.err
    ensures var c := s.client;
            c.stop && s.known <= |s.pushed| && s.answered <= |c.delivered| && |s.exchanges| <= s.known &&
            PushedCallbacks(s.pushed[..s.known]) == DeliveredCallbacks(c.delivered[..s.answered]) + c.aborted &&
            PushedCallbacks(s.pushed[s.known..]) == DeliveredCallbacks(c.delivered[s.answered..]) + c.cbq &&
            (forall i :: 0 <= i < |s.exchanges| ==> s.exchanges[i].parts == s.pushed[i].parts) &&
            (!s.cut ==> forall i :: s.answered <= i < |c.delivered| ==> IsReply(c.delivered[i].resp, s.exchanges))
  {
    hide PushedCallbacks, DeliveredCallbacks, Requests, Wf, Sendable, ParserKept, Val, IsReply, BytesKept;
  }

  // ---- a wrong reply after an error

  lemma {:induction false} RunMore(s: Sys, es: seq<Event>, e: Event)
    requires Possible(s, es) && Enabled(Run(s, es), e)
    ensures Possible(s, es + [e]) && Run(s, es + [e]) == Step(Run(s, es), e)
    decreases |es|
  {
    hide Enabled, Step;
    if es == [] {
      assert [] + [e] == [e] && [e][1..] == [];
    } else {
      assert (es + [e])[1..] == es[1..] + [e];
      RunMore(Step(s, es[0]), es[1..], e);
    }
  }

  /** A query sent whole and answered, with the answer still on the wire. */
  function Asked(a: Push, v: Reply): Sys {
    var q := QueryBytes(a.parts);
    INITIAL.(client := NEW_CLIENT.(cbq := [a.cb], out := OutputBuffer.OutState([], true, q), running := true),
    writer := Sent(|q|), pushed := [a], sent := q, exchanges := [Exchange(a.parts, v)], wire := Enc(v))
  }

  lemma OfferedReached(a: Push) returns (es: seq<Event>)
    requires Sendable(a.parts) && Fits(NEW_CLIENT, a)
    ensures Possible(INITIAL, es)
    ensures var q := QueryBytes(a.parts);
            Run(INITIAL, es) ==
            INITIAL.(client := NEW_CLIENT.(cbq := [a.cb], out := OutputBuffer.OutState([], true, q), running := true),
            writer := Writing, pushed := [a])
  {
    hide Run, Possible, QueryBytes, Sendable, Fits;
    RunNothing(INITIAL);
    PushReached(INITIAL, [], a);
    es := [] + [PushTest(a.cb, a.parts)] + [PushCallback] + [PushBytes];
    var q := QueryBytes(a.parts);
    QueryNonEmpty(a.parts);
    assert [] + q == q && [] + [a] == [a];
    RunMore(INITIAL, es, Acquire);
    es := es + [Acquire];
    RunMore(INITIAL, es, Check);
    es := es + [Check];
  }

  lemma AskedReached(a: Push, v: Reply) returns (es: seq<Event>)
    requires Sendable(a.parts) && Wf(v) && Fits(NEW_CLIENT, a)
    ensures Possible(INITIAL, es) && Run(INITIAL, es) == Asked(a, v)
  {
    hide Run, Possible, QueryBytes, Enc, Sendable, Wf, Fits;
    es := OfferedReached(a);
    var q := QueryBytes(a.parts);
    RunMore(INITIAL, es, SocketTakes(|q|));
    es := es + [SocketTakes(|q|)];
    assert q[..|q|] == q && q[0..] == q && Requests([]) == [];
    RunMore(INITIAL, es, Serve(a.parts, v));
    es := es + [Serve(a.parts, v)];
  }

  lemma RunNothing(s: Sys)
    ensures Possible(s, []) && Run(s, []) == s
  {
  }

  /** For every array whose last element is an array beginning with a scalar, read in two pieces right behind the
      inner header: the callback gets a wrong tree, and the rest of the reply makes the sync error, for every
      leftover byte. */
  lemma CutReachesSyncError(a: Push, pre: seq<Reply>, inner: seq<Reply>, s0: char, s1: char, s2: char)
    returns (es: seq<Event>)
    requires Sendable(a.parts) && Fits(NEW_CLIENT, a) && Wf(Arr(pre + [Arr(inner)]))
    requires (forall v :: v in pre ==> !v.Arr?) && |inner| >= 2 && !inner[0].Arr? && Punctual(inner)
    ensures Possible(INITIAL, es)
    ensures var s, v := Run(INITIAL, es), Arr(pre + [Arr(inner)]);
            s.exchanges == [Exchange(a.parts, v)] && s.client.reader == SyncFault
            && s.client.delivered == [Delivery(a.cb, Departures.Mixed(pre, inner))]
            && Departures.Mixed(pre, inner) != Val(v)
  {
    hide Run, Possible, QueryBytes, Enc, EncAll, Header, Vals, Sendable, Val, ParserMachine.ParseOne, Turn, Wf, Requests,
      Departures.Mixed, Departures.HeaderOnlySlot, CutInside, Fits;
    var v, x, y := Arr(pre + [Arr(inner)]), Header(|pre| + 1) + (EncAll(pre) + Header(|inner|)), EncAll(inner);
    Departures.MisreadStream(pre, inner, x, y);
    Departures.MixedIsWrong(pre, inner);
    Departures.PartsWf(pre, inner);
    OneReply(v);
    es := AskedReached(a, v);
    HeaderBytes(|pre| + 1);
    CutFirst(pre, inner, x, Run(INITIAL, es).client, s0);
    es := ReadWith(es, x, y, s0);
    PunctualBytes(inner);
    assert y + [] == y;
    CutSecond(pre, inner, y, Run(INITIAL, es).client, s1);
    es := ReadWith(es, y, [], s1);
    var s := Run(INITIAL, es);
    RestComplete(inner, s.client.parser, s2);
    RunMore(INITIAL, es, Parse(s2));
    es := es + [Parse(s2)];
    TurnIdles(s.client, s2, ParserMachine.ParseOne(s.client.parser, s2));
    TurnKeeps(s.client, s2);
  }

  function CutParser(pre: seq<Reply>, inner: seq<Reply>): ParserMachine.PState {
    ParserMachine.PState([], 0, true, BLANK.(ares := Vals(pre) + [Departures.HeaderOnlySlot(|inner|)]))
  }

  /** The first turn ends inside the inner array. */
  lemma CutFirst(pre: seq<Reply>, inner: seq<Reply>, x: Bytes, c: Client, s: char)
    requires AllWf(pre) && (forall v :: v in pre ==> !v.Arr?) && 1 <= |inner| <= VECTOR_MAX && |pre| + 1 <= VECTOR_MAX
    requires x == Header(|pre| + 1) + (EncAll(pre) + Header(|inner|)) && c.parser == ParserMachine.FRESH
    ensures Turn(PipelineSystem.Received(c, x), s)
         == c.(parser := CutParser(pre, inner), held := c.held + |x|, reader := Reading)
  {
    hide ParserMachine.ParseOne, Header, EncAll, Vals, Departures.HeaderOnlySlot, Wf;
    assert [] + x == x;
    Departures.FirstCall(pre, inner, ParserMachine.PState(x, 0, false, BLANK), s);
  }

  /** The next hands over the wrong tree. */
  lemma CutSecond(pre: seq<Reply>, inner: seq<Reply>, y: Bytes, c: Client, s: char)
    requires AllWf(inner) && (forall v :: v in pre ==> !v.Arr?) && |inner| >= 2 && !inner[0].Arr? && y == EncAll(inner)
    requires c.parser == CutParser(pre, inner) && |c.cbq| == 1 && !c.stop
    ensures var t := Departures.Mixed(pre, inner);
            Turn(PipelineSystem.Received(c, y), s)
            == c.(parser := ParserMachine.PState(EncAll(inner[1..]), 0, false, t), held := |EncAll(inner[1..])|,
            cbq := [], reader := Parsing, delivered := c.delivered + [Delivery(c.cbq[0], t)])
  {
    hide ParserMachine.ParseOne, EncAll, Vals, Departures.HeaderOnlySlot, Departures.Mixed, Wf;
    assert [] + y == y;
    Departures.Misread(pre, inner, ParserMachine.PState(y, 0, true, c.parser.resp), s);
  }

  /** One piece is read, and the loop takes a turn. */
  lemma ReadWith(es: seq<Event>, chunk: Bytes, rest: Bytes, stale: char) returns (es': seq<Event>)
    requires Possible(INITIAL, es) && Run(INITIAL, es).client.reader == Reading && chunk != []
    requires Run(INITIAL, es).wire == chunk + rest
    ensures Possible(INITIAL, es')
    ensures var s, s' := Run(INITIAL, es), Run(INITIAL, es');
            s'.client == Turn(PipelineSystem.Received(s.client, chunk), stale) && s'.wire == rest
            && s'.exchanges == s.exchanges
  {
    hide Run, Possible, Turn, CutInside, ParserMachine.Accept, ParserMachine.ParseOne;
    RunMore(INITIAL, es, Read(chunk));
    RunMore(INITIAL, es + [Read(chunk)], Parse(stale));
    es' := es + [Read(chunk)] + [Parse(stale)];
  }

  lemma PunctualBytes(inner: seq<Reply>)
    requires |inner| >= 2
    ensures EncAll(inner) != []
  {
  }

  lemma RestComplete(inner: seq<Reply>, p: ParserMachine.PState, s: char)
    requires AllWf(inner) && |inner| >= 2 && Punctual(inner)
    requires p == ParserMachine.PState(EncAll(inner[1..]), 0, false, p.resp)
    ensures ParserMachine.ParseOne(p, s).st == Done
  {
    hide ParserMachine.ParseOne, Enc, EndsBlank, Wf;
    var rest := inner[1..];
    assert EncAll(rest) == Enc(rest[0]) + EncAll(rest[1..]) && p.pend + [] == EncAll(rest);
    assert rest[0] in inner;
    assert |rest| >= 2 ==> EncAll(rest[1..]) == Enc(rest[1]) + EncAll(rest[2..]) by {
      if |rest| >= 2 {
        assert rest[1..][1..] == rest[2..];
      }
    }
    if |rest| >= 2 {
      EncNonEmpty(rest[1]);
    } else {
      assert inner[|inner| - 1] == rest[0];
    }
    forall v | v in rest
      ensures Wf(v)
    {
      assert v in inner;
    }
    ParseComplete(p, rest, [], s);
  }

  /** Then a second push fills the buffer, a third waits for room, and the socket fails. */
  function CutOff(a: Push, c: Push, b: Push, v: Reply): Sys {
    var s := Asked(a, v);
    s.(client := NEW_CLIENT.(running := true, stop := true, err := true, aborted := [a.cb, c.cb]),
    pushed := [a, c], waiting := [b], known := 2)
  }

  lemma CutOffReached(a: Push, c: Push, b: Push, v: Reply, es: seq<Event>) returns (es': seq<Event>)
    requires Possible(INITIAL, es) && Run(INITIAL, es) == Asked(a, v)
    requires Sendable(c.parts) && Sendable(b.parts) && Fits(NEW_CLIENT, c)
    requires !Fits(Written(NEW_CLIENT, QueryBytes(c.parts)), b)
    ensures Possible(INITIAL, es') && Run(INITIAL, es') == CutOff(a, c, b, v)
  {
    hide Run, Possible, QueryBytes, Enc, Sendable;
    PushReached(INITIAL, es, c);
    es' := es + [PushTest(c.cb, c.parts)] + [PushCallback] + [PushBytes];
    var q := QueryBytes(c.parts);
    assert [] + q == q && [a] + [c] == [a, c] && [a.cb] + [c.cb] == [a.cb, c.cb];
    RunMore(INITIAL, es', PushTest(b.cb, b.parts));
    es' := es' + [PushTest(b.cb, b.parts)];
    RunMore(INITIAL, es', SocketError);
    es' := es' + [SocketError];
    assert [] + [b] == [b] && [] + [a.cb, c.cb] == [a.cb, c.cb];
  }

  /** The waiting push enters and is handed the reply to the first, whose own callback got the error: for every
      three pushes of such sizes, every complete reply and every leftover byte. */
  lemma LateGetsAnothersReply(a: Push, c: Push, b: Push, v: Reply, stale: char) returns (es: seq<Event>)
    requires Sendable(a.parts) && Sendable(c.parts) && Sendable(b.parts) && Wf(v) && !EndsBlank(v)
    requires Fits(NEW_CLIENT, a) && Fits(NEW_CLIENT, c) && Fits(NEW_CLIENT, b)
    requires !Fits(Written(NEW_CLIENT, QueryBytes(c.parts)), b)
    ensures Possible(INITIAL, es)
    ensures var s := Run(INITIAL, es);
            s.client.delivered == [Delivery(b.cb, Val(v))] && s.client.aborted == [a.cb, c.cb]
            && s.exchanges == [Exchange(a.parts, v)]
  {
    hide Run, Possible, QueryBytes, Enc, Sendable, Val, ParserMachine.ParseOne, Turn, Wf, EndsBlank, Requests;
    es := AskedReached(a, v);
    es := CutOffReached(a, c, b, v, es);
    RunMore(INITIAL, es, Wake(0));
    es := es + [Wake(0)];
    RunMore(INITIAL, es, PushCallback);
    es := es + [PushCallback];
    assert [] + [b.cb] == [b.cb];
    EncNonEmpty(v);
    RunMore(INITIAL, es, Read(Enc(v)));
    es := es + [Read(Enc(v))];
    var s := Run(INITIAL, es);
    assert [] + Enc(v) == Enc(v);
    RunMore(INITIAL, es, Parse(stale));
    es := es + [Parse(stale)];
    ParseWhole(s.client.parser, v, stale);
    TurnKeeps(s.client, stale);
    TurnDelivers(s.client, stale, ParserMachine.ParseOne(s.client.parser, stale));
  }

  lemma ParseWhole(p: ParserMachine.PState, v: Reply, stale: char)
    requires p == ParserMachine.FRESH.(pend := Enc(v)) && Wf(v) && !EndsBlank(v)
    ensures ParserMachine.ParseOne(p, stale).st == Done && ParserMachine.ParseOne(p, stale).state.resp == Val(v)
  {
    hide Enc, Val, ParserMachine.ParseOne, Wf, EndsBlank;
    assert [v][1..] == [] && EncAll([v]) == Enc(v) + EncAll([]) && Enc(v) + [] == Enc(v);
    ParseComplete(p, [v], [], stale);
  }

  lemma EncNonEmpty(v: Reply)
    ensures Enc(v) != []
  {
  }

  /** A push that finds room, and whose thread is not stopped. */
  lemma PushReached(s0: Sys, es: seq<Event>, p: Push)
    requires Possible(s0, es)
    requires var s := Run(s0, es); !s.client.stop && s.lock.Open? && Sendable(p.parts) && Fits(s.client, p)
    ensures var es' := es + [PushTest(p.cb, p.parts)] + [PushCallback] + [PushBytes];
            var s := Run(s0, es);
            Possible(s0, es') && Run(s0, es') ==
                                 s.(client := Written(Queued(s.client, p.cb), QueryBytes(p.parts)),
                                 pushed := s.pushed + [p])
  {
    hide Run, Possible, QueryBytes, Sendable, Fits;
    RunMore(s0, es, PushTest(p.cb, p.parts));
    RunMore(s0, es + [PushTest(p.cb, p.parts)], PushCallback);
    RunMore(s0, es + [PushTest(p.cb, p.parts)] + [PushCallback], PushBytes);
  }

  /** One writer at a time, and in a run without errors every byte of every complete query is sent,
      frozen or live, once and in order. */
  lemma WriterExclusiveAndConserving(es: seq<Event>)
    requires Possible(INITIAL, es)
    ensures var s := Run(INITIAL, es);
            (s.client.running <==> s.writer != Free) && s.sent <= Promised(s)
            && (!s.client.err ==> s.sent + Untaken(s) + s.client.out.live == Promised(s))
  {
    InvInitial();
    InvRun(INITIAL, es);
  }
}

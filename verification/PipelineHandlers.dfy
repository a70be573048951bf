/** What the pipelining processor's handlers do to its state, and that each is a run of the transition system. */
module PipelineHandlers {
  import opened ByteStrings
  import ParserMachine
  import opened QueryRoundTrip
  import opened Server
  import opened PipelineSystem
  import opened PipelineRuns

  /** Try to become the writer and, on success, look for something to send. */
  function Managed(c: Client): Client {
    if c.running then c else Checked(Acquired(c))
  }

  /** Turns of the reading handler, one for each leftover byte it met. */
  function Turns(c: Client, stales: seq<char>): Client {
    if stales == [] then c else Turn(Turns(c, stales[..|stales| - 1]), stales[|stales| - 1])
  }

  /** The loop goes on up to the last of these turns. */
  predicate GoesOn(c: Client, stales: seq<char>) {
    forall i :: 0 <= i < |stales| ==> Turns(c, stales[..i]).reader == Parsing
  }

  lemma NoTurns(c: Client)
    ensures Turns(c, []) == c && GoesOn(c, [])
  {
  }

  lemma TurnsSnoc(c: Client, stales: seq<char>, s: char)
    requires GoesOn(c, stales) && Turns(c, stales).reader == Parsing
    ensures Turns(c, stales + [s]) == Turn(Turns(c, stales), s) && GoesOn(c, stales + [s])
  {
    hide Turn;
    assert (stales + [s])[..|stales|] == stales;
    assert forall i :: 0 <= i <= |stales| ==> (stales + [s])[..i] == stales[..i];
  }

  // ---- the handlers as runs of the system

  /** The parsing events of those turns. */
  function Parses(stales: seq<char>): seq<Event> {
    if stales == [] then [] else Parses(stales[..|stales| - 1]) + [Parse(stales[|stales| - 1])]
  }

  /** The reading handler is a run of the system: the bytes arrive, and the parser takes its turns. It leaves the
      writing side alone. */
  lemma {:induction false} HandlerIsRun(s: Sys, chunk: Bytes, stales: seq<char>)
    requires Enabled(s, Read(chunk)) && GoesOn(Received(s.client, chunk), stales)
    ensures Possible(s, [Read(chunk)] + Parses(stales))
    ensures var s' := Run(s, [Read(chunk)] + Parses(stales));
            s'.client == Turns(Received(s.client, chunk), stales) && s'.writer == s.writer && s'.lock == s.lock
            && s'.pushed == s.pushed && s'.waiting == s.waiting && s'.sent == s.sent && s'.exchanges == s.exchanges
            && s'.wire == s.wire[|chunk|..]
    decreases |stales|
  {
    hide Turn, Turns, GoesOn, ParserMachine.Accept, Run, Possible, Step, Enabled;
    Arrival(s, chunk);
    if stales == [] {
      RunNothing(s);
      RunMore(s, [], Read(chunk));
      assert [] + [Read(chunk)] == [Read(chunk)] + Parses(stales);
      NoTurns(Received(s.client, chunk));
    } else {
      var n := |stales| - 1;
      var before, es := stales[..n], [Read(chunk)] + Parses(stales[..n]);
      LastTurn(Received(s.client, chunk), stales);
      HandlerIsRun(s, chunk, before);
      OneTurn(Run(s, es), stales[n]);
      RunMore(s, es, Parse(stales[n]));
      assert es + [Parse(stales[n])] == [Read(chunk)] + Parses(stales);
    }
  }

  lemma Arrival(s: Sys, chunk: Bytes)
    requires Enabled(s, Read(chunk))
    ensures Step(s, Read(chunk)) == s.(client := Received(s.client, chunk), wire := s.wire[|chunk|..])
  {
  }

  lemma LastTurn(c: Client, stales: seq<char>)
    requires stales != [] && GoesOn(c, stales)
    ensures var n := |stales| - 1;
            GoesOn(c, stales[..n]) && Turns(c, stales[..n]).reader == Parsing
            && Turns(c, stales) == Turn(Turns(c, stales[..n]), stales[n])
  {
    hide Turn;
    var n := |stales| - 1;
    assert forall i :: 0 <= i < n ==> stales[..n][..i] == stales[..i];
  }

  lemma OneTurn(s: Sys, stale: char)
    requires s.client.reader == Parsing
    ensures Enabled(s, Parse(stale))
    ensures var s' := Step(s, Parse(stale));
            s' == s.(client := Turn(s.client, stale), parsed := s'.parsed, cut := s'.cut)
  {
    hide Turn, ParserMachine.ParseOne;
  }

  /** With the flag down every byte is sent, and with a write under way there are bytes to write. */
  predicate NoneLying(s: Sys) {
    s.writer == (if s.client.running then Writing else Free) &&
    if s.client.running then s.client.out.unsent != [] else s.sent == Promised(s)
  }

  /** Trying to write is a run: nothing if there is a writer, otherwise win the flag and look. */
  lemma ManagedIsRun(s: Sys, es: seq<Event>) returns (es': seq<Event>)
    requires Possible(s, es) && (Run(s, es).client.running <==> Run(s, es).writer != Free)
    ensures Possible(s, es')
    ensures var t, t' := Run(s, es), Run(s, es');
            t'.client == Managed(t.client) && t'.pushed == t.pushed && t'.waiting == t.waiting
            && (Inv(s) && !t.client.err && !t.client.running ==> NoneLying(t'))
  {
    hide Run, Possible, Inv, NoneLying;
    es' := es;
    if !Run(s, es).client.running {
      RunMore(s, es', Acquire);
      es' := es' + [Acquire];
      RunMore(s, es', Check);
      if Inv(s) {
        InvRun(s, es');
        LooksForAll(Run(s, es'));
      }
      es' := es' + [Check];
    }
  }

  lemma LooksForAll(s: Sys)
    requires Inv(s) && Enabled(s, Check)
    ensures !s.client.err ==> NoneLying(Step(s, Check))
  {
    hide CallbacksKept, ServedInOrder, RepliesKept, Promised;
    if !s.client.err {
      CheckSends(s);
    }
  }

  /** The handler of a write that took n bytes: report, then write on if there is more. */
  lemma WrittenIsRun(s: Sys) returns (es: seq<Event>)
    requires s.writer.Sent? && !s.client.err
    ensures Possible(s, es) && Run(s, es).client == Managed(Confirmed(s.client, s.writer.n))
    ensures Inv(s) ==> NoneLying(Run(s, es))
  {
    hide Run, Possible, Managed, Inv, NoneLying;
    RunNothing(s);
    RunMore(s, [], Confirm);
    es := ManagedIsRun(s, [] + [Confirm]);
  }

  /** A push that finds room: the stop test, the callback, the bytes, and a try to write. */
  lemma PushIsRun(s: Sys, p: Push) returns (es: seq<Event>)
    requires s.lock.Open? && !s.client.stop && Sendable(p.parts) && Fits(s.client, p)
    requires s.client.running <==> s.writer != Free
    ensures Possible(s, es) && Run(s, es).pushed == s.pushed + [p]
    ensures Run(s, es).client == Managed(Written(Queued(s.client, p.cb), QueryBytes(p.parts)))
    ensures Inv(s) && !s.client.running && !s.client.err ==> NoneLying(Run(s, es))
  {
    hide Run, Possible, Managed, QueryBytes, Sendable, Fits, Inv, NoneLying;
    RunNothing(s);
    PushReached(s, [], p);
    es := ManagedIsRun(s, [] + [PushTest(p.cb, p.parts)] + [PushCallback] + [PushBytes]);
  }

  /** A push that had to wait does the same once there is room, whether the processor was stopped meanwhile or not. */
  lemma EnterIsRun(s: Sys, i: nat) returns (es: seq<Event>)
    requires Enabled(s, Wake(i)) && (s.client.running <==> s.writer != Free)
    ensures Possible(s, es) && Run(s, es).pushed == s.pushed + [s.waiting[i]]
    ensures Run(s, es).client == Managed(Written(Queued(s.client, s.waiting[i].cb), QueryBytes(s.waiting[i].parts)))
    ensures Inv(s) && !s.client.running && !s.client.err ==> NoneLying(Run(s, es))
  {
    hide Run, Possible, Managed, QueryBytes, Fits, Inv, NoneLying;
    RunNothing(s);
    RunMore(s, [], Wake(i));
    RunMore(s, [] + [Wake(i)], PushCallback);
    RunMore(s, [] + [Wake(i)] + [PushCallback], PushBytes);
    es := ManagedIsRun(s, [] + [Wake(i)] + [PushCallback] + [PushBytes]);
  }
}

/** What the half-duplex processor's handlers do to its state, and that each is a run of the transition system. */
module SerialHandlers {
  import opened ByteStrings
  import ParserMachine
  import opened SerialSystem
  import opened SerialRuns

  // ---- batches

  /** The batching loop, from its taken-th turn on, with nobody pushing meanwhile. */
  function Batched(p: Proc, taken: nat): Proc
    decreases |p.queue|
  {
    if p.queue == [] then p
    else if taken >= MAX_QUERY_IN_MULTIBUFF then TakenOne(p)
    else Batched(TakenOne(p), taken + 1)
  }

  /** A batch is the first eleven queries of the queue, or all of it. */
  lemma {:induction false} BatchedExact(p: Proc, taken: nat, k: nat)
    requires taken <= MAX_QUERY_IN_MULTIBUFF
    requires var room := MAX_QUERY_IN_MULTIBUFF + 1 - taken; k == if |p.queue| <= room then |p.queue| else room
    ensures Batched(p, taken) == p.(queue := p.queue[k..], sended := p.sended + p.queue[..k])
    decreases |p.queue|
  {
    if p.queue == [] {
      NothingTaken(p);
    } else {
      OneMore(p.queue, p.sended, k);
      if taken < MAX_QUERY_IN_MULTIBUFF {
        BatchedExact(TakenOne(p), taken + 1, k - 1);
      } else {
        OneMore(p.queue, p.sended, 1);
      }
    }
  }

  lemma BatchedTurn(p: Proc, taken: nat)
    ensures p.queue == [] ==> Batched(p, taken) == p
    ensures p.queue != [] ==>
              Batched(p, taken)
              == if taken >= MAX_QUERY_IN_MULTIBUFF then TakenOne(p) else Batched(TakenOne(p), taken + 1)
  {
  }

  lemma NothingTaken(p: Proc)
    requires p.queue == []
    ensures p == p.(queue := p.queue[0..], sended := p.sended + p.queue[..0])
  {
    assert p.queue[0..] == p.queue && p.sended + p.queue[..0] == p.sended;
  }

  lemma OneMore(q: seq<Job>, sended: seq<Job>, k: nat)
    requires 1 <= k <= |q|
    ensures sended + q[..k] == (sended + [q[0]]) + q[1..][..k - 1] && q[1..][k - 1..] == q[k..]
    ensures k == 1 ==> sended + q[..k] == sended + [q[0]]
  {
  }

  /** The pieces of several jobs' queries, in order. */
  function AllPieces(jobs: seq<Job>): seq<Bytes> {
    if jobs == [] then [] else jobs[0].pieces + AllPieces(jobs[1..])
  }

  lemma {:induction false} AllPiecesSnoc(jobs: seq<Job>, j: Job)
    ensures AllPieces(jobs + [j]) == AllPieces(jobs) + j.pieces
  {
    if jobs == [] {
      assert AllPieces([j][1..]) == [];
    } else {
      assert (jobs + [j])[1..] == jobs[1..] + [j];
      AllPiecesSnoc(jobs[1..], j);
    }
  }

  lemma JoinedTail(jobs: seq<Job>, from: nat, j: Job)
    requires from <= |jobs|
    ensures AllPieces((jobs + [j])[from..]) == AllPieces(jobs[from..]) + j.pieces
  {
    assert (jobs + [j])[from..] == jobs[from..] + [j];
    AllPiecesSnoc(jobs[from..], j);
  }

  /** The system's batching events, taken one after another until the write starts. */
  function BatchRun(s: Sys, taken: nat): Sys
    decreases |s.p.queue|
  {
    var s' := BatchStep(s, taken);
    if s'.phase.Batching? && s.p.queue != [] then BatchRun(s', taken + 1) else s'
  }

  /** What has joined the queries sent, and its bytes. */
  predicate Joined(s: Sys, s': Sys, jobs: seq<Job>) {
    s'.p.sended == s.p.sended + jobs && s'.unsent == s.unsent + Concat(AllPieces(jobs))
  }

  lemma JoinedNone(s: Sys, s': Sys)
    requires s'.p.sended == s.p.sended && s'.unsent == s.unsent
    ensures Joined(s, s', [])
  {
    assert s.p.sended + [] == s.p.sended && s.unsent + Concat(AllPieces([])) == s.unsent;
  }

  lemma JoinedOne(s: Sys, s1: Sys, s': Sys, j: Job, jobs: seq<Job>)
    requires s1.p.sended == s.p.sended + [j] && s1.unsent == s.unsent + Concat(j.pieces) && Joined(s1, s', jobs)
    ensures Joined(s, s', [j] + jobs)
  {
    assert ([j] + jobs)[1..] == jobs;
    ConcatAppend(j.pieces, AllPieces(jobs));
    assert s.p.sended + [j] + jobs == s.p.sended + ([j] + jobs);
    var a, b, c := s.unsent, Concat(j.pieces), Concat(AllPieces(jobs));
    assert (a + b) + c == a + (b + c);
  }

  /** The loop is those events, and the bytes of its batch are what is to be sent. */
  lemma {:induction false} BatchRefines(s: Sys, taken: nat) returns (jobs: seq<Job>)
    requires s.phase == Batching(taken)
    ensures var s' := BatchRun(s, taken);
            s'.phase == Writing && s'.writing == s.writing + 1 && s'.p == Batched(s.p, taken) && Joined(s, s', jobs)
            && s'.accepted == s.accepted
    decreases |s.p.queue|
  {
    hide Joined, Concat;
    var s1 := BatchStep(s, taken);
    if s.p.queue == [] {
      jobs := [];
      JoinedNone(s, s1);
    } else {
      var j := s.p.queue[0];
      var rest := [];
      if taken < MAX_QUERY_IN_MULTIBUFF {
        rest := BatchRefines(s1, taken + 1);
      } else {
        JoinedNone(s1, s1);
      }
      jobs := [j] + rest;
      JoinedOne(s, s1, BatchRun(s, taken), j, rest);
    }
  }

  // ---- turns

  /** Turns of the reading handler, one for each leftover byte it met. */
  function Turns(t: Turned, stales: seq<char>): Turned {
    if stales == [] then t else Turn(Turns(t, stales[..|stales| - 1]).p, stales[|stales| - 1])
  }

  /** The loop goes on up to the last of these turns. */
  predicate GoesOn(t: Turned, stales: seq<char>) {
    forall i :: 0 <= i < |stales| ==> Turns(t, stales[..i]).phase == Parsing
  }

  lemma NoTurns(t: Turned)
    ensures Turns(t, []) == t && GoesOn(t, [])
  {
  }

  lemma TurnsSnoc(t: Turned, stales: seq<char>, s: char)
    requires GoesOn(t, stales) && Turns(t, stales).phase == Parsing
    ensures Turns(t, stales + [s]) == Turn(Turns(t, stales).p, s) && GoesOn(t, stales + [s])
  {
    hide Turn;
    assert (stales + [s])[..|stales|] == stales;
    assert forall i :: 0 <= i <= |stales| ==> (stales + [s])[..i] == stales[..i];
  }

  /** Try to win the running flag and, with a query waiting, to write a batch. */
  function Managed(p: Proc): Proc {
    if p.running || p.queue == [] then p else Batched(p.(running := true), 0)
  }

  // ---- the handlers as runs of the system

  /** The parsing events of those turns. */
  function Parses(stales: seq<char>): seq<Event> {
    if stales == [] then [] else Parses(stales[..|stales| - 1]) + [Parse(stales[|stales| - 1])]
  }

  lemma {:induction false} TurnsAreRun(s: Sys, stales: seq<char>)
    requires s.phase == Parsing && GoesOn(Turned(s.p, Parsing), stales)
    ensures Possible(s, Parses(stales))
    ensures var s' := Run(s, Parses(stales));
            Turned(s'.p, s'.phase) == Turns(Turned(s.p, Parsing), stales) && s'.unsent == s.unsent
            && s'.sent == s.sent && s'.accepted == s.accepted && s'.exchanges == s.exchanges && s'.wire == s.wire
    decreases |stales|
  {
    hide Turn, Turns, GoesOn, Run, Possible, Step, Enabled;
    var t := Turned(s.p, Parsing);
    if stales == [] {
      RunNothing(s);
      NoTurns(t);
    } else {
      var n := |stales| - 1;
      var before, last := stales[..n], Parse(stales[n]);
      LastTurn(t, stales);
      TurnsAreRun(s, before);
      var s1 := Run(s, Parses(before));
      OneTurn(s1, stales[n]);
      RunNothing(Step(s1, last));
      RunCons(s1, last, [], Step(s1, last));
      assert [last] + [] == [last];
      RunConcat(s, Parses(before), [last]);
    }
  }

  lemma LastTurn(t: Turned, stales: seq<char>)
    requires stales != [] && GoesOn(t, stales)
    ensures var n := |stales| - 1;
            GoesOn(t, stales[..n]) && Turns(t, stales[..n]).phase == Parsing
            && Turns(t, stales) == Turn(Turns(t, stales[..n]).p, stales[n])
  {
    hide Turn;
    var n := |stales| - 1;
    assert forall i :: 0 <= i < n ==> stales[..n][..i] == stales[..i];
  }

  lemma OneTurn(s: Sys, stale: char)
    requires s.phase == Parsing
    ensures Enabled(s, Parse(stale))
    ensures var s' := Step(s, Parse(stale));
            Turned(s'.p, s'.phase) == Turn(s.p, stale)
            && s' == s.(p := s'.p, phase := s'.phase, reading := s'.reading, parsed := s'.parsed, cut := s'.cut)
  {
    hide Turn, ParserMachine.ParseOne;
  }

  lemma {:induction false} BatchIsRun(s: Sys, taken: nat) returns (es: seq<Event>)
    requires s.phase == Batching(taken)
    ensures Possible(s, es) && Run(s, es) == BatchRun(s, taken)
    decreases |s.p.queue|
  {
    hide Concat, Run, Possible;
    var s1 := BatchStep(s, taken);
    var rest := [];
    RunNothing(s1);
    if s1.phase.Batching? && s.p.queue != [] {
      rest := BatchIsRun(s1, taken + 1);
    }
    es := [Batch] + rest;
    RunCons(s, Batch, rest, BatchRun(s, taken));
  }

  /** With the flag down: win it, look, and gather a batch; the write starts with the batch's bytes. */
  lemma ManagedIsRun(s: Sys) returns (es: seq<Event>, jobs: seq<Job>)
    requires s.phase == Resting && !s.p.running
    ensures Possible(s, es)
    ensures var s' := Run(s, es);
            s'.p == Managed(s.p) && Joined(s, s', jobs) && s'.accepted == s.accepted
            && s'.phase == (if s.p.queue == [] then Resting else Writing) && (s'.phase == Resting ==> s'.p.queue == [])
  {
    hide Run, Possible, Joined, Batched, Concat;
    var s1 := Step(s, Acquire);
    var s2 := Step(s1, Check);
    var rest := [];
    jobs := [];
    RunNothing(s2);
    if s.p.queue == [] {
      JoinedNone(s, s2);
    } else {
      rest := BatchIsRun(s2, 0);
      jobs := BatchRefines(s2, 0);
      JoinedFrom(s, s2, BatchRun(s2, 0), jobs);
    }
    RunCons(s1, Check, rest, Run(s2, rest));
    RunCons(s, Acquire, [Check] + rest, Run(s2, rest));
    es := [Acquire] + ([Check] + rest);
  }

  lemma JoinedFrom(s: Sys, s1: Sys, s': Sys, jobs: seq<Job>)
    requires s1.p.sended == s.p.sended && s1.unsent == s.unsent && Joined(s1, s', jobs)
    ensures Joined(s, s', jobs)
  {
  }

  /** The reading handler is a run of the system: the bytes arrive, the parser takes its turns, and if that lays down
      the flag, the next batch is written. */
  lemma {:induction false} HandlerIsRun(s: Sys, chunk: Bytes, stales: seq<char>) returns (es: seq<Event>)
    requires Enabled(s, Read(chunk)) && s.p.running
    requires GoesOn(Turned(Arrived(s.p, chunk), Parsing), stales)
    ensures Possible(s, es)
    ensures var t := Turns(Turned(Arrived(s.p, chunk), Parsing), stales);
            Run(s, es).p == if t.phase == Resting then Managed(t.p) else t.p
    ensures Run(s, es).phase == Resting ==> Run(s, es).p.queue == []
  {
    hide Run, Possible, Turns, GoesOn, Managed, ParserMachine.Accept, Joined;
    var s1 := Step(s, Read(chunk));
    TurnsAreRun(s1, stales);
    var s2 := Run(s1, Parses(stales));
    RunCons(s, Read(chunk), Parses(stales), s2);
    es := [Read(chunk)] + Parses(stales);
    if s2.phase == Resting {
      FlagDown(Turned(s1.p, Parsing), stales);
      var more, jobs := ManagedIsRun(s2);
      RunConcat(s, es, more);
      es := es + more;
    }
  }

  lemma FlagDown(t: Turned, stales: seq<char>)
    requires t.phase == Parsing && Turns(t, stales).phase == Resting
    ensures !Turns(t, stales).p.running
  {
    hide ParserMachine.ParseOne;
  }

  /** A push that finds room is a run of the system: its test, its entry, and the next batch if the flag is down. */
  lemma PushIsRun(s: Sys, job: Job) returns (es: seq<Event>)
    requires Built(job) && HalfDuplex(s) && !s.p.stop && |s.p.queue| <= SerialSystem.MAX_BUFF_SIZE
    ensures Possible(s, es) && Run(s, es).p == Managed(Enqueued(s.p, job))
    ensures Run(s, es).accepted == s.accepted + [job] && (s.phase == Resting ==> Run(s, es).phase == Writing)
  {
    hide Run, Possible, Built, Batched, Joined;
    var n := |s.admitted|;
    var s1 := Step(s, TestStop(job));
    assert s1.admitted[n] == job;
    var s2 := Step(s1, Enqueue(n));
    var rest, jobs := [], [];
    RunNothing(s2);
    if !s.p.running {
      rest, jobs := ManagedIsRun(s2);
    }
    RunCons(s1, Enqueue(n), rest, Run(s2, rest));
    RunCons(s, TestStop(job), [Enqueue(n)] + rest, Run(s2, rest));
    es := [TestStop(job)] + ([Enqueue(n)] + rest);
  }
}

/** The half-duplex processor as a transition system down to the bytes: batches of queries are written, then
    all their replies read and parsed, before the next batch; any number of threads push meanwhile. */
module SerialSystem {
  import opened ByteStrings
  import opened Resp
  import opened ParserSpec
  import opened ParserMachine
  import opened ParserFlow
  import opened QueryRoundTrip
  import opened Server

  /** What a push hands over: its callback, the parts of its query and the pieces of the query's multibuffer. */
  datatype Job = Job(cb: nat, parts: seq<Bytes>, pieces: seq<Bytes>)

  predicate Built(job: Job) {
    Sendable(job.parts) && Concat(job.pieces) == QueryBytes(job.parts)
  }

  datatype Handed = Handed(job: Job, resp: RespData)

  const MAX_QUERY_IN_MULTIBUFF: nat := 10
  const MAX_BUFF_SIZE: nat := 100

  /** The processor's fields, the bytes received since the end of the last reply delivered, and the
      callbacks called so far with codes 0, 110 and 100. */
  datatype Proc = Proc(queue: seq<Job>, sended: seq<Job>, parser: PState, held: nat,
                       running: bool, stop: bool, err: bool,
                       delivered: seq<Handed>, aborted: seq<Job>, rejected: seq<Job>)

  const NEW_PROC := Proc([], [], FRESH, 0, false, false, false, [], [], [])

  /** Where the holder of the running flag stands; taken counts the batch. */
  datatype Phase =
    | Resting
    | Checking
    | Batching(taken: nat)
    | Writing
    | Reading
    | Parsing
    | Finished
    | Closed
    | SyncFault
    | ParseFault

  function Enqueued(p: Proc, job: Job): Proc {
    p.(queue := p.queue + [job])
  }

  /** One turn of the batching loop with a query to take. */
  function TakenOne(p: Proc): Proc
    requires p.queue != []
  {
    p.(queue := p.queue[1..], sended := p.sended + [p.queue[0]])
  }

  function Arrived(p: Proc, chunk: Bytes): Proc {
    p.(parser := Accept(p.parser, chunk), held := p.held + |chunk|)
  }

  /** The parser has been called. */
  function Consumed(p: Proc, r: Parsed, s: char): Proc {
    p.(parser := r.state, held := StillHeld(p.parser, p.held, s))
  }

  /** A complete reply goes to the oldest query sent. */
  function Delivered(p: Proc, resp: RespData): Proc
    requires p.sended != []
  {
    p.(sended := p.sended[1..], delivered := p.delivered + [Handed(p.sended[0], resp)])
  }

  function Failed(p: Proc): Proc {
    if p.err then p
    else p.(err := true, stop := true, aborted := p.aborted + p.sended + p.queue, sended := [], queue := [])
  }

  datatype Turned = Turned(p: Proc, phase: Phase)

  /** The parser wants more bytes: read on while replies are due, otherwise end, or lay down the flag. */
  function Paused(p: Proc): Turned {
    if p.sended != [] then Turned(p, Reading)
    else if p.stop && p.queue == [] then Turned(p, Finished)
    else Turned(p.(running := false), Resting)
  }

  /** One turn of the reading handler's loop. */
  function Turn(p: Proc, s: char): Turned {
    var r := ParseOne(p.parser, s);
    var p' := Consumed(p, r, s);
    match r.st
    case Thrown => Turned(p', ParseFault)
    case More => Paused(p')
    case Done => if p.sended == [] then Turned(p', SyncFault) else Turned(Delivered(p', r.state.resp), Parsing)
  }

  /** admitted: jobs whose push has passed the stop test and not yet entered the queue. accepted: all jobs
      in the order they entered; the first taken of them have gone into batches. writing, reading: operations
      outstanding on the socket. unsent: the rest of the batch under way; sent: the bytes the socket took.
      wire: reply bytes not yet read. parsed: replies the parser has completed. cut: the parser has once been left
      waiting inside an array nested in a reply. */
  datatype Sys = Sys(p: Proc, phase: Phase, admitted: seq<Job>, accepted: seq<Job>, taken: nat,
                     writing: nat, reading: nat, unsent: Bytes, sent: Bytes,
                     exchanges: seq<Exchange>, wire: Bytes, parsed: nat, cut: bool)

  const INITIAL := Sys(NEW_PROC, Resting, [], [], 0, 0, 0, [], [], [], [], 0, false)

  datatype Event =
    | TestStop(job: Job)
    | Enqueue(i: nat)
    | Acquire
    | Check
    | Batch
    | SocketTakes(n: nat)
    | WriteDone
    | Serve(parts: seq<Bytes>, reply: Reply)
    | Read(chunk: Bytes)
    | Parse(stale: char)
    | Error
    | Stop

  predicate Enabled(s: Sys, e: Event) {
    match e
    case TestStop(job) => Built(job)
    case Enqueue(i) => i < |s.admitted| && |s.p.queue| <= MAX_BUFF_SIZE
    case Acquire => !s.p.running
    case Check => s.phase.Checking?
    case Batch => s.phase.Batching?
    case SocketTakes(n) => s.writing > 0 && !s.p.err && n <= |s.unsent|
    case WriteDone => s.phase.Writing? && s.unsent == []
    case Serve(parts, reply) => CanServe(s.exchanges, s.sent, parts, reply)
    case Read(chunk) => s.phase.Reading? && chunk != [] && chunk <= s.wire
    case Parse(_) => s.phase.Parsing?
    case Error => (s.phase.Writing? || s.phase.Reading?) && !s.p.err
    case Stop => true
  }

  /** One turn of the batching loop: the write starts when the queue is empty or eleven are taken. */
  function BatchStep(s: Sys, n: nat): Sys {
    if s.p.queue == [] then s.(phase := Writing, writing := s.writing + 1)
    else
      var s' := s.(p := TakenOne(s.p), taken := s.taken + 1, unsent := s.unsent + Concat(s.p.queue[0].pieces));
      if n >= MAX_QUERY_IN_MULTIBUFF then s'.(phase := Writing, writing := s.writing + 1)
      else s'.(phase := Batching(n + 1))
  }

  /** The replies still to come out of the parser. */
  function Pending(s: Sys): seq<Reply> {
    if s.parsed <= |s.exchanges| then Replies(s.exchanges)[s.parsed..] else []
  }

  function ParseStep(s: Sys, stale: char): Sys {
    var t := Turn(s.p, stale);
    s.(p := t.p, phase := t.phase, reading := if t.phase == Reading then s.reading + 1 else s.reading,
    parsed := if ParseOne(s.p.parser, stale).st == Done then s.parsed + 1 else s.parsed,
    cut := s.cut || CutInside(Pending(s), s.wire, stale))
  }

  function Less(n: nat): nat {
    if n > 0 then n - 1 else 0
  }

  function Step(s: Sys, e: Event): Sys
    requires Enabled(s, e)
  {
    match e
    case TestStop(job) =>
      if s.p.stop then s.(p := s.p.(rejected := s.p.rejected + [job])) else s.(admitted := s.admitted + [job])
    case Enqueue(i) =>
      var job := s.admitted[i];
      s.(p := Enqueued(s.p, job), admitted := s.admitted[..i] + s.admitted[i + 1..], accepted := s.accepted + [job])
    case Acquire => s.(p := s.p.(running := true), phase := Checking)
    case Check =>
      if s.p.queue == [] then s.(p := s.p.(running := false), phase := Resting) else s.(phase := Batching(0))
    case Batch => BatchStep(s, s.phase.taken)
    case SocketTakes(n) => s.(sent := s.sent + s.unsent[..n], unsent := s.unsent[n..])
    case WriteDone => s.(phase := Reading, writing := Less(s.writing), reading := s.reading + 1)
    case Serve(parts, reply) => s.(exchanges := s.exchanges + [Exchange(parts, reply)], wire := s.wire + Enc(reply))
    case Read(chunk) =>
      s.(p := Arrived(s.p, chunk), phase := Parsing, reading := Less(s.reading),
      wire := s.wire[|chunk|..])
    case Parse(stale) => ParseStep(s, stale)
    case Error => s.(p := Failed(s.p), phase := Closed)
    case Stop => s.(p := s.p.(stop := true))
  }

  predicate Possible(s: Sys, es: seq<Event>)
    decreases |es|
  {
    es == [] || (Enabled(s, es[0]) && Possible(Step(s, es[0]), es[1..]))
  }

  function Run(s: Sys, es: seq<Event>): Sys
    requires Possible(s, es)
    decreases |es|
  {
    if es == [] then s else Run(Step(s, es[0]), es[1..])
  }

  // ---- the invariant

  function Jobs(xs: seq<Handed>): (js: seq<Job>)
    ensures |js| == |xs| && forall i :: 0 <= i < |xs| ==> js[i] == xs[i].job
  {
    if xs == [] then [] else [xs[0].job] + Jobs(xs[1..])
  }

  function PartsOf(js: seq<Job>): (pss: seq<seq<Bytes>>)
    ensures |pss| == |js| && forall i :: 0 <= i < |js| ==> pss[i] == js[i].parts
  {
    if js == [] then [] else [js[0].parts] + PartsOf(js[1..])
  }

  /** Every job that entered the queue is in one place, in order; before an error none is aborted, after it
      none is waiting for a reply. */
  predicate Ordered(s: Sys) {
    s.accepted == Jobs(s.p.delivered) + s.p.aborted + s.p.sended + s.p.queue && s.taken <= |s.accepted| &&
    (!s.p.err ==> s.p.aborted == [] && s.taken == |s.p.delivered| + |s.p.sended|) &&
    (s.p.err ==> s.p.sended == [] && s.p.stop)
  }

  /** The queries that went into batches. */
  function Promised(s: Sys): Bytes
    requires s.taken <= |s.accepted|
  {
    Queries(PartsOf(s.accepted[..s.taken]))
  }

  /** They are on their way, in order and whole, and no other. */
  predicate BytesKept(s: Sys) {
    s.taken <= |s.accepted| && s.sent <= Promised(s) && (!s.p.err ==> s.sent + s.unsent == Promised(s))
  }

  /** The server has read those queries, in order. */
  predicate ServedInOrder(s: Sys) {
    s.taken <= |s.accepted| && Reads(s.exchanges, PartsOf(s.accepted[..s.taken])) &&
    (forall j :: j in s.accepted ==> Built(j)) && (forall j :: j in s.admitted ==> Built(j)) &&
    (forall i :: 0 <= i < |s.exchanges| ==> Wf(s.exchanges[i].reply)) &&
    |Requests(s.exchanges)| <= |s.sent|
  }

  ghost predicate ParserKept(phase: Phase, p: PState, rs: seq<Reply>, wire: Bytes) {
    (phase != ParseFault ==> Sound(p, rs, wire)) && (phase != ParseFault && phase != Parsing ==> Hungry(p, rs, wire))
  }

  /** The replies come out of the parser one for one. */
  ghost predicate RepliesRight(s: Sys) {
    |s.p.delivered| <= s.parsed <= |s.exchanges| && (!s.p.err ==> s.parsed == |s.p.delivered|) &&
    ParserKept(s.phase, s.p.parser, Pending(s), s.wire) && s.phase != SyncFault &&
    HeldRight(s.p.held, Pending(s), s.wire) &&
    (forall i :: 0 <= i < |s.p.delivered| ==> s.p.delivered[i].resp == Val(s.exchanges[i].reply))
  }

  /** No array was answered with an array in it. */
  predicate FlatAnswers(s: Sys) {
    forall i :: 0 <= i < |s.exchanges| ==> Flat(s.exchanges[i].reply)
  }

  ghost predicate RepliesKept(s: Sys) {
    (!s.cut ==> RepliesRight(s)) && (FlatAnswers(s) ==> !s.cut)
  }

  /** One holder of the flag, one operation on the socket, at most eleven queries in a batch. */
  predicate HalfDuplex(s: Sys) {
    (s.p.running <==> s.phase != Resting) && (s.p.err <==> s.phase == Closed) &&
    (!s.p.err ==>
       s.writing == (if s.phase == Writing then 1 else 0) && s.reading == (if s.phase == Reading then 1 else 0) &&
       (s.phase.Resting? || s.phase.Checking? || s.phase.Finished? ==> s.p.sended == []) &&
       (s.phase.Batching? ==> |s.p.sended| == s.phase.taken <= MAX_QUERY_IN_MULTIBUFF) &&
       (!s.phase.Batching? && !s.phase.Writing? ==> s.unsent == []) &&
       |s.p.sended| <= MAX_QUERY_IN_MULTIBUFF + 1)
  }

  ghost predicate Inv(s: Sys) {
    Ordered(s) && BytesKept(s) && ServedInOrder(s) && RepliesKept(s) && HalfDuplex(s)
  }

  // ---- turns

  /** A turn that delivers. */
  lemma TurnDelivers(p: Proc, s: char, r: Parsed)
    requires r == ParseOne(p.parser, s) && r.st == Done && p.sended != []
    ensures Turn(p, s) == Turned(Delivered(Consumed(p, r, s), r.state.resp), Parsing)
  {
    hide ParseOne;
  }

  /** Any other turn calls nobody. */
  lemma TurnIdles(p: Proc, s: char, r: Parsed)
    requires r == ParseOne(p.parser, s) && (r.st != Done || p.sended == [])
    ensures r.st == Thrown ==> Turn(p, s) == Turned(Consumed(p, r, s), ParseFault)
    ensures r.st == Done ==> Turn(p, s) == Turned(Consumed(p, r, s), SyncFault)
    ensures r.st == More ==> Turn(p, s) == Paused(Consumed(p, r, s))
  {
    hide ParseOne;
  }

  // ---- order

  lemma JobsSnoc(xs: seq<Handed>, a: Handed)
    ensures Jobs(xs + [a]) == Jobs(xs) + [a.job]
  {
  }

  lemma HeadMoves(d: seq<Job>, sended: seq<Job>, queue: seq<Job>)
    requires sended != []
    ensures (d + [sended[0]]) + [] + sended[1..] + queue == d + [] + sended + queue
  {
    assert sended == [sended[0]] + sended[1..];
  }

  lemma OrderedParse(s: Sys, e: Event)
    requires Ordered(s) && HalfDuplex(s) && Enabled(s, e) && e.Parse?
    ensures Ordered(Step(s, e))
  {
    hide Jobs, ParseOne, Turn;
    var p, r := s.p, ParseOne(s.p.parser, e.stale);
    if r.st == Done && p.sended != [] {
      TurnDelivers(p, e.stale, r);
      JobsSnoc(p.delivered, Handed(p.sended[0], r.state.resp));
      HeadMoves(Jobs(p.delivered), p.sended, p.queue);
    } else {
      TurnIdles(p, e.stale, r);
    }
  }

  lemma OrderedBatch(s: Sys, e: Event)
    requires Ordered(s) && HalfDuplex(s) && Enabled(s, e) && e.Batch?
    ensures Ordered(Step(s, e))
  {
    hide Jobs;
    var p, d := s.p, Jobs(s.p.delivered) + s.p.aborted;
    if p.queue != [] {
      NextMoves(d, p.sended, p.queue);
    }
  }

  lemma NextMoves(d: seq<Job>, sended: seq<Job>, queue: seq<Job>)
    requires queue != []
    ensures d + (sended + [queue[0]]) + queue[1..] == d + sended + queue
  {
    assert queue == [queue[0]] + queue[1..];
  }

  lemma {:induction false} OrderedStep(s: Sys, e: Event)
    requires Ordered(s) && HalfDuplex(s) && Enabled(s, e)
    ensures Ordered(Step(s, e))
  {
    hide Jobs, ParseStep, BatchStep, Built, CanServe, Accept;
    var p, d := s.p, Jobs(s.p.delivered);
    if e.Enqueue? {
      assert d + p.aborted + p.sended + (p.queue + [s.admitted[e.i]]) == s.accepted + [s.admitted[e.i]];
    } else if e.Batch? {
      OrderedBatch(s, e);
    } else if e.Parse? {
      OrderedParse(s, e);
    } else if e.Error? {
      assert d + (p.aborted + p.sended + p.queue) + [] + [] == s.accepted;
    }
  }

  // ---- requests

  lemma TakenMore(s: Sys)
    requires s.taken < |s.accepted|
    ensures Promised(s.(taken := s.taken + 1)) == Promised(s) + QueryBytes(s.accepted[s.taken].parts)
  {
    hide QueryBytes, Queries, PartsOf;
    var js, j := s.accepted[..s.taken], s.accepted[s.taken];
    assert s.accepted[..s.taken + 1] == js + [j];
    assert PartsOf(js + [j]) == PartsOf(js) + [j.parts];
    QueriesSnoc(PartsOf(js), j.parts);
  }

  /** The head of the queue is the next job to be taken. */
  lemma NextTaken(s: Sys)
    requires Ordered(s) && !s.p.err && s.p.queue != []
    ensures s.taken < |s.accepted| && s.accepted[s.taken] == s.p.queue[0]
  {
    hide Jobs;
    var front := Jobs(s.p.delivered) + s.p.aborted + s.p.sended;
    assert s.accepted == front + s.p.queue && |front| == s.taken;
  }

  lemma SamePromised(s: Sys, s': Sys)
    requires s.taken == s'.taken <= |s.accepted| && s.accepted <= s'.accepted
    ensures Promised(s') == Promised(s) && s'.accepted[..s.taken] == s.accepted[..s.taken]
  {
    assert s'.accepted[..s.taken] == s.accepted[..s.taken];
  }

  /** The next job's bytes join those of the batch. */
  lemma BytesJoin(s: Sys, s': Sys)
    requires Ordered(s) && BytesKept(s) && ServedInOrder(s) && !s.p.err && s.p.queue != []
    requires s'.accepted == s.accepted && s'.taken == s.taken + 1 && s'.p.err == s.p.err && s'.sent == s.sent
    requires s'.unsent == s.unsent + Concat(s.p.queue[0].pieces)
    ensures BytesKept(s')
  {
    hide Ordered, QueryBytes, Queries, PartsOf, Requests, Sendable, Concat, Promised, Wf, Reads;
    NextTaken(s);
    TakenMore(s);
    SamePromised(s.(taken := s.taken + 1), s');
    var job := s.p.queue[0];
    assert job in s.accepted && Built(job);
    var a, b, c := s.sent, s.unsent, Concat(job.pieces);
    assert a + (b + c) == (a + b) + c;
    PrefixOfConcat(a, b + c, Promised(s'));
  }

  lemma BytesBatch(s: Sys, e: Event)
    requires Ordered(s) && BytesKept(s) && ServedInOrder(s) && HalfDuplex(s) && Enabled(s, e) && e.Batch?
    ensures BytesKept(Step(s, e))
  {
    hide Ordered, ServedInOrder, Concat, Promised;
    if s.p.queue == [] {
      SamePromised(s, Step(s, e));
    } else {
      BytesJoin(s, Step(s, e));
    }
  }

  lemma BytesTaken(s: Sys, e: Event)
    requires BytesKept(s) && Enabled(s, e) && e.SocketTakes?
    ensures BytesKept(Step(s, e))
  {
    hide Queries, PartsOf, Promised;
    var u := s.unsent;
    SamePromised(s, Step(s, e));
    assert u == u[..e.n] + u[e.n..];
    assert (s.sent + u[..e.n]) + u[e.n..] == s.sent + u;
    PrefixOfConcat(s.sent + u[..e.n], u[e.n..], Promised(s));
  }

  lemma {:induction false} BytesStep(s: Sys, e: Event)
    requires Ordered(s) && BytesKept(s) && ServedInOrder(s) && HalfDuplex(s) && Enabled(s, e)
    ensures BytesKept(Step(s, e))
  {
    hide Ordered, Promised, ParseStep, BatchStep, CanServe, Accept, Built, ServedInOrder, HalfDuplex;
    if e.Batch? {
      BytesBatch(s, e);
    } else if e.SocketTakes? {
      BytesTaken(s, e);
    } else {
      if e.Parse? {
        ParseKeeps(s, e.stale);
      }
      SamePromised(s, Step(s, e));
    }
  }

  /** Parsing leaves the writing side alone. */
  lemma ParseKeeps(s: Sys, stale: char)
    ensures var s' := ParseStep(s, stale);
            s'.accepted == s.accepted && s'.admitted == s.admitted && s'.taken == s.taken && s'.sent == s.sent
            && s'.unsent == s.unsent && s'.exchanges == s.exchanges && s'.wire == s.wire && s'.writing == s.writing
            && s'.p.err == s.p.err && s'.p.stop == s.p.stop && s'.p.aborted == s.p.aborted && s'.p.queue == s.p.queue
  {
    hide ParseOne;
  }

  lemma BatchKeeps(s: Sys, n: nat)
    ensures var s' := BatchStep(s, n);
            s'.accepted == s.accepted && s'.admitted == s.admitted && s.taken <= s'.taken <= s.taken + 1
            && (s'.taken > s.taken ==> s.p.queue != []) && s'.sent == s.sent
            && s'.exchanges == s.exchanges && s'.wire == s.wire && s'.p.err == s.p.err
            && s'.p.delivered == s.p.delivered && s'.p.parser == s.p.parser && s'.parsed == s.parsed
            && s'.p.held == s.p.held
            && (s'.phase.Batching? || s'.phase.Writing?)
  {
  }

  lemma ServedNext(s: Sys, e: Event)
    requires BytesKept(s) && ServedInOrder(s) && Enabled(s, e) && e.Serve?
    ensures Reads(s.exchanges + [Exchange(e.parts, e.reply)], PartsOf(s.accepted[..s.taken]))
    ensures |Requests(s.exchanges + [Exchange(e.parts, e.reply)])| <= |s.sent|
  {
    hide QueryBytes, Queries, Requests, Sendable, Wf, CanServe, Reads;
    var pss := PartsOf(s.accepted[..s.taken]);
    forall ps | ps in pss
      ensures Sendable(ps)
    {
      var i :| 0 <= i < |pss| && pss[i] == ps;
      assert s.accepted[i] in s.accepted && Built(s.accepted[i]);
    }
    NextRequest(s.exchanges, pss, s.sent, e.parts, e.reply);
    RequestRead(s.exchanges, s.sent, e.parts, e.reply);
  }

  /** More jobs taken or accepted, the server's reading stands. */
  lemma ReadsMore(s: Sys, s': Sys)
    requires s.taken <= s'.taken <= |s'.accepted| && s.taken <= |s.accepted| && s.accepted <= s'.accepted
    requires Reads(s.exchanges, PartsOf(s.accepted[..s.taken]))
    ensures Reads(s.exchanges, PartsOf(s'.accepted[..s'.taken]))
  {
    hide PartsOf;
  }

  lemma ServedOther(s: Sys, e: Event)
    requires Ordered(s) && HalfDuplex(s) && ServedInOrder(s) && Enabled(s, e) && !e.Serve? && !e.Enqueue? && !e.TestStop?
    ensures ServedInOrder(Step(s, e))
  {
    hide Jobs, PartsOf, Requests, Built, Wf, ParseStep, BatchStep, Accept, Reads, CanServe;
    var s' := Step(s, e);
    if e.Batch? {
      BatchKeeps(s, s.phase.taken);
      if s.p.queue != [] {
        NextTaken(s);
      }
    } else if e.Parse? {
      ParseKeeps(s, e.stale);
    }
    ReadsMore(s, s');
  }

  lemma ServedPush(s: Sys, e: Event)
    requires ServedInOrder(s) && Enabled(s, e) && (e.Enqueue? || e.TestStop?)
    ensures ServedInOrder(Step(s, e))
  {
    hide PartsOf, Requests, Built, Wf, Reads;
    var s' := Step(s, e);
    ReadsMore(s, s');
    if e.Enqueue? {
      var job := s.admitted[e.i];
      assert job in s.admitted;
      assert forall j :: j in s'.admitted ==> j in s.admitted;
      assert forall j :: j in s'.accepted ==> j in s.accepted || j == job;
    } else {
      assert forall j :: j in s'.admitted ==> j in s.admitted || j == e.job;
    }
  }

  lemma {:induction false} ServedStep(s: Sys, e: Event)
    requires Ordered(s) && HalfDuplex(s) && BytesKept(s) && ServedInOrder(s) && Enabled(s, e)
    ensures ServedInOrder(Step(s, e))
  {
    hide Ordered, HalfDuplex, BytesKept, PartsOf, Requests, Reads, Built, Wf;
    if e.Serve? {
      ServedNext(s, e);
      CanServeReply(s, e);
    } else if e.Enqueue? || e.TestStop? {
      ServedPush(s, e);
    } else {
      ServedOther(s, e);
    }
  }

  lemma CanServeReply(s: Sys, e: Event)
    requires Enabled(s, e) && e.Serve?
    ensures Wf(e.reply)
  {
    hide Wf, Sendable, Requests, QueryBytes;
  }

  // ---- replies

  lemma {:induction false} ParserServed(phase: Phase, p: PState, rs: seq<Reply>, wire: Bytes, v: Reply)
    requires ParserKept(phase, p, rs, wire)
    ensures ParserKept(phase, p, rs + [v], wire + Enc(v))
  {
    hide Sound, Hungry, Enc;
    if phase != ParseFault {
      ServeSound(p, rs, wire, v);
      if phase != Parsing {
        ServeHungry(p, rs, wire, v);
      }
    }
  }

  lemma {:induction false} RepliesServed(s: Sys, e: Event)
    requires RepliesRight(s) && Enabled(s, e) && e.Serve?
    ensures RepliesRight(Step(s, e))
  {
    hide Enc, Val, CanServe, ParserKept, Replies, HeldRight;
    RepliesSnoc(s.exchanges, Exchange(e.parts, e.reply), s.parsed);
    HeldServed(s.p.held, Pending(s), s.wire, e.reply);
    ParserServed(s.phase, s.p.parser, Pending(s), s.wire, e.reply);
  }

  lemma {:induction false} RepliesRead(s: Sys, e: Event)
    requires RepliesRight(s) && Enabled(s, e) && e.Read?
    ensures RepliesRight(Step(s, e))
  {
    hide Accept, Replies, Sound, Hungry, Val;
    assert e.chunk + s.wire[|e.chunk|..] == s.wire;
    AcceptSound(s.p.parser, Pending(s), s.wire, e.chunk, s.wire[|e.chunk|..]);
  }

  /** While a reply is to come, a query sent is waiting for it. */
  lemma QueryWaiting(s: Sys)
    requires Ordered(s) && ServedInOrder(s) && !s.p.err && s.parsed == |s.p.delivered| && s.parsed < |s.exchanges|
    ensures s.p.sended != []
  {
    hide Jobs, Requests, Built, Wf;
  }

  lemma {:induction false} RepliesParsed(s: Sys, e: Event)
    requires Ordered(s) && ServedInOrder(s) && RepliesRight(s) && HalfDuplex(s) && Enabled(s, e) && e.Parse?
    requires !CutInside(Pending(s), s.wire, e.stale)
    ensures RepliesRight(Step(s, e))
  {
    hide Ordered, Requests, Reads, Built, Wf, Sound, Hungry, ParseOne, Val, Turn, Step, HalfDuplex, CutInside, HeldRight,
      StillHeld;
    var p, rs := s.p, Pending(s);
    assert rs == Replies(s.exchanges)[s.parsed..];
    PendingReplies(s.exchanges, s.parsed);
    ParseSound(p.parser, rs, s.wire, e.stale);
    var r := ParseOne(p.parser, e.stale);
    HeldParsed(p.parser, p.held, rs, s.wire, e.stale);
    if r.st == Done {
      assert rs[1..] == Replies(s.exchanges)[s.parsed + 1..];
      assert rs[0] == s.exchanges[s.parsed].reply;
      ReplyDelivered(s, e, r);
    } else {
      NothingDelivered(s, e, r);
    }
  }

  lemma {:induction false} NothingDelivered(s: Sys, e: Event, r: Parsed)
    requires RepliesRight(s) && HalfDuplex(s) && Enabled(s, e) && e.Parse?
    requires r == ParseOne(s.p.parser, e.stale) && r.st != Done
    requires r.st == More ==> Hungry(r.state, Pending(s), s.wire)
    requires HeldRight(StillHeld(s.p.parser, s.p.held, e.stale), Pending(s), s.wire)
    ensures RepliesRight(Step(s, e))
  {
    hide Replies, Sound, Hungry, ParseOne, Val, Turn, CutInside, HeldRight, StillHeld;
    TurnIdles(s.p, e.stale, r);
    if r.st == More {
      HungrySound(r.state, Pending(s), s.wire);
    }
  }

  lemma {:induction false} ReplyDelivered(s: Sys, e: Event, r: Parsed)
    requires Ordered(s) && ServedInOrder(s) && RepliesRight(s) && HalfDuplex(s) && Enabled(s, e) && e.Parse?
    requires r == ParseOne(s.p.parser, e.stale) && r.st == Done && s.parsed < |s.exchanges|
    requires r.state.resp == Val(s.exchanges[s.parsed].reply)
    requires Sound(r.state, Replies(s.exchanges)[s.parsed + 1..], s.wire)
    requires HeldRight(StillHeld(s.p.parser, s.p.held, e.stale), Replies(s.exchanges)[s.parsed + 1..], s.wire)
    ensures RepliesRight(Step(s, e))
  {
    hide Ordered, ServedInOrder, Replies, Sound, Hungry, ParseOne, Val, Turn, HeldRight, StillHeld;
    QueryWaiting(s);
    TurnDelivers(s.p, e.stale, r);
  }

  lemma RepliesOther(s: Sys, e: Event)
    requires RepliesRight(s) && HalfDuplex(s) && Enabled(s, e) && !e.Serve? && !e.Read? && !e.Parse?
    ensures RepliesRight(Step(s, e))
  {
    hide Replies, Sound, Hungry, Val, Built, BatchStep;
    if e.Batch? {
      BatchKeeps(s, s.phase.taken);
    }
  }

  /** What is cut stays cut; and it takes a nested reply. */
  lemma CutStep(s: Sys, e: Event)
    requires Enabled(s, e)
    ensures s.cut ==> Step(s, e).cut
    ensures e.Parse? && CutInside(Pending(s), s.wire, e.stale) ==> Step(s, e).cut
    ensures FlatAnswers(Step(s, e)) ==> FlatAnswers(s) && (!s.cut ==> !Step(s, e).cut)
  {
    hide Flat, Wf, CanServe, CutInside, Turn, ParseOne, Accept, Built, Concat;
    if e.Serve? {
      var xs := s.exchanges + [Exchange(e.parts, e.reply)];
      assert forall i :: 0 <= i < |s.exchanges| ==> xs[i] == s.exchanges[i];
    } else if e.Parse? && FlatAnswers(s) {
      assert s.parsed < |s.exchanges| ==> Pending(s)[0] == s.exchanges[s.parsed].reply;
      FlatUncut(Pending(s), s.wire, e.stale);
    }
  }

  lemma {:induction false} RepliesStep(s: Sys, e: Event)
    requires Inv(s) && Enabled(s, e)
    ensures RepliesKept(Step(s, e))
  {
    hide Ordered, BytesKept, ServedInOrder, RepliesRight, HalfDuplex, Enabled, Step;
    CutStep(s, e);
    if Step(s, e).cut {
    } else if e.Serve? {
      RepliesServed(s, e);
    } else if e.Read? {
      RepliesRead(s, e);
    } else if e.Parse? {
      RepliesParsed(s, e);
    } else {
      RepliesOther(s, e);
    }
  }

  // ---- half duplex

  lemma HalfDuplexBatch(s: Sys, e: Event)
    requires HalfDuplex(s) && Enabled(s, e) && e.Batch?
    ensures HalfDuplex(Step(s, e))
  {
    hide Concat;
  }

  lemma HalfDuplexParse(s: Sys, e: Event)
    requires HalfDuplex(s) && Enabled(s, e) && e.Parse?
    ensures HalfDuplex(Step(s, e))
  {
    hide ParseOne;
  }

  lemma HalfDuplexStep(s: Sys, e: Event)
    requires Inv(s) && Enabled(s, e)
    ensures HalfDuplex(Step(s, e))
  {
    hide Ordered, BytesKept, ServedInOrder, RepliesKept, Built, CanServe, Accept, BatchStep, ParseStep;
    if e.Batch? {
      HalfDuplexBatch(s, e);
    } else if e.Parse? {
      HalfDuplexParse(s, e);
    }
  }

  lemma {:induction false} InvStep(s: Sys, e: Event)
    requires Inv(s) && Enabled(s, e)
    ensures Inv(Step(s, e))
  {
    hide Ordered, BytesKept, ServedInOrder, RepliesKept, HalfDuplex, Enabled, Step;
    OrderedStep(s, e);
    BytesStep(s, e);
    ServedStep(s, e);
    RepliesStep(s, e);
    HalfDuplexStep(s, e);
  }

  lemma InvInitial()
    ensures Inv(INITIAL)
  {
    FreshHungry();
    HungrySound(FRESH, [], []);
    assert Replies([])[0..] == [];
  }

  lemma {:induction false} InvRun(s: Sys, es: seq<Event>)
    requires Inv(s) && Possible(s, es)
    ensures Inv(Run(s, es))
    decreases |es|
  {
    hide Inv, Enabled, Step;
    if es != [] {
      InvStep(s, es[0]);
      InvRun(Step(s, es[0]), es[1..]);
    }
  }
}

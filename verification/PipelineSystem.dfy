/** The pipelining processor as a transition system: the client's steps as functions on its state, and
    around it the socket, an abstract server and every interleaving of their events. */
module PipelineSystem {
  import opened ByteStrings
  import opened Resp
  import opened ParserSpec
  import opened ParserMachine
  import opened ParserFlow
  import opened OutputBuffer
  import opened QueryRoundTrip
  import opened Server

  // ---- the client

  type Callback = nat

  /** The reader waits for bytes, works on received ones, has reported its work done, or has thrown:
      over a reply without a callback, or in the parser. */
  datatype Reader = Reading | Parsing | Finished | SyncFault | ParseFault

  datatype Delivery = Delivery(cb: Callback, resp: RespData)

  /** held: the bytes received since the end of the last reply delivered. delivered, aborted, rejected: the
      callbacks called so far with codes 0, 110 and 100. */
  datatype Client = Client(cbq: seq<Callback>, out: OutState, parser: PState, held: nat, running: bool, stop: bool,
                           err: bool, reader: Reader,
                           delivered: seq<Delivery>, aborted: seq<Callback>, rejected: seq<Callback>)

  const NEW_CLIENT := Client([], EMPTY, FRESH, 0, false, false, false, Reading, [], [], [])

  function Queued(c: Client, cb: Callback): Client {
    c.(cbq := c.cbq + [cb])
  }

  function Written(c: Client, query: Bytes): Client {
    c.(out := Added(c.out, query))
  }

  function Refused(c: Client, cb: Callback): Client {
    c.(rejected := c.rejected + [cb])
  }

  /** The writer flag is won. */
  function Acquired(c: Client): Client {
    c.(running := true)
  }

  /** The winner looks for something to send: nothing, or a frozen block to offer. */
  function Checked(c: Client): Client {
    if IsDrained(c.out) then c.(running := false) else c.(out := Frozen(c.out))
  }

  function Confirmed(c: Client, n: nat): Client {
    c.(out := Reported(c.out, n), running := false)
  }

  function Received(c: Client, chunk: Bytes): Client {
    c.(parser := Accept(c.parser, chunk), held := c.held + |chunk|, reader := Parsing)
  }

  /** One turn of the reading handler's loop. */
  function Turn(c: Client, s: char): Client {
    var r := ParseOne(c.parser, s);
    var c' := c.(parser := r.state, held := StillHeld(c.parser, c.held, s));
    match r.st
    case Thrown => c'.(reader := ParseFault)
    case More => c'.(reader := Reading)
    case Done =>
      if c.cbq == [] then c'.(reader := if c.err then Finished else SyncFault)
      else
        c'.(delivered := c.delivered + [Delivery(c.cbq[0], r.state.resp)], cbq := c.cbq[1..],
        reader := if c.stop && |c.cbq| == 1 then Finished else Parsing)
  }

  /** The socket error handler. It acts once. */
  function Failed(c: Client): Client {
    if c.err then c
    else c.(err := true, stop := true, out := EMPTY, aborted := c.aborted + c.cbq, cbq := [])
  }

  // ---- the system

  /** A push: its callback and the parts of its query. */
  datatype Push = Push(cb: Callback, parts: seq<Bytes>)

  datatype Writer = Free | Checking | Writing | Sent(n: nat)

  /** The buffer's mutex: free, or held by a push that has passed the stop test and found room, or by one that
      has queued its callback and not yet added its bytes. */
  datatype Lock = Open | Tested(push: Push) | Midway

  /** pushed: the pushes accepted, in order. waiting: pushes that have passed the stop test and wait, without the
      mutex, for room. sent: the bytes the socket took. wire: reply bytes not yet read. parsed: replies the
      parser has completed. cut: the parser has once been left waiting inside an array nested in a reply. known,
      answered: the pushes accepted and the callbacks called with a reply when the socket error came. */
  datatype Sys = Sys(client: Client, writer: Writer, pushed: seq<Push>, waiting: seq<Push>, lock: Lock, sent: Bytes,
                     exchanges: seq<Exchange>, wire: Bytes, parsed: nat, cut: bool, known: nat, answered: nat)

  const INITIAL := Sys(NEW_CLIENT, Free, [], [], Open, [], [], [], 0, false, 0, 0)

  datatype Event =
    | PushTest(cb: Callback, parts: seq<Bytes>)
    | Wake(i: nat)
    | PushCallback
    | PushBytes
    | PushRefused(cb: Callback)
    | Acquire
    | Check
    | SocketTakes(n: nat)
    | Confirm
    | Serve(parts: seq<Bytes>, reply: Reply)
    | Read(chunk: Bytes)
    | Parse(stale: char)
    | SocketError
    | Stop

  /** The pushes whose bytes are in the buffer or beyond, or were when the socket error came. */
  function Complete(s: Sys): seq<Push> {
    if s.client.err then s.pushed[..if s.known <= |s.pushed| then s.known else |s.pushed|]
    else if s.lock.Midway? && s.pushed != [] then s.pushed[..|s.pushed| - 1]
    else s.pushed
  }

  /** The replies still to come out of the parser. */
  function Pending(s: Sys): seq<Reply> {
    if s.parsed <= |s.exchanges| then Replies(s.exchanges)[s.parsed..] else []
  }

  predicate Fits(c: Client, p: Push) {
    !Overflows(c.out, |QueryBytes(p.parts)|)
  }

  function PartsOf(ps: seq<Push>): (pss: seq<seq<Bytes>>)
    ensures |pss| == |ps| && forall i :: 0 <= i < |ps| ==> pss[i] == ps[i].parts
  {
    if ps == [] then [] else [ps[0].parts] + PartsOf(ps[1..])
  }

  /** The bytes of their queries. */
  function Promised(s: Sys): Bytes {
    Queries(PartsOf(Complete(s)))
  }

  /** When an event can happen. The server answers any complete request at the head of what it has
      received, with any reply. */
  predicate Enabled(s: Sys, e: Event) {
    var c := s.client;
    match e
    case PushTest(cb, parts) => !c.stop && s.lock.Open? && Sendable(parts)
    case Wake(i) => s.lock.Open? && i < |s.waiting| && Fits(c, s.waiting[i])
    case PushCallback => s.lock.Tested?
    case PushBytes => s.lock.Midway? && s.pushed != []
    case PushRefused(cb) => c.stop && s.lock.Open?
    case Acquire => !c.running
    case Check => s.writer == Checking
    case SocketTakes(n) => s.writer == Writing && !c.err && n <= |c.out.unsent|
    case Confirm => s.writer.Sent? && !c.err
    case Serve(parts, reply) => CanServe(s.exchanges, s.sent, parts, reply)
    case Read(chunk) => c.reader == Reading && chunk != [] && chunk <= s.wire
    case Parse(_) => c.reader == Parsing
    case SocketError => !c.err && s.lock.Open?
    case Stop => true
  }

  function Step(s: Sys, e: Event): Sys
    requires Enabled(s, e)
  {
    var c := s.client;
    match e
    case PushTest(cb, parts) =>
      var p := Push(cb, parts);
      if Fits(c, p) then s.(lock := Tested(p)) else s.(waiting := s.waiting + [p])
    case Wake(i) => s.(lock := Tested(s.waiting[i]), waiting := s.waiting[..i] + s.waiting[i + 1..])
    case PushCallback =>
      s.(client := Queued(c, s.lock.push.cb), pushed := s.pushed + [s.lock.push], lock := Midway)
    case PushBytes =>
      s.(client := Written(c, QueryBytes(s.pushed[|s.pushed| - 1].parts)), lock := Open)
    case PushRefused(cb) => s.(client := Refused(c, cb))
    case Acquire => s.(client := Acquired(c), writer := Checking)
    case Check => s.(client := Checked(c), writer := if IsDrained(c.out) then Free else Writing)
    case SocketTakes(n) => s.(sent := s.sent + c.out.unsent[..n], writer := Sent(n))
    case Confirm => s.(client := Confirmed(c, s.writer.n), writer := Free)
    case Serve(parts, reply) =>
      s.(exchanges := s.exchanges + [Exchange(parts, reply)], wire := s.wire + Enc(reply))
    case Read(chunk) => s.(client := Received(c, chunk), wire := s.wire[|chunk|..])
    case Parse(stale) =>
      s.(client := Turn(c, stale), parsed := if ParseOne(c.parser, stale).st == Done then s.parsed + 1 else s.parsed,
      cut := s.cut || CutInside(Pending(s), s.wire, stale))
    case SocketError => s.(client := Failed(c), known := |s.pushed|, answered := |c.delivered|)
    case Stop => s.(client := c.(stop := true))
  }

  /** A run: events, each possible where it happens. */
  predicate Possible(s: Sys, es: seq<Event>)
    decreases |es|
  {
    es == [] || (Enabled(s, es[0]) && Possible(Step(s, es[0]), es[1..]))
  }

  function Run(s: Sys, es: seq<Event>): Sys
    requires Possible(s, es)
    decreases |es|
  {
    if es == [] then s else Run(Step(s, es[0]), es[1..])
  }

  // ---- the invariant

  function PushedCallbacks(ps: seq<Push>): (cs: seq<Callback>)
    ensures |cs| == |ps| && forall i :: 0 <= i < |ps| ==> cs[i] == ps[i].cb
  {
    if ps == [] then [] else [ps[0].cb] + PushedCallbacks(ps[1..])
  }

  function DeliveredCallbacks(ds: seq<Delivery>): (cs: seq<Callback>)
    ensures |cs| == |ds| && forall i :: 0 <= i < |ds| ==> cs[i] == ds[i].cb
  {
    if ds == [] then [] else [ds[0].cb] + DeliveredCallbacks(ds[1..])
  }

  /** Every accepted callback is in exactly one place, and the places are in push order: before a socket error
      called with a reply or queued; after it, if accepted before it, called with a reply before it or with the
      error, and if accepted after it, called with a reply or queued. */
  predicate CallbacksKept(s: Sys) {
    var c := s.client;
    (c.err ==> c.stop) && s.known <= |s.pushed| && s.answered <= |c.delivered| &&
    if c.err then
      PushedCallbacks(s.pushed[..s.known]) == DeliveredCallbacks(c.delivered[..s.answered]) + c.aborted &&
      PushedCallbacks(s.pushed[s.known..]) == DeliveredCallbacks(c.delivered[s.answered..]) + c.cbq
    else c.aborted == [] && PushedCallbacks(s.pushed) == DeliveredCallbacks(c.delivered) + c.cbq
  }

  /** What the socket has not taken of the frozen block. */
  function Untaken(s: Sys): Bytes {
    var o := s.client.out;
    if s.writer.Sent? && s.writer.n <= |o.unsent| then o.unsent[s.writer.n..] else o.unsent
  }

  /** The queries of the complete pushes are on their way, in order and whole. */
  predicate BytesKept(s: Sys) {
    var c := s.client;
    Consistent(c.out) && (c.out.have ==> c.out.unsent != []) &&
    (s.lock.Midway? ==> s.pushed != []) && (c.running <==> s.writer != Free) &&
    (!c.err && s.writer == Writing ==> c.out.have) &&
    (!c.err && s.writer.Sent? ==> c.out.have && s.writer.n <= |c.out.unsent|) &&
    s.sent <= Promised(s) && (!c.err ==> s.sent + Untaken(s) + c.out.live == Promised(s))
  }

  /** The server has read the queries that were pushed, in order. */
  predicate ServedInOrder(s: Sys) {
    |s.exchanges| <= |Complete(s)| &&
    (forall i :: 0 <= i < |s.exchanges| ==> s.exchanges[i].parts == s.pushed[i].parts) &&
    (forall i :: 0 <= i < |s.pushed| ==> Sendable(s.pushed[i].parts)) &&
    (s.lock.Tested? ==> Sendable(s.lock.push.parts)) && (forall p :: p in s.waiting ==> Sendable(p.parts)) &&
    (forall i :: 0 <= i < |s.exchanges| ==> Wf(s.exchanges[i].reply)) &&
    |Requests(s.exchanges)| <= |s.sent|
  }

  ghost predicate ParserKept(reader: Reader, p: PState, rs: seq<Reply>, wire: Bytes) {
    (reader != ParseFault ==> Sound(p, rs, wire)) && (reader == Reading ==> Hungry(p, rs, wire))
  }

  /** The callbacks called with a reply before a socket error, or so far. */
  function Timely(s: Sys): nat {
    if s.client.err then s.answered else |s.client.delivered|
  }

  predicate IsReply(resp: RespData, xs: seq<Exchange>) {
    exists j :: 0 <= j < |xs| && resp == Val(xs[j].reply)
  }

  /** The replies come out of the parser one for one. */
  ghost predicate RepliesRight(s: Sys) {
    var c := s.client;
    Timely(s) <= |c.delivered| <= s.parsed <= |s.exchanges| && (!c.err ==> s.parsed == |c.delivered|) &&
    ParserKept(c.reader, c.parser, Pending(s), s.wire) && HeldRight(c.held, Pending(s), s.wire) &&
    (forall i :: 0 <= i < Timely(s) ==> c.delivered[i].resp == Val(s.exchanges[i].reply)) &&
    (forall i :: Timely(s) <= i < |c.delivered| ==> IsReply(c.delivered[i].resp, s.exchanges)) &&
    c.reader != SyncFault
  }

  /** No array was answered with an array in it. */
  predicate FlatAnswers(s: Sys) {
    forall i :: 0 <= i < |s.exchanges| ==> Flat(s.exchanges[i].reply)
  }

  ghost predicate RepliesKept(s: Sys) {
    (!s.cut ==> RepliesRight(s)) && (FlatAnswers(s) ==> !s.cut)
  }

  ghost predicate Inv(s: Sys) {
    CallbacksKept(s) && BytesKept(s) && ServedInOrder(s) && RepliesKept(s)
  }

  // ---- callbacks

  /** A turn that delivers: the first callback leaves the queue with the reply. */
  lemma TurnDelivers(c: Client, s: char, r: Parsed)
    requires r == ParseOne(c.parser, s) && r.st == Done && c.cbq != []
    ensures var c' := Turn(c, s);
            c'.delivered == c.delivered + [Delivery(c.cbq[0], r.state.resp)] && c'.cbq == c.cbq[1..]
            && c'.parser == r.state && c'.held == StillHeld(c.parser, c.held, s)
            && (c'.reader == Parsing || c'.reader == Finished)
  {
    hide ParseOne;
  }

  /** A turn without a reply, or without a callback for it, calls nobody. */
  lemma TurnIdles(c: Client, s: char, r: Parsed)
    requires r == ParseOne(c.parser, s) && (r.st != Done || c.cbq == [])
    ensures var c' := Turn(c, s);
            c'.delivered == c.delivered && c'.cbq == c.cbq && c'.parser == r.state
            && c'.held == StillHeld(c.parser, c.held, s)
            && c'.reader == match r.st
                            case Thrown => ParseFault
                            case More => Reading
                            case Done => if c.err then Finished else SyncFault
  {
    hide ParseOne;
  }

  /** The reading side leaves the writing side alone. */
  lemma TurnKeeps(c: Client, s: char)
    ensures var c' := Turn(c, s);
            c'.out == c.out && c'.running == c.running && c'.stop == c.stop && c'.err == c.err
            && c'.aborted == c.aborted && c'.rejected == c.rejected
  {
    hide ParseOne;
  }

  /** And the writing side the reading side; neither refuses anybody. */
  lemma WriterKeeps(c: Client, n: nat)
    ensures Checked(c).rejected == Confirmed(c, n).rejected == Failed(c).rejected == c.rejected
    ensures Checked(c).err == Confirmed(c, n).err == c.err
    ensures Checked(c).delivered == Confirmed(c, n).delivered == c.delivered
    ensures Checked(c).parser == Confirmed(c, n).parser == c.parser
    ensures Checked(c).reader == Confirmed(c, n).reader == c.reader
    ensures Checked(c).cbq == Confirmed(c, n).cbq == c.cbq
    ensures Checked(c).held == Confirmed(c, n).held == c.held
  {
  }

  lemma DeliveredSnoc(ds: seq<Delivery>, d: Delivery)
    ensures DeliveredCallbacks(ds + [d]) == DeliveredCallbacks(ds) + [d.cb]
  {
  }

  lemma CallbackDelivered(s: Sys, e: Event)
    requires CallbacksKept(s) && Enabled(s, e) && e.Parse?
    ensures CallbacksKept(Step(s, e))
  {
    hide ParseOne, PushedCallbacks, DeliveredCallbacks, Turn;
    var c, r := s.client, ParseOne(s.client.parser, e.stale);
    TurnKeeps(c, e.stale);
    if r.st == Done && c.cbq != [] {
      TurnDelivers(c, e.stale, r);
      var d := Delivery(c.cbq[0], r.state.resp);
      DeliveredLater(c.delivered, d, s.answered);
      HeadMoves(DeliveredCallbacks(c.delivered), c.cbq);
      HeadMoves(DeliveredCallbacks(c.delivered[s.answered..]), c.cbq);
    } else {
      TurnIdles(c, e.stale, r);
    }
  }

  lemma DeliveredLater(ds: seq<Delivery>, d: Delivery, k: nat)
    requires k <= |ds|
    ensures (ds + [d])[..k] == ds[..k]
    ensures DeliveredCallbacks(ds + [d]) == DeliveredCallbacks(ds) + [d.cb]
    ensures DeliveredCallbacks((ds + [d])[k..]) == DeliveredCallbacks(ds[k..]) + [d.cb]
  {
    hide DeliveredCallbacks;
    SnocSlices(ds, d, k);
    DeliveredSnoc(ds, d);
    DeliveredSnoc(ds[k..], d);
  }

  lemma HeadMoves(d: seq<Callback>, q: seq<Callback>)
    requires q != []
    ensures (d + [q[0]]) + q[1..] == d + q
  {
    assert q == [q[0]] + q[1..];
  }

  lemma CallbackQueued(s: Sys, e: Event)
    requires CallbacksKept(s) && Enabled(s, e) && e.PushCallback?
    ensures CallbacksKept(Step(s, e))
  {
    hide DeliveredCallbacks, PushedCallbacks;
    var c, p := s.client, s.lock.push;
    PushedLater(s.pushed, p, s.known);
    QueueGrows(DeliveredCallbacks(c.delivered), c.cbq, p.cb);
    QueueGrows(DeliveredCallbacks(c.delivered[s.answered..]), c.cbq, p.cb);
  }

  lemma QueueGrows(d: seq<Callback>, q: seq<Callback>, cb: Callback)
    ensures d + (q + [cb]) == d + q + [cb]
  {
  }

  lemma PushedLater(ps: seq<Push>, p: Push, k: nat)
    requires k <= |ps|
    ensures (ps + [p])[..k] == ps[..k]
    ensures PushedCallbacks(ps + [p]) == PushedCallbacks(ps) + [p.cb]
    ensures PushedCallbacks((ps + [p])[k..]) == PushedCallbacks(ps[k..]) + [p.cb]
  {
    hide PushedCallbacks;
    SnocSlices(ps, p, k);
    PushedSnoc(ps, p);
    PushedSnoc(ps[k..], p);
  }

  lemma SnocSlices<T>(xs: seq<T>, x: T, k: nat)
    requires k <= |xs|
    ensures (xs + [x])[..k] == xs[..k] && (xs + [x])[k..] == xs[k..] + [x]
  {
  }

  lemma PushedSnoc(ps: seq<Push>, p: Push)
    ensures PushedCallbacks(ps + [p]) == PushedCallbacks(ps) + [p.cb]
  {
  }

  lemma CallbacksAborted(s: Sys)
    requires CallbacksKept(s) && Enabled(s, SocketError)
    ensures CallbacksKept(Step(s, SocketError))
  {
    var c := s.client;
    assert s.pushed[..|s.pushed|] == s.pushed && s.pushed[|s.pushed|..] == [];
    assert c.delivered[..|c.delivered|] == c.delivered && c.delivered[|c.delivered|..] == [];
    assert c.aborted + c.cbq == c.cbq;
  }

  lemma {:induction false} CallbacksStep(s: Sys, e: Event)
    requires CallbacksKept(s) && Enabled(s, e)
    ensures CallbacksKept(Step(s, e))
  {
    hide ParseOne, QueryBytes, Requests, Accept, DeliveredCallbacks, PushedCallbacks, Sendable, Wf, Flat, Turn, Fits;
    if e.PushCallback? {
      CallbackQueued(s, e);
    } else if e.Parse? {
      CallbackDelivered(s, e);
    } else if e.SocketError? {
      CallbacksAborted(s);
    }
  }

  // ---- bytes

  lemma PartsSnoc(ps: seq<Push>, p: Push)
    ensures PartsOf(ps + [p]) == PartsOf(ps) + [p.parts]
  {
  }

  lemma BytesPushed(s: Sys, e: Event)
    requires CallbacksKept(s) && BytesKept(s) && Enabled(s, e) && (e.PushCallback? || e.PushBytes?)
    ensures BytesKept(Step(s, e))
  {
    hide QueryBytes, Queries, PartsOf, PushedCallbacks, DeliveredCallbacks, Promised;
    var s', o := Step(s, e), s.client.out;
    if e.PushCallback? || s.client.err {
      SameQueries(s, s');
    } else {
      var q := QueryBytes(s.pushed[|s.pushed| - 1].parts);
      PromisedMore(s, s');
      Longer(s.sent, Untaken(s), o.live, q, Promised(s));
    }
  }

  lemma SameQueries(s: Sys, s': Sys)
    requires s.known <= |s.pushed| && s'.known == s.known && s'.client.err == s.client.err
    requires if s.client.err then s.pushed <= s'.pushed
             else s'.lock.Midway? && !s.lock.Midway? && |s'.pushed| == |s.pushed| + 1 && s.pushed <= s'.pushed
    ensures Promised(s') == Promised(s)
  {
    hide Queries, PartsOf;
    assert Complete(s') == Complete(s);
  }

  lemma Longer(a: Bytes, b: Bytes, c: Bytes, q: Bytes, all: Bytes)
    requires a <= all && a + b + c == all
    ensures a <= all + q && a + b + (c + q) == all + q
  {
    PrefixOfConcat(all, q, all + q);
  }

  lemma PromisedMore(s: Sys, s': Sys)
    requires s.lock.Midway? && s.pushed != [] && s'.pushed == s.pushed && !s'.lock.Midway?
    requires !s.client.err && !s'.client.err
    ensures Promised(s') == Promised(s) + QueryBytes(s.pushed[|s.pushed| - 1].parts)
  {
    hide QueryBytes, Queries, PartsOf;
    var n := |s.pushed| - 1;
    assert s.pushed == s.pushed[..n] + [s.pushed[n]];
    PartsSnoc(s.pushed[..n], s.pushed[n]);
    QueriesSnoc(PartsOf(s.pushed[..n]), s.pushed[n].parts);
  }

  lemma BytesChecked(s: Sys, e: Event)
    requires BytesKept(s) && Enabled(s, e) && e.Check?
    ensures BytesKept(Step(s, e))
  {
    hide QueryBytes, Queries, Requests, Complete;
    var s', o := Step(s, e), s.client.out;
    SameComplete(s, s');
    if !IsDrained(o) {
      assert o.unsent == [] ==> s.sent + o.unsent + o.live == s.sent + o.live;
      assert !o.have ==> s.sent + o.live + [] == s.sent + o.unsent + o.live;
    }
  }

  lemma BytesTaken(s: Sys, e: Event)
    requires BytesKept(s) && Enabled(s, e) && e.SocketTakes?
    ensures BytesKept(Step(s, e))
  {
    hide QueryBytes, Queries, Requests, Complete;
    SameComplete(s, Step(s, e));
    TakeSome(s.sent, s.client.out.unsent, s.client.out.live, e.n, Promised(s));
  }

  lemma TakeSome(sent: Bytes, u: Bytes, live: Bytes, n: nat, all: Bytes)
    requires n <= |u| && sent + u + live == all
    ensures (sent + u[..n]) + u[n..] + live == all && sent + u[..n] <= all
  {
    assert u == u[..n] + u[n..];
    assert (sent + u[..n]) + u[n..] + live == (sent + u[..n]) + (u[n..] + live);
    PrefixOfConcat(sent + u[..n], u[n..] + live, all);
  }

  lemma BytesConfirmed(s: Sys, e: Event)
    requires BytesKept(s) && Enabled(s, e) && e.Confirm?
    ensures BytesKept(Step(s, e))
  {
    hide QueryBytes, Queries, Requests, Complete;
    SameComplete(s, Step(s, e));
  }

  lemma SameComplete(s: Sys, s': Sys)
    requires s'.pushed == s.pushed && s'.lock.Midway? == s.lock.Midway?
    requires s'.client.err == s.client.err && s'.known == s.known
    ensures Complete(s') == Complete(s)
  {
  }

  lemma {:induction false} BytesStep(s: Sys, e: Event)
    requires CallbacksKept(s) && BytesKept(s) && Enabled(s, e)
    ensures BytesKept(Step(s, e))
  {
    hide QueryBytes, Queries, Requests, Accept, Turn, ParseOne, Sendable, Wf, Flat, DeliveredCallbacks, PushedCallbacks;
    if e.PushCallback? || e.PushBytes? {
      BytesPushed(s, e);
    } else if e.Check? {
      BytesChecked(s, e);
    } else if e.SocketTakes? {
      BytesTaken(s, e);
    } else if e.Confirm? {
      BytesConfirmed(s, e);
    } else if e.SocketError? {
      assert s.pushed[..|s.pushed|] == s.pushed;
    } else {
      if e.Parse? {
        TurnKeeps(s.client, e.stale);
      }
      SameComplete(s, Step(s, e));
    }
  }

  // ---- requests

  /** The request the server reads next is the next query pushed. */
  lemma NextRequestPushed(s: Sys, e: Event)
    requires BytesKept(s) && ServedInOrder(s) && Enabled(s, e) && e.Serve?
    ensures |s.exchanges| < |Complete(s)| && e.parts == s.pushed[|s.exchanges|].parts
    ensures |Requests(s.exchanges + [Exchange(e.parts, e.reply)])| <= |s.sent|
  {
    hide QueryBytes, Queries, Requests, Sendable, Wf, Flat, CanServe;
    var pss, x := PartsOf(Complete(s)), Exchange(e.parts, e.reply);
    forall ps | ps in pss
      ensures Sendable(ps)
    {
      var i :| 0 <= i < |pss| && pss[i] == ps;
    }
    NextRequest(s.exchanges, pss, s.sent, e.parts, e.reply);
    assert (s.exchanges + [x])[|s.exchanges|] == x;
    RequestRead(s.exchanges, s.sent, e.parts, e.reply);
  }

  /** What is complete stays so. */
  lemma CompleteStays(s: Sys, e: Event)
    requires CallbacksKept(s) && BytesKept(s) && Enabled(s, e)
    ensures Complete(s) <= Complete(Step(s, e)) && s.pushed <= Step(s, e).pushed
  {
    hide QueryBytes, Requests, ParseOne, Accept, Sendable, Wf, Flat, Turn, Promised, PushedCallbacks, DeliveredCallbacks,
      Checked, Confirmed, Complete, Fits;
    if e.PushCallback? || e.PushBytes? || e.SocketError? {
      CompletePush(s, e);
    } else {
      if e.Parse? {
        TurnKeeps(s.client, e.stale);
      } else if e.Check? || e.Confirm? {
        WriterKeeps(s.client, if e.Confirm? then s.writer.n else 0);
      }
      SameComplete(s, Step(s, e));
    }
  }

  lemma CompletePush(s: Sys, e: Event)
    requires s.known <= |s.pushed| && Enabled(s, e) && (e.PushCallback? || e.PushBytes? || e.SocketError?)
    ensures Complete(s) <= Complete(Step(s, e)) && s.pushed <= Step(s, e).pushed
  {
    hide QueryBytes;
    if e.PushCallback? {
      SnocSlices(s.pushed, s.lock.push, s.known);
      SnocSlices(s.pushed, s.lock.push, |s.pushed|);
    }
    assert s.pushed[..|s.pushed|] == s.pushed;
  }

  lemma ServedPush(s: Sys, e: Event)
    requires ServedInOrder(s) && Enabled(s, e) && (e.PushTest? || e.Wake? || e.PushCallback?)
    requires Complete(s) <= Complete(Step(s, e)) && s.pushed <= Step(s, e).pushed
    ensures ServedInOrder(Step(s, e))
  {
    hide QueryBytes, Requests, Sendable, Wf, Flat, Fits, Complete;
    var s' := Step(s, e);
    if e.Wake? {
      assert s.waiting[e.i] in s.waiting;
      assert forall p :: p in s'.waiting ==> p in s.waiting;
    } else if e.PushTest? {
      assert forall p :: p in s'.waiting ==> p in s.waiting || p == Push(e.cb, e.parts);
    } else {
      assert s'.pushed == s.pushed + [s.lock.push] && |s.exchanges| <= |Complete(s)|;
      CompleteWithin(s);
    }
  }

  lemma CompleteWithin(s: Sys)
    ensures |Complete(s)| <= |s.pushed|
  {
  }

  lemma ServedNext(s: Sys, e: Event)
    requires CallbacksKept(s) && BytesKept(s) && ServedInOrder(s) && Enabled(s, e) && e.Serve?
    ensures ServedInOrder(Step(s, e))
  {
    hide QueryBytes, Queries, Requests, Sendable, Wf, Flat, Promised, PushedCallbacks, DeliveredCallbacks;
    NextRequestPushed(s, e);
  }

  lemma {:induction false} ServedStep(s: Sys, e: Event)
    requires CallbacksKept(s) && BytesKept(s) && ServedInOrder(s) && Enabled(s, e)
    ensures ServedInOrder(Step(s, e))
  {
    hide QueryBytes, Queries, Requests, ParseOne, Accept, Sendable, Wf, Flat, Turn, Promised, Fits, CallbacksKept,
      BytesKept, Complete, Checked, Confirmed, Failed;
    CompleteStays(s, e);
    if e.Serve? {
      ServedNext(s, e);
    } else if e.PushTest? || e.Wake? || e.PushCallback? {
      ServedPush(s, e);
    } else {
      assert Step(s, e).exchanges == s.exchanges && Step(s, e).waiting == s.waiting;
    }
  }

  // ---- replies

  lemma {:induction false} ParserServed(reader: Reader, p: PState, rs: seq<Reply>, wire: Bytes, v: Reply)
    requires ParserKept(reader, p, rs, wire)
    ensures ParserKept(reader, p, rs + [v], wire + Enc(v))
  {
    hide Sound, Hungry, Enc;
    if reader != ParseFault {
      ServeSound(p, rs, wire, v);
    }
    if reader == Reading {
      ServeHungry(p, rs, wire, v);
    }
  }

  lemma {:induction false} RepliesServed(s: Sys, e: Event)
    requires RepliesRight(s) && Enabled(s, e) && e.Serve?
    ensures RepliesRight(Step(s, e))
  {
    hide QueryBytes, Requests, HeldRight, Enc, Val, Wf, Sendable, ParserKept;
    StillReplies(s, Exchange(e.parts, e.reply));
    RepliesSnoc(s.exchanges, Exchange(e.parts, e.reply), s.parsed);
    HeldServed(s.client.held, Pending(s), s.wire, e.reply);
    ParserServed(s.client.reader, s.client.parser, Pending(s), s.wire, e.reply);
  }

  lemma {:induction false} RepliesRead(s: Sys, e: Event)
    requires RepliesRight(s) && Enabled(s, e) && e.Read?
    ensures RepliesRight(Step(s, e))
  {
    hide Accept, Replies, Sound, Hungry, Val;
    assert e.chunk + s.wire[|e.chunk|..] == s.wire;
    AcceptSound(s.client.parser, Pending(s), s.wire, e.chunk, s.wire[|e.chunk|..]);
  }

  lemma {:induction false} RepliesParsed(s: Sys, e: Event)
    requires CallbacksKept(s) && ServedInOrder(s) && RepliesRight(s) && Enabled(s, e) && e.Parse?
    requires !CutInside(Pending(s), s.wire, e.stale)
    ensures RepliesRight(Step(s, e))
  {
    hide QueryBytes, Requests, Sound, Hungry, ParseOne, Val, Wf, Sendable, Turn, CallbacksKept, IsReply, Complete,
      Step, HeldRight, StillHeld;
    var c, rs := s.client, Pending(s);
    assert rs == Replies(s.exchanges)[s.parsed..];
    PendingReplies(s.exchanges, s.parsed);
    ParseSound(c.parser, rs, s.wire, e.stale);
    var r := ParseOne(c.parser, e.stale);
    HeldParsed(c.parser, c.held, rs, s.wire, e.stale);
    if r.st == Done {
      assert rs[1..] == Replies(s.exchanges)[s.parsed + 1..];
      assert rs[0] == s.exchanges[s.parsed].reply;
      ReplyDelivered(s, e, r);
    } else {
      NothingDelivered(s, e, r);
    }
  }

  lemma {:induction false} NothingDelivered(s: Sys, e: Event, r: Parsed)
    requires RepliesRight(s) && Enabled(s, e) && e.Parse? && r == ParseOne(s.client.parser, e.stale) && r.st != Done
    requires r.st == More ==> Hungry(r.state, Pending(s), s.wire)
    requires HeldRight(StillHeld(s.client.parser, s.client.held, e.stale), Pending(s), s.wire)
    ensures RepliesRight(Step(s, e))
  {
    hide Replies, Sound, Hungry, ParseOne, Val, Turn, IsReply, HeldRight, StillHeld;
    TurnKeeps(s.client, e.stale);
    TurnIdles(s.client, e.stale, r);
    if r.st == More {
      HungrySound(r.state, Pending(s), s.wire);
    }
  }

  lemma {:induction false} ReplyDelivered(s: Sys, e: Event, r: Parsed)
    requires CallbacksKept(s) && ServedInOrder(s) && RepliesRight(s) && Enabled(s, e) && e.Parse?
    requires r == ParseOne(s.client.parser, e.stale) && r.st == Done && s.parsed < |s.exchanges|
    requires r.state.resp == Val(s.exchanges[s.parsed].reply)
    requires Sound(r.state, Replies(s.exchanges)[s.parsed + 1..], s.wire)
    requires HeldRight(StillHeld(s.client.parser, s.client.held, e.stale), Replies(s.exchanges)[s.parsed + 1..], s.wire)
    ensures RepliesRight(Step(s, e))
  {
    hide Requests, Replies, Sound, Hungry, ParseOne, Val, CallbacksKept, ServedInOrder, Turn, CutInside, IsReply;
    hide HeldRight, StillHeld;
    OwnReply(s);
    var c, c' := s.client, Turn(s.client, e.stale);
    CallbackWaiting(s);
    TurnKeeps(c, e.stale);
    if c.cbq == [] {
      TurnIdles(c, e.stale, r);
    } else {
      TurnDelivers(c, e.stale, r);
      assert forall i :: 0 <= i < |c.delivered| ==> c'.delivered[i] == c.delivered[i];
    }
  }

  lemma OwnReply(s: Sys)
    requires s.parsed < |s.exchanges|
    ensures IsReply(Val(s.exchanges[s.parsed].reply), s.exchanges)
  {
    hide Val;
  }

  /** While a reply is to come there is a callback for it, unless an error has drained them. */
  lemma CallbackWaiting(s: Sys)
    requires CallbacksKept(s) && ServedInOrder(s) && s.parsed < |s.exchanges|
    requires !s.client.err ==> s.parsed == |s.client.delivered|
    ensures s.client.cbq == [] ==> s.client.err
  {
    hide Requests, Wf, Sendable;
    assert |PushedCallbacks(s.pushed)| == |s.pushed|;
  }

  /** A reply of the server stays one. */
  lemma StillReplies(s: Sys, x: Exchange)
    requires forall i :: Timely(s) <= i < |s.client.delivered| ==> IsReply(s.client.delivered[i].resp, s.exchanges)
    ensures forall i ::
              Timely(s) <= i < |s.client.delivered| ==> IsReply(s.client.delivered[i].resp, s.exchanges + [x])
  {
    hide Val;
    forall i | Timely(s) <= i < |s.client.delivered|
      ensures IsReply(s.client.delivered[i].resp, s.exchanges + [x])
    {
      var j :| 0 <= j < |s.exchanges| && s.client.delivered[i].resp == Val(s.exchanges[j].reply);
      assert (s.exchanges + [x])[j] == s.exchanges[j];
    }
  }

  lemma RepliesOther(s: Sys, e: Event)
    requires CallbacksKept(s) && RepliesRight(s) && Enabled(s, e) && !e.Serve? && !e.Parse? && !e.Read?
    ensures RepliesRight(Step(s, e))
  {
    hide QueryBytes, Requests, Replies, ParserKept, Val, Wf, Sendable, Fits, IsReply, PushedCallbacks,
      DeliveredCallbacks, Checked, Confirmed;
    if e.Check? || e.Confirm? {
      WriterKeeps(s.client, if e.Confirm? then s.writer.n else 0);
    }
  }

  /** What is cut stays cut; and it takes a nested reply. */
  lemma CutStep(s: Sys, e: Event)
    requires Enabled(s, e)
    ensures s.cut ==> Step(s, e).cut
    ensures e.Parse? && CutInside(Pending(s), s.wire, e.stale) ==> Step(s, e).cut
    ensures FlatAnswers(Step(s, e)) ==> FlatAnswers(s) && (!s.cut ==> !Step(s, e).cut)
  {
    hide QueryBytes, Requests, Wf, Flat, Sendable, Fits, CutInside, Turn, ParseOne, Accept;
    if e.Serve? {
      var xs := s.exchanges + [Exchange(e.parts, e.reply)];
      assert forall i :: 0 <= i < |s.exchanges| ==> xs[i] == s.exchanges[i];
    } else if e.Parse? && FlatAnswers(s) {
      assert s.parsed < |s.exchanges| ==> Pending(s)[0] == s.exchanges[s.parsed].reply;
      FlatUncut(Pending(s), s.wire, e.stale);
    }
  }

  lemma {:induction false} RepliesStep(s: Sys, e: Event)
    requires Inv(s) && Enabled(s, e)
    ensures RepliesKept(Step(s, e))
  {
    hide CallbacksKept, BytesKept, ServedInOrder, RepliesRight, Enabled, Step;
    CutStep(s, e);
    if Step(s, e).cut {
    } else if e.Serve? {
      RepliesServed(s, e);
    } else if e.Parse? {
      RepliesParsed(s, e);
    } else if e.Read? {
      RepliesRead(s, e);
    } else {
      RepliesOther(s, e);
    }
  }

  /** Every event keeps the invariant. */
  lemma {:induction false} InvStep(s: Sys, e: Event)
    requires Inv(s) && Enabled(s, e)
    ensures Inv(Step(s, e))
  {
    hide CallbacksKept, BytesKept, ServedInOrder, RepliesKept, Enabled, Step;
    CallbacksStep(s, e);
    BytesStep(s, e);
    ServedStep(s, e);
    RepliesStep(s, e);
  }

  lemma InvInitial()
    ensures Inv(INITIAL)
  {
    FreshHungry();
    HungrySound(FRESH, [], []);
    assert Replies([])[0..] == [];
  }

  lemma {:induction false} InvRun(s: Sys, es: seq<Event>)
    requires Inv(s) && Possible(s, es)
    ensures Inv(Run(s, es))
    decreases |es|
  {
    hide Inv, Enabled, Step;
    if es != [] {
      InvStep(s, es[0]);
      InvRun(Step(s, es[0]), es[1..]);
    }
  }
}

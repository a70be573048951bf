/** Whole runs: a stream of replies, cut into chunks, through the resumable parser. */
module StreamRuns {
  import opened ByteStrings
  import opened Resp
  import opened ParserSpec
  import opened WholeReply
  import opened Stops
  import opened ParserMachine
  import opened Chunking

  /** The stream of replies rs is cut after n bytes at a bad stop for leftover byte s. */
  predicate BadCut(rs: seq<Reply>, n: nat, s: char) {
    var d := Avail(rs, n);
    d < |rs| && BadStop(rs[d], n - PrefixLen(rs, d), s)
  }

  /** The stream is cut after n bytes inside an array nested in a reply. */
  predicate NestedCut(rs: seq<Reply>, n: nat, s: char) {
    var d := Avail(rs, n);
    d < |rs| && NestedStop(rs[d], n - PrefixLen(rs, d), s)
  }

  /** The leftover byte at the parser's last call for a chunk: the call that follows as many complete
      replies as the chunk finished. */
  function LastStale(rs: seq<Reply>, n: nat, n': nat, stale: Stale): char
    requires n <= n'
  {
    AvailMonotone(rs, n, n');
    stale(Avail(rs, n') - Avail(rs, n))
  }

  /** Some chunk of the run, which starts n bytes into the stream, ends at a bad stop. */
  predicate BadRun(rs: seq<Reply>, n: nat, chunks: seq<Bytes>, stales: seq<Stale>)
    requires |chunks| == |stales|
    decreases |chunks|
  {
    chunks != [] &&
    var n' := n + |chunks[0]|;
    (BadCut(rs, n', LastStale(rs, n, n', stales[0])) || BadRun(rs, n', chunks[1..], stales[1..]))
  }

  /** Some chunk of the run ends inside a nested array. */
  predicate NestedRun(rs: seq<Reply>, n: nat, chunks: seq<Bytes>, stales: seq<Stale>)
    requires |chunks| == |stales|
    decreases |chunks|
  {
    chunks != [] &&
    var n' := n + |chunks[0]|;
    (NestedCut(rs, n', LastStale(rs, n, n', stales[0])) || NestedRun(rs, n', chunks[1..], stales[1..]))
  }

  // ---- draining complete replies

  /** r is right for the replies rs of which n bytes have arrived: the d complete ones are out, and
      the call that found the next one incomplete met the leftover byte s. */
  predicate DrainedTo(r: Drained, rs: seq<Reply>, fut: Bytes, n: nat, d: nat, s: char) {
    d == Avail(rs, n) && r.out == Vals(rs[..d]) &&
    if BadCut(rs, n, s) then r.st == Thrown || (r.st == More && Doomed(r.state, fut))
    else r.st == More && Waiting(r.state, rs[d..], fut)
  }

  lemma DrainedCons(r: Drained, rs: seq<Reply>, fut: Bytes, n: nat, d: nat, s: char)
    requires rs != [] && n >= Need(rs[0])
    requires DrainedTo(r, rs[1..], fut, n - |Enc(rs[0])|, d, s)
    ensures DrainedTo(r.(out := [Val(rs[0])] + r.out), rs, fut, n, d + 1, s)
  {
    assert rs[..d + 1][1..] == rs[1..][..d];
    assert rs[1..][d..] == rs[d + 1..];
  }

  lemma CutShift(rs: seq<Reply>, n: nat, n': nat)
    requires rs != [] && n >= Need(rs[0]) && n' == n - |Enc(rs[0])|
    ensures Avail(rs, n) == 1 + Avail(rs[1..], n')
    ensures forall s :: NestedCut(rs, n, s) == NestedCut(rs[1..], n', s)
    ensures forall s :: BadCut(rs, n, s) == BadCut(rs[1..], n', s)
  {
    hide NestedStop, BadStop, Enc;
    var d := Avail(rs[1..], n');
    assert PrefixLen(rs, d + 1) == |Enc(rs[0])| + PrefixLen(rs[1..], d);
    assert d < |rs[1..]| ==> rs[1..][d] == rs[d + 1];
    assert n - PrefixLen(rs, d + 1) == n' - PrefixLen(rs[1..], d);
  }

  lemma DrainedNow(r: Parsed, rs: seq<Reply>, fut: Bytes, n: nat, s: char)
    requires rs == [] || n < Need(rs[0])
    requires if rs != [] && BadStop(rs[0], n, s) then r.st == Thrown || (r.st == More && Doomed(r.state, fut))
             else r.st == More && Waiting(r.state, rs, fut)
    ensures DrainedTo(Drained(r.st, r.state, []), rs, fut, n, 0, s)
  {
    hide Waiting, Doomed, BadStop;
    assert rs[0..] == rs;
  }

  lemma NoStopAtStart(rs: seq<Reply>, s: char)
    ensures rs != [] ==> !BadStop(rs[0], 0, s)
  {
  }

  lemma {:induction false} DrainIdle(p: PState, rs: seq<Reply>, fut: Bytes, n: nat, stale: Stale, k: nat, last: nat)
    requires Idle(p, rs, fut) && AllWf(rs) && n == |p.pend| && last == k + Avail(rs, n)
    requires !NestedCut(rs, n, stale(last))
    ensures DrainedTo(Drain(p, stale, k), rs, fut, n, last - k, stale(last))
    decreases |rs|
  {
    hide DrainedTo, BadStop, NestedStop, Doomed, Enc, ReadData, FillArray;
    var r := ParseOne(p, stale(k));
    if n == 0 {
      assert last == k && Drain(p, stale, k) == Drained(More, p, []);
      NoStopAtStart(rs, stale(last));
      DrainedNow(r, rs, fut, n, stale(last));
    } else {
      PrefixOfConcat(p.pend, fut, EncAll(rs));
      assert rs != [];
      if n >= Need(rs[0]) {
        ParseComplete(p, rs, fut, stale(k));
        CutShift(rs, n, n - |Enc(rs[0])|);
        var rest := Drain(r.state, stale, k + 1);
        DrainIdle(r.state, rs[1..], fut, n - |Enc(rs[0])|, stale, k + 1, last);
        DrainedCons(rest, rs, fut, n, last - k - 1, stale(last));
        assert Drain(p, stale, k) == rest.(out := [Val(rs[0])] + rest.out);
      } else {
        assert last == k;
        ParseIdle(p, rs, fut, n, stale(k));
        DrainedNow(r, rs, fut, n, stale(last));
        assert Drain(p, stale, k) == Drained(r.st, r.state, []);
      }
    }
  }

  // ---- one chunk

  lemma AcceptElements(p: PState, es: seq<Reply>, tail: Bytes, fut: Bytes, m: nat, chunk: Bytes, fut': Bytes)
    requires InElements(p, es, tail, fut, m) && chunk + fut' == fut
    ensures InElements(Accept(p, chunk), es, tail, fut', m)
  {
    hide Avail, EncAll, Partial, ArrayAmong, PrefixLen;
    var p1 := Accept(p, chunk);
    if p.skip == 0 {
      assert p1.pend + fut' == p.pend + fut;
      assert |p1.pend| == |p.pend| + |chunk|;
      AvailMonotone(es, PrefixLen(es, m) + |p.pend|, PrefixLen(es, m) + |p1.pend|);
    } else {
      AcceptHeaderRest(p, es, tail, fut, chunk, fut');
    }
  }

  lemma {:induction false} AcceptHeaderRest(p: PState, es: seq<Reply>, tail: Bytes, fut: Bytes, chunk: Bytes, fut': Bytes)
    requires InElements(p, es, tail, fut, 0) && p.skip > 0 && chunk + fut' == fut
    ensures InElements(Accept(p, chunk), es, tail, fut', 0)
  {
    hide EncAll, Partial, ArrayAmong, Avail;
    AcceptLineEnd(p.skip, chunk, fut', EncAll(es) + tail);
    assert CRLF[2 - p.skip..] + EncAll(es) + tail == CRLF[2 - p.skip..] + (EncAll(es) + tail);
    assert es[0..] == es;
    var p1 := Accept(p, chunk);
    if p1.skip > 0 {
      assert CRLF[2 - p1.skip..] + EncAll(es) + tail == CRLF[2 - p1.skip..] + (EncAll(es) + tail);
    }
  }

  lemma AcceptLineEnd(skip: nat, chunk: Bytes, fut': Bytes, rest: Bytes)
    requires 1 <= skip <= 2 && chunk + fut' == CRLF[2 - skip..] + rest
    ensures if skip <= |chunk| then chunk[skip..] + fut' == rest
            else fut' == CRLF[2 - skip + |chunk|..] + rest
  {
    var a := CRLF[2 - skip..];
    CutConcat(chunk, fut', a, rest);
    assert |chunk| < skip ==> a[|chunk|..] == CRLF[2 - skip + |chunk|..];
  }

  /** Where an array's parse stands, counted from the start of the array. */
  lemma ElementsReceived(p: PState, rs: seq<Reply>, fut: Bytes, m: nat, q: int)
    requires InArray(p, rs, fut, m) && q == Received(rs, fut)
    ensures p.skip == 0 ==> q == HeaderLen(rs[0]) + PrefixLen(rs[0].items, m) + |p.pend|
    ensures p.skip > 0 ==> q == HeaderLen(rs[0]) - p.skip
  {
    if p.skip == 0 {
      ReceivedInArray(rs, fut, m, p.pend);
    } else {
      assert |fut| == p.skip + |EncAll(rs[0].items)| + |EncAll(rs[1..])|;
      assert |EncAll(rs)| == |Enc(rs[0])| + |EncAll(rs[1..])|;
      assert |Enc(rs[0])| == HeaderLen(rs[0]) + |EncAll(rs[0].items)|;
    }
  }

  /** Nothing new to look at: the parser waits. */
  lemma DrainNothing(p: PState, rs: seq<Reply>, fut: Bytes, m: nat, q: nat, stale: Stale)
    requires InArray(p, rs, fut, m) && p.pend == [] && m == 0 && q == Received(rs, fut)
    ensures DrainedTo(Drain(p, stale, 0), rs, fut, q, 0, stale(0))
  {
    var v := rs[0];
    ElementsReceived(p, rs, fut, m, q);
    assert PrefixLen(v.items, 0) == 0;
    assert Avail(v.items, 0) == 0;
    assert q < Need(v);
    assert !BadStop(v, q, stale(0));
    assert Waiting(p, rs, fut);
    DrainedNow(Parsed(More, p), rs, fut, q, stale(0));
    assert Drain(p, stale, 0) == Drained(More, p, []);
  }

  /** A chunk arrives inside an array and completes it. */
  lemma {:induction false} DrainCompleted(p: PState, p': PState, rs: seq<Reply>, fut: Bytes, q: nat, stale: Stale)
    requires ParseOne(p, stale(0)) == Parsed(Done, p') && rs != [] && AllWf(rs) && p'.resp == Val(rs[0])
    requires Idle(p', rs[1..], fut) && q == Received(rs, fut) && q >= Need(rs[0])
    requires !NestedCut(rs, q, stale(Avail(rs, q)))
    ensures DrainedTo(Drain(p, stale, 0), rs, fut, q, Avail(rs, q), stale(Avail(rs, q)))
  {
    hide ParseOne, DrainedTo, NestedCut, Avail;
    var q', last := q - |Enc(rs[0])|, Avail(rs, q);
    CutShift(rs, q, q');
    assert |p'.pend| == q' by {
      assert |p'.pend + fut| == |p'.pend| + |fut|;
    }
    var rest := Drain(p', stale, 1);
    DrainIdle(p', rs[1..], fut, q', stale, 1, last);
    DrainedCons(rest, rs, fut, q, last - 1, stale(last));
    assert Drain(p, stale, 0) == rest.(out := [Val(rs[0])] + rest.out);
  }

  /** The outcome of a call inside the array rs[0], seen from the stream. */
  lemma ElementsDone(r: Parsed, rs: seq<Reply>, fut: Bytes, n: nat, s: char)
    requires rs != [] && rs[0].Arr?
    requires ElementsOutcome(r, rs[0].items, EncAll(rs[1..]), fut, n, |rs[0].items|, s)
    ensures r == Parsed(Done, r.state) && r.state.resp == Val(rs[0]) && Idle(r.state, rs[1..], fut)
  {
    assert rs[0] == Arr(rs[0].items);
  }

  lemma ElementsStop(r: Parsed, rs: seq<Reply>, fut: Bytes, q: nat, n: nat, j: nat, s: char)
    requires rs != [] && rs[0].Arr? && q == HeaderLen(rs[0]) + n && n > 0 && q == Received(rs, fut)
    requires j == Avail(rs[0].items, n) < |rs[0].items| && !NestedStop(rs[0], q, s)
    requires ElementsOutcome(r, rs[0].items, EncAll(rs[1..]), fut, n, j, s)
    ensures if BadStop(rs[0], q, s) then r.st == Thrown else r.st == More && Waiting(r.state, rs, fut)
  {
    assert q - HeaderLen(rs[0]) == n;
    assert !Touched(rs[0].items, n, s);
  }

  /** A chunk arrives inside an array. */
  lemma DrainElements(p: PState, rs: seq<Reply>, fut: Bytes, m: nat, q: nat, stale: Stale)
    requires InArray(p, rs, fut, m) && p.pend != [] && AllWf(rs) && q == Received(rs, fut)
    requires !NestedCut(rs, q, stale(Avail(rs, q)))
    ensures DrainedTo(Drain(p, stale, 0), rs, fut, q, Avail(rs, q), stale(Avail(rs, q)))
  {
    var v := rs[0];
    var n := PrefixLen(v.items, m) + |p.pend|;
    ElementsReceived(p, rs, fut, m, q);
    assert v in rs && AllWf(v.items);
    NeedOfArray(v, n);
    ParseElements(p, v.items, EncAll(rs[1..]), fut, m, n, stale(0));
    DrainOutcome(p, ParseOne(p, stale(0)), rs, fut, q, n, stale);
  }

  lemma {:induction false} DrainOutcome(p: PState, r: Parsed, rs: seq<Reply>, fut: Bytes, q: nat, n: nat, stale: Stale)
    requires r == ParseOne(p, stale(0)) && rs != [] && rs[0].Arr? && AllWf(rs)
    requires q == HeaderLen(rs[0]) + n && n > 0 && q == Received(rs, fut)
    requires !NestedCut(rs, q, stale(Avail(rs, q)))
    requires Avail(rs[0].items, n) == |rs[0].items| <==> q >= Need(rs[0])
    requires ElementsOutcome(r, rs[0].items, EncAll(rs[1..]), fut, n, Avail(rs[0].items, n), stale(0))
    ensures DrainedTo(Drain(p, stale, 0), rs, fut, q, Avail(rs, q), stale(Avail(rs, q)))
  {
    hide ParseOne, BadStop, ElementsOutcome, DrainedTo, EncAll;
    if q >= Need(rs[0]) {
      ElementsDone(r, rs, fut, n, stale(0));
      DrainCompleted(p, r.state, rs, fut, q, stale);
    } else {
      assert Avail(rs, q) == 0 && PrefixLen(rs, 0) == 0;
      ElementsStop(r, rs, fut, q, n, Avail(rs[0].items, n), stale(0));
      DrainedNow(r, rs, fut, q, stale(0));
      assert Drain(p, stale, 0) == Drained(r.st, r.state, []);
    }
  }

  /** One chunk, from a waiting parser. */
  lemma FeedWaiting(p: PState, rs: seq<Reply>, fut: Bytes, chunk: Bytes, fut': Bytes, n: nat, d: nat, stale: Stale)
    requires Waiting(p, rs, fut) && AllWf(rs) && chunk != [] && chunk + fut' == fut
    requires n == Received(rs, fut') && d == Avail(rs, n) && !NestedCut(rs, n, stale(d))
    ensures DrainedTo(Feed(p, chunk, stale), rs, fut', n, d, stale(d))
  {
    hide Drain, DrainedTo, NestedCut, InElements, Accept, Received, EncAll, Progress;
    if Idle(p, rs, fut) {
      FeedIdle(p, rs, fut, chunk, fut', n, d, stale);
    } else {
      FeedInside(p, rs, fut, Progress(rs[0], Received(rs, fut)), chunk, fut', n, d, stale);
    }
  }

  lemma FeedIdle(p: PState, rs: seq<Reply>, fut: Bytes, chunk: Bytes, fut': Bytes, n: nat, d: nat, stale: Stale)
    requires Idle(p, rs, fut) && AllWf(rs) && chunk + fut' == fut
    requires n == Received(rs, fut') && d == Avail(rs, n) && !NestedCut(rs, n, stale(d))
    ensures DrainedTo(Feed(p, chunk, stale), rs, fut', n, d, stale(d))
  {
    hide Drain, DrainedTo, NestedCut, Avail, EncAll;
    var p1 := Accept(p, chunk);
    assert p1.pend + fut' == p.pend + fut;
    assert |p1.pend + fut'| == |p1.pend| + |fut'|;
    DrainIdle(p1, rs, fut', n, stale, 0, d);
  }

  lemma {:induction false} FeedInside(p: PState, rs: seq<Reply>, fut: Bytes, m: nat, chunk: Bytes, fut': Bytes, n: nat,
                                      d: nat, stale: Stale)
    requires InArray(p, rs, fut, m) && AllWf(rs) && chunk != [] && chunk + fut' == fut
    requires n == Received(rs, fut') && d == Avail(rs, n) && !NestedCut(rs, n, stale(d))
    ensures DrainedTo(Feed(p, chunk, stale), rs, fut', n, d, stale(d))
  {
    hide Drain, DrainedTo, NestedCut, InElements, Received, EncAll, Avail;
    var p1 := Accept(p, chunk);
    AcceptElements(p, rs[0].items, EncAll(rs[1..]), fut, m, chunk, fut');
    if p1.pend == [] {
      StillInHeader(p, rs, fut, m, p1, fut', n);
      DrainNothing(p1, rs, fut', m, n, stale);
    } else {
      DrainElements(p1, rs, fut', m, n, stale);
    }
  }

  /** Bytes came and none is left to look at: they completed no more than the header's line end. */
  lemma StillInHeader(p: PState, rs: seq<Reply>, fut: Bytes, m: nat, p1: PState, fut': Bytes, n: nat)
    requires InArray(p, rs, fut, m) && InArray(p1, rs, fut', m) && p1.pend == [] && n == Received(rs, fut')
    requires p.skip == 0 ==> p1.pend != []
    ensures m == 0 && Avail(rs, n) == 0
  {
    hide EncAll, Avail, Partial, ArrayAmong;
    ElementsReceived(p1, rs, fut', m, n);
    assert PrefixLen(rs[0].items, 0) == 0;
    NotYet(rs, n);
  }

  lemma NotYet(rs: seq<Reply>, n: nat)
    requires rs != [] && rs[0].Arr? && rs[0].items != [] && n <= HeaderLen(rs[0])
    ensures Avail(rs, n) == 0
  {
  }

  /** After a header was cut wrongly nothing more is delivered, and the parser throws as soon as it
      gets to see a byte. */
  lemma FeedDoomed(p: PState, fut: Bytes, chunk: Bytes, fut': Bytes, stale: Stale)
    requires Doomed(p, fut) && chunk + fut' == fut
    ensures var r := Feed(p, chunk, stale);
            r.out == [] && (r.st == Thrown || (r.st == More && Doomed(r.state, fut')))
  {
    var p1 := Accept(p, chunk);
    if p1.pend == [] {
      assert fut' == fut[|chunk|..];
      assert Drain(p1, stale, 0) == Drained(More, p1, []);
    } else {
      assert p1.pend[0] == fut[p.skip];
      DoomedThrows(p1, stale(0));
      assert ParseOne(p1, stale(0)).st == Thrown;
    }
  }

  lemma DoomedThrows(p: PState, s: char)
    requires p.inc && p.pend != [] && !IsTypeByte(p.pend[0]) && p.resp.ares != [] && p.resp.ares[0] == BLANK
    ensures ParseOne(p, s).st == Thrown
  {
    FillCons(p.resp.ares, p.pend, s);
  }

  // ---- whole runs

  /** Cuts of a stream, seen from its d-th reply on. */
  lemma {:induction false} CutSuffix(rs: seq<Reply>, d: nat, n: nat)
    requires d <= |rs| && PrefixLen(rs, d) <= n && Avail(rs, n) >= d
    ensures Avail(rs, n) == d + Avail(rs[d..], n - PrefixLen(rs, d))
    ensures forall s :: NestedCut(rs, n, s) == NestedCut(rs[d..], n - PrefixLen(rs, d), s)
    ensures forall s :: BadCut(rs, n, s) == BadCut(rs[d..], n - PrefixLen(rs, d), s)
    decreases d
  {
    hide BadCut, NestedCut, Enc;
    if d == 0 {
      assert rs[0..] == rs;
    } else {
      var n' := n - |Enc(rs[0])|;
      CutShift(rs, n, n');
      CutSuffix(rs[1..], d - 1, n');
      assert rs[1..][d - 1..] == rs[d..];
    }
  }

  lemma {:induction false} RunDoomed(p: PState, fut: Bytes, fut': Bytes, chunks: seq<Bytes>, stales: seq<Stale>)
    requires Doomed(p, fut) && |chunks| == |stales| && Concat(chunks) + fut' == fut
    ensures var r := Run(p, chunks, stales);
            r.out == [] && (r.st == Thrown || (r.st == More && Doomed(r.state, fut')))
    decreases |chunks|
  {
    if chunks == [] {
      assert fut' == fut;
    } else {
      var mid := Concat(chunks[1..]) + fut';
      assert chunks[0] + mid == fut;
      FeedDoomed(p, fut, chunks[0], mid, stales[0]);
      var r := Feed(p, chunks[0], stales[0]);
      if r.st != Thrown {
        RunDoomed(r.state, mid, fut', chunks[1..], stales[1..]);
      }
    }
  }

  /** The outcome of a run over the replies rs, of which the first d0 were delivered before it. */
  predicate RunOutcome(r: Drained, rs: seq<Reply>, d0: nat, d: nat, fut: Bytes, bad: bool)
    requires d0 <= d <= |rs|
  {
    if bad then r.out <= Vals(rs[d0..d]) && (r.st == Thrown || (r.st == More && Doomed(r.state, fut)))
    else r.out == Vals(rs[d0..d]) && r.st == More && Waiting(r.state, rs[d..], fut)
  }

  lemma JoinOutcomes(first: seq<RespData>, r: Drained, rs: seq<Reply>, d0: nat, d1: nat, d: nat, fut: Bytes, bad: bool)
    requires d0 <= d1 <= d <= |rs| && first == Vals(rs[d0..d1]) && RunOutcome(r, rs, d1, d, fut, bad)
    ensures RunOutcome(r.(out := first + r.out), rs, d0, d, fut, bad)
  {
    hide Waiting, Doomed, Vals;
    ValsAppend(rs[d0..d1], rs[d1..d]);
    assert rs[d0..d] == rs[d0..d1] + rs[d1..d];
  }

  lemma ReceivedFrom(rs: seq<Reply>, d: nat, fut: Bytes)
    requires d <= |rs|
    ensures Received(rs[d..], fut) == Received(rs, fut) - PrefixLen(rs, d)
  {
    PrefixSplit(rs, d);
  }

  /** One chunk of a run. */
  lemma RunChunk(p: PState, rs: seq<Reply>, d0: nat, n0: nat, d: nat, n: nat, fut: Bytes, chunk: Bytes, mid: Bytes,
                 stale: Stale)
    requires AllWf(rs) && d0 == Avail(rs, n0) && Waiting(p, rs[d0..], fut) && n0 == Received(rs, fut)
    requires chunk != [] && chunk + mid == fut && n == Received(rs, mid)
    requires n0 <= n && d0 <= d == Avail(rs, n) && !NestedCut(rs, n, stale(d - d0))
    ensures var r := Feed(p, chunk, stale);
            r.out == Vals(rs[d0..d]) && RunOutcome(r, rs, d0, d, mid, BadCut(rs, n, stale(d - d0)))
  {
    hide Feed, Waiting, Doomed, BadCut, NestedCut, Vals, EncAll, Avail, PrefixLen, Received;
    var vs := rs[d0..];
    AvailPrefix(rs, d0, n0, n);
    CutSuffix(rs, d0, n);
    ReceivedFrom(rs, d0, mid);
    var k, e := n - PrefixLen(rs, d0), d - d0;
    FeedWaiting(p, vs, fut, chunk, mid, k, e, stale);
    assert vs[..e] == rs[d0..d] && vs[e..] == rs[d..];
  }

  lemma AvailPrefix(rs: seq<Reply>, d0: nat, n0: nat, n: nat)
    requires n0 <= n && d0 == Avail(rs, n0)
    ensures PrefixLen(rs, d0) <= n && d0 <= Avail(rs, n)
  {
    AvailMonotone(rs, n0, n);
  }

  lemma {:induction false} RunAll(p: PState, rs: seq<Reply>, d0: nat, n0: nat, fut: Bytes, fut': Bytes,
                                  chunks: seq<Bytes>, stales: seq<Stale>)
    requires AllWf(rs) && |chunks| == |stales| && (forall c :: c in chunks ==> c != [])
    requires d0 == Avail(rs, n0) && n0 == Received(rs, fut)
    requires Waiting(p, rs[d0..], fut) && Concat(chunks) + fut' == fut && !NestedRun(rs, n0, chunks, stales)
    ensures var d := Avail(rs, n0 + |Concat(chunks)|);
            d0 <= d && RunOutcome(Run(p, chunks, stales), rs, d0, d, fut', BadRun(rs, n0, chunks, stales))
    decreases |chunks|
  {
    hide Feed, Waiting, Doomed, BadCut, NestedCut, Vals, EncAll, Avail, PrefixLen;
    if chunks == [] {
      assert rs[d0..d0] == [];
      assert fut' == fut;
      NoVals();
    } else {
      var chunk := chunks[0];
      assert chunk in chunks;
      var n, all := n0 + |chunk|, n0 + |Concat(chunks)|;
      var mid := Concat(chunks[1..]) + fut';
      assert chunk + mid == fut;
      AvailPrefix(rs, d0, n0, n);
      RunChunk(p, rs, d0, n0, Avail(rs, n), n, fut, chunk, mid, stales[0]);
      var r, d1, d := Feed(p, chunk, stales[0]), Avail(rs, n), Avail(rs, all);
      assert n + |Concat(chunks[1..])| == all;
      AvailMonotone(rs, n, all);
      assert forall c :: c in chunks[1..] ==> c in chunks;
      if !BadCut(rs, n, LastStale(rs, n0, n, stales[0])) {
        RunAll(r.state, rs, d1, n, mid, fut', chunks[1..], stales[1..]);
        JoinOutcomes(r.out, Run(r.state, chunks[1..], stales[1..]), rs, d0, d1, d, fut',
                     BadRun(rs, n, chunks[1..], stales[1..]));
      } else {
        ShortOutcome(r.out, rs, d0, d1, d);
        if r.st != Thrown {
          RunDoomed(r.state, mid, fut', chunks[1..], stales[1..]);
        }
      }
    }
  }

  lemma NoVals()
    ensures Vals([]) == []
  {
  }

  lemma ShortOutcome(out: seq<RespData>, rs: seq<Reply>, d0: nat, d1: nat, d: nat)
    requires d0 <= d1 <= d <= |rs| && out == Vals(rs[d0..d1])
    ensures out <= Vals(rs[d0..d])
  {
    hide Vals;
    ValsAppend(rs[d0..d1], rs[d1..d]);
    assert rs[d0..d] == rs[d0..d1] + rs[d1..d];
  }

  /** MAIN RESULT. Feed any prefix of a stream of replies, cut into non-empty chunks in any way, with any
      leftover bytes behind the buffer. If no chunk ends inside an array nested in a reply and none
      at a bad stop, the parser delivers exactly the replies that have completely arrived, and waits.
      Whatever is delivered is in any case a correct beginning. */
  lemma {:induction false} ChunkingInvariance(rs: seq<Reply>, chunks: seq<Bytes>, stales: seq<Stale>)
    requires AllWf(rs) && |chunks| == |stales| && (forall c :: c in chunks ==> c != [])
    requires Concat(chunks) <= EncAll(rs) && !NestedRun(rs, 0, chunks, stales)
    ensures var r := Run(FRESH, chunks, stales);
            var arrived := Vals(rs[..Avail(rs, |Concat(chunks)|)]);
            r.out <= arrived && (!BadRun(rs, 0, chunks, stales) ==> r.st == More && r.out == arrived)
  {
    RunFresh(rs, chunks, stales);
  }

  lemma {:induction false} RunFresh(rs: seq<Reply>, chunks: seq<Bytes>, stales: seq<Stale>)
    requires AllWf(rs) && |chunks| == |stales| && (forall c :: c in chunks ==> c != [])
    requires Concat(chunks) <= EncAll(rs) && !NestedRun(rs, 0, chunks, stales)
    ensures RunOutcome(Run(FRESH, chunks, stales), rs, 0, Avail(rs, |Concat(chunks)|),
                       EncAll(rs)[|Concat(chunks)|..], BadRun(rs, 0, chunks, stales))
  {
    hide Run, BadRun, NestedRun, RunOutcome, EncAll;
    assert rs[0..] == rs;
    var fut' := EncAll(rs)[|Concat(chunks)|..];
    assert Concat(chunks) + fut' == EncAll(rs);
    assert Idle(FRESH, rs, EncAll(rs));
    RunAll(FRESH, rs, 0, 0, EncAll(rs), fut', chunks, stales);
  }

  /** On a complete stream of scalars and arrays of scalars the parser throws exactly when some chunk
      ends at a bad stop; otherwise every reply is delivered, but for a closing empty line. */
  lemma {:induction false} ThrowsIffBadStop(rs: seq<Reply>, chunks: seq<Bytes>, stales: seq<Stale>)
    requires AllWf(rs) && AllFlat(rs) && |chunks| == |stales| && (forall c :: c in chunks ==> c != [])
    requires Concat(chunks) == EncAll(rs)
    ensures var r := Run(FRESH, chunks, stales);
            (r.st == Thrown <==> BadRun(rs, 0, chunks, stales))
            && (r.st != Thrown ==> r.out == Vals(if Punctual(rs) then rs else rs[..|rs| - 1]))
  {
    FlatRun(rs, 0, chunks, stales);
    RunFresh(rs, chunks, stales);
    assert EncAll(rs)[|Concat(chunks)|..] == [];
    var d := Avail(rs, |EncAll(rs)|);
    AllArrived(rs);
    assert rs[..|rs|] == rs && rs[0..d] == rs[..d];
  }

  /** The stream does not end in an empty simple string or error. */
  predicate Punctual(rs: seq<Reply>) {
    rs == [] || !EndsBlank(rs[|rs| - 1])
  }

  lemma {:induction false} AllArrived(rs: seq<Reply>)
    ensures Avail(rs, |EncAll(rs)|) == if Punctual(rs) then |rs| else |rs| - 1
    decreases |rs|
  {
    if |rs| > 1 {
      AllArrived(rs[1..]);
    } else if |rs| == 1 {
      assert EncAll(rs[1..]) == [];
    }
  }

  lemma {:induction false} FlatRun(rs: seq<Reply>, n: nat, chunks: seq<Bytes>, stales: seq<Stale>)
    requires AllFlat(rs) && |chunks| == |stales|
    ensures !NestedRun(rs, n, chunks, stales)
    decreases |chunks|
  {
    if chunks != [] {
      var n' := n + |chunks[0]|;
      var d, s := Avail(rs, n'), LastStale(rs, n, n', stales[0]);
      if d < |rs| && NestedStop(rs[d], n' - PrefixLen(rs, d), s) {
        assert rs[d] in rs;
        FlatNotTouched(rs[d].items, n' - PrefixLen(rs, d) - HeaderLen(rs[d]), s);
      }
      FlatRun(rs, n', chunks[1..], stales[1..]);
    }
  }

  /** Streams of scalars have no bad stops at all: every cut gives the same replies. */
  lemma {:induction false} ScalarRun(rs: seq<Reply>, n: nat, chunks: seq<Bytes>, stales: seq<Stale>)
    requires (forall v :: v in rs ==> !v.Arr?) && |chunks| == |stales|
    ensures !BadRun(rs, n, chunks, stales)
    decreases |chunks|
  {
    if chunks != [] {
      var n' := n + |chunks[0]|;
      var d := Avail(rs, n');
      assert d < |rs| ==> rs[d] in rs;
      ScalarRun(rs, n', chunks[1..], stales[1..]);
    }
  }

  /** A leftover byte that looks like a reply type is harmless at every stop. */
  lemma {:induction false} TypeByteRun(rs: seq<Reply>, n: nat, chunks: seq<Bytes>, stales: seq<Stale>)
    requires |chunks| == |stales|
    requires forall i, k :: 0 <= i < |stales| ==> IsTypeByte(stales[i](k))
    ensures !BadRun(rs, n, chunks, stales)
    decreases |chunks|
  {
    if chunks != [] {
      var n' := n + |chunks[0]|;
      assert IsTypeByte(stales[0](Avail(rs, n') - Avail(rs, n))) by {
        AvailMonotone(rs, n, n');
      }
      assert forall i, k :: 0 <= i < |stales[1..]| ==> stales[1..][i](k) == stales[i + 1](k);
      TypeByteRun(rs, n', chunks[1..], stales[1..]);
    }
  }
}

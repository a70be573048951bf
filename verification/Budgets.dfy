/** The resumable parser on a budget of tokens: over any run at all, what it delivers weighs no more than the
    tokens of the stream. */
module Budgets {
  import opened ByteStrings
  import opened Resp
  import opened ParserSpec
  import opened Stops
  import opened ParserMachine
  import opened Tokens
  import opened Counting

  /** The parser stands before the tokens ks, perhaps inside an array. */
  predicate Standing(p: PState, ks: seq<Token>, fut: Bytes) {
    WfTokens(ks) && (if p.inc then Untagged(p.resp) && p.resp.kind == Empty && p.resp.ares != [] else p.skip == 0) &&
    if p.skip == 0 then p.pend + fut == Stream(ks)
    else p.pend == [] && p.skip <= |fut| && fut[p.skip..] == Stream(ks)
  }

  /** The next byte the parser looks at makes it throw. */
  predicate Astray(p: PState, fut: Bytes) {
    p.inc && AllUntagged(p.resp.ares) && HasEmpty(p.resp.ares) && p.pend == [] && p.skip < |fut| &&
    !IsTypeByte(fut[p.skip])
  }

  /** What the tree in the parser's hands may still come to weigh, without further tokens. */
  function Potential(p: PState): nat {
    if p.inc then 1 + Lives(p.resp.ares) else 0
  }

  function Budget(p: PState, ks: seq<Token>): nat {
    Potential(p) + |ks|
  }

  /** What one call may do. */
  predicate Spent(r: Parsed, p: PState, ks: seq<Token>, fut: Bytes, j: nat) {
    j <= |ks| &&
    match r.st
    case Thrown => true
    case Done => Standing(r.state, ks[j..], fut) && !r.state.inc && Weight(r.state.resp) <= Potential(p) + j
    case More => Astray(r.state, fut) || (Standing(r.state, ks[j..], fut) && Potential(r.state) <= Potential(p) + j)
  }

  lemma AdvanceStands(p: PState, used: nat, fut: Bytes, rest: seq<Token>)
    requires p.skip == 0 && WfTokens(rest) && Behind(p.pend, fut, used, rest)
    ensures var p' := Advance(p, used);
            if p'.skip == 0 then p'.pend + fut == Stream(rest)
            else p'.pend == [] && p'.skip <= |fut| && fut[p'.skip..] == Stream(rest)
  {
    hide Stream;
    if used == |p.pend| {
      assert p.pend[used..] == [];
    }
  }

  lemma WfRest(ks: seq<Token>, j: nat)
    requires WfTokens(ks) && j <= |ks|
    ensures WfTokens(ks[j..])
  {
    assert forall k :: k in ks[j..] ==> k in ks;
  }

  /** A call before a reply. */
  lemma StartTook(p: PState, ks: seq<Token>, fut: Bytes, s: char) returns (j: nat)
    requires Standing(p, ks, fut) && !p.inc && p.pend != []
    ensures Spent(ParseOne(p, s), p, ks, fut, j)
  {
    hide ReadData, Stream, WfToken, Weight, Weights, Lives, Untagged;
    BlankUntagged();
    j := ReadTook(p.pend, fut, ks, s, BLANK);
    StartSpent(ReadData(p.pend, s, BLANK), p, ks, fut, s, j);
  }

  lemma BlankUntagged()
    ensures Untagged(BLANK) && Live(BLANK) == Weight(BLANK) == 0
  {
    assert Weights(BLANK.ares) == 0;
  }

  lemma StartSpent(o: Outcome, p: PState, ks: seq<Token>, fut: Bytes, s: char, j: nat)
    requires Standing(p, ks, fut) && !p.inc && p.pend != [] && o == ReadData(p.pend, s, BLANK)
    requires Took(o, BLANK, p.pend, fut, ks, j)
    ensures Spent(ParseOne(p, s), p, ks, fut, j)
  {
    hide ReadData, Stream, WfToken, Behind, Weight, Lives, HasEmpty;
    WfRest(ks, j);
    BlankUntagged();
    if o.st != Thrown {
      if o.st == More {
        IncRaised(p.pend, s);
        EmptyIsThere(o.t.ares);
      }
      if Behind(p.pend, fut, o.used, ks[j..]) {
        AdvanceStands(p, o.used, fut, ks[j..]);
      }
    }
  }

  lemma EmptyIsThere(ts: seq<RespData>)
    ensures HasEmpty(ts) ==> ts != []
  {
  }

  /** Before a reply, the incomplete flag goes up exactly when a header was taken. */
  lemma IncRaised(w: Bytes, s: char)
    requires w != []
    ensures var r := ReadData(w, s, BLANK); r.st == More ==> (r.inc <==> r.used > 0)
  {
    hide FillArray, FirstCR, SizeValue, Resize;
  }

  /** A call inside an array. */
  lemma ResumeTook(p: PState, ks: seq<Token>, fut: Bytes, s: char) returns (j: nat)
    requires Standing(p, ks, fut) && p.inc && p.pend != []
    ensures Spent(ParseOne(p, s), p, ks, fut, j)
  {
    hide FillElems, FillArray, Stream, WfToken, Weights, Lives, Filled;
    var ts := p.resp.ares;
    SlotsUntagged(p.resp);
    j := FillTook(ts, p.pend, fut, ks, s);
    FillArrayCases(p.resp, p.pend, s);
    ResumeSpent(FillElems(ts, p.pend, s), p, ks, fut, s, j);
  }

  lemma SlotsUntagged(t: RespData)
    requires Untagged(t)
    ensures AllUntagged(t.ares)
  {
  }

  lemma ResumeSpent(r: Fill, p: PState, ks: seq<Token>, fut: Bytes, s: char, j: nat)
    requires Standing(p, ks, fut) && p.inc && p.pend != [] && Filled(r, p.resp.ares, p.pend, fut, ks, j)
    requires FillArray(p.resp, p.pend, s) == Outcome(r.st, p.resp.(ares := r.es), r.used, r.inc)
    requires |r.es| == |p.resp.ares|
    ensures Spent(ParseOne(p, s), p, ks, fut, j)
  {
    hide FillArray, Stream, WfToken, Behind, Weights, Lives, HasEmpty;
    WfRest(ks, j);
    if r.st != Thrown && Behind(p.pend, fut, r.used, ks[j..]) {
      AdvanceStands(p, r.used, fut, ks[j..]);
    }
    var t := p.resp.(ares := r.es);
    assert AllUntagged(r.es) ==> Untagged(t);
    assert Weight(t) == 1 + Weights(r.es);
  }

  /** Any call at all. */
  lemma ParseTook(p: PState, ks: seq<Token>, fut: Bytes, s: char) returns (j: nat)
    requires Standing(p, ks, fut)
    ensures Spent(ParseOne(p, s), p, ks, fut, j)
  {
    hide ParseOne, Stream, Spent, Potential, WfToken, Untagged;
    if p.pend == [] {
      j := 0;
      NothingSpent(p, ks, fut, s);
    } else if p.inc {
      j := ResumeTook(p, ks, fut, s);
    } else {
      j := StartTook(p, ks, fut, s);
    }
  }

  lemma NothingSpent(p: PState, ks: seq<Token>, fut: Bytes, s: char)
    requires Standing(p, ks, fut) && p.pend == []
    ensures Spent(ParseOne(p, s), p, ks, fut, 0)
  {
    hide Stream, WfToken, Untagged, Lives;
    assert ks[0..] == ks;
  }

  // ---- astray

  lemma {:induction false} AstrayFills(ts: seq<RespData>, w: Bytes, s: char)
    requires AllUntagged(ts) && HasEmpty(ts) && w != [] && !IsTypeByte(w[0])
    ensures FillElems(ts, w, s).st == Thrown
    decreases |ts|
  {
    hide FillElems;
    assert ts[0] in ts;
    KindUntagged(ts[0]);
    if ts[0].kind == Empty {
      FillCons(ts, w, s);
    } else {
      PassOver(ts, w, s);
      var i :| 0 <= i < |ts| && ts[i].kind == Empty;
      assert ts[1..][i - 1].kind == Empty;
      assert forall t :: t in ts[1..] ==> t in ts;
      AstrayFills(ts[1..], w, s);
    }
  }

  lemma AstrayStops(p: PState, s: char)
    requires p.inc && AllUntagged(p.resp.ares) && HasEmpty(p.resp.ares) && p.pend != [] && !IsTypeByte(p.pend[0])
    ensures ParseOne(p, s).st == Thrown
  {
    hide FillElems, FillArray, Untagged;
    EmptyIsThere(p.resp.ares);
    AstrayFills(p.resp.ares, p.pend, s);
    FillArrayCases(p.resp, p.pend, s);
  }

  lemma AstrayFeeds(p: PState, fut: Bytes, chunk: Bytes, fut': Bytes, stale: Stale)
    requires Astray(p, fut) && chunk + fut' == fut
    ensures var r := Feed(p, chunk, stale);
            r.out == [] && (r.st == Thrown || (r.st == More && Astray(r.state, fut')))
  {
    hide AllUntagged, HasEmpty;
    var p1 := Accept(p, chunk);
    if p1.pend == [] {
      assert fut' == fut[|chunk|..];
      assert Drain(p1, stale, 0) == Drained(More, p1, []);
    } else {
      assert p1.pend[0] == fut[p.skip];
      AstrayStops(p1, stale(0));
      hide ParseOne;
    }
  }

  lemma {:induction false} RunAstray(p: PState, fut: Bytes, fut': Bytes, chunks: seq<Bytes>, stales: seq<Stale>)
    requires Astray(p, fut) && |chunks| == |stales| && Concat(chunks) + fut' == fut
    ensures Run(p, chunks, stales).out == []
    decreases |chunks|
  {
    hide Feed, Astray;
    if chunks != [] {
      var mid := Concat(chunks[1..]) + fut';
      assert chunks[0] + mid == fut;
      AstrayFeeds(p, fut, chunks[0], mid, stales[0]);
      var r := Feed(p, chunks[0], stales[0]);
      if r.st != Thrown {
        RunAstray(r.state, mid, fut', chunks[1..], stales[1..]);
      }
    }
  }

  // ---- runs

  predicate DrainSpent(r: Drained, budget: nat, ks': seq<Token>, fut: Bytes) {
    Weights(r.out) <= budget &&
    (r.st == More ==>
       Astray(r.state, fut) || (Standing(r.state, ks', fut) && Weights(r.out) + Budget(r.state, ks') <= budget))
  }

  lemma {:induction false} DrainTook(p: PState, ks: seq<Token>, fut: Bytes, stale: Stale, k: nat)
    returns (ks': seq<Token>)
    requires Standing(p, ks, fut)
    ensures DrainSpent(Drain(p, stale, k), Budget(p, ks), ks', fut)
    decreases |p.pend|, p.inc
  {
    hide Standing, Astray, Weight, Lives, ReadData, FillArray;
    var r := ParseOne(p, stale(k));
    var j := ParseTook(p, ks, fut, stale(k));
    ks' := ks[j..];
    if r.st == Done {
      ks' := DrainTook(r.state, ks[j..], fut, stale, k + 1);
      var rest := Drain(r.state, stale, k + 1);
      WeightsCons(r.state.resp, rest.out);
    }
  }

  lemma WeightsCons(t: RespData, ts: seq<RespData>)
    ensures Weights([t] + ts) == Weight(t) + Weights(ts)
  {
    assert ([t] + ts)[1..] == ts;
  }

  lemma StandingAccepts(p: PState, ks: seq<Token>, fut: Bytes, chunk: Bytes, fut': Bytes)
    requires Standing(p, ks, fut) && chunk + fut' == fut
    ensures Standing(Accept(p, chunk), ks, fut') && Budget(Accept(p, chunk), ks) == Budget(p, ks)
  {
    hide Stream, WfTokens, Untagged, Lives;
    if p.skip == 0 {
      assert (p.pend + chunk) + fut' == p.pend + fut;
    } else if p.skip <= |chunk| {
      DropConcat(chunk, fut', p.skip);
    } else {
      DropPast(chunk, fut', p.skip);
    }
  }

  /** Whatever the chunks, what is delivered weighs no more than the budget. */
  lemma {:induction false} RunTook(p: PState, ks: seq<Token>, fut: Bytes, fut': Bytes, chunks: seq<Bytes>,
                                   stales: seq<Stale>)
    requires Standing(p, ks, fut) && |chunks| == |stales| && Concat(chunks) + fut' == fut
    ensures Weights(Run(p, chunks, stales).out) <= Budget(p, ks)
    decreases |chunks|, 0
  {
    hide Standing, Astray, Weight, Lives, Drain, Budget;
    if chunks != [] {
      var mid := Concat(chunks[1..]) + fut';
      assert chunks[0] + mid == fut;
      StandingAccepts(p, ks, fut, chunks[0], mid);
      var ks' := DrainTook(Accept(p, chunks[0]), ks, mid, stales[0], 0);
      var r := Feed(p, chunks[0], stales[0]);
      if r.st == More {
        RunOn(r, Budget(p, ks), ks', mid, fut', chunks[1..], stales[1..]);
      } else {
        DrainEnds(Accept(p, chunks[0]), stales[0], 0);
      }
    }
  }

  lemma {:induction false} DrainEnds(p: PState, stale: Stale, k: nat)
    ensures Drain(p, stale, k).st != Done
    decreases |p.pend|, p.inc
  {
    hide ReadData, FillArray;
    var r := ParseOne(p, stale(k));
    if r.st == Done {
      DrainEnds(r.state, stale, k + 1);
    }
  }

  /** The rest of a run behind one chunk. */
  lemma {:induction false} RunOn(r: Drained, budget: nat, ks: seq<Token>, fut: Bytes, fut': Bytes, chunks: seq<Bytes>,
                                 stales: seq<Stale>)
    requires DrainSpent(r, budget, ks, fut) && r.st == More && |chunks| == |stales| && Concat(chunks) + fut' == fut
    ensures Weights(r.out + Run(r.state, chunks, stales).out) <= budget
    decreases |chunks|, 1
  {
    hide Standing, Astray, Weight, Lives, Drain, Budget, Run;
    var out := Run(r.state, chunks, stales).out;
    WeightsAppend(r.out, out);
    if Astray(r.state, fut) {
      RunAstray(r.state, fut, fut', chunks, stales);
      assert r.out + [] == r.out;
    } else {
      RunTook(r.state, ks, fut, fut', chunks, stales);
    }
  }
}

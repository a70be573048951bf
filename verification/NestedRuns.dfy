/** The exact condition for chunked streams of any nesting: a stop inside an entered array costs a token for
    good, so the replies can no longer all come out. */
module NestedRuns {
  import opened ByteStrings
  import opened Resp
  import opened ParserSpec
  import opened WholeReply
  import opened Stops
  import opened ParserMachine
  import opened Chunking
  import opened StreamRuns
  import opened Tokens
  import opened Counting
  import opened Budgets

  // ---- elements that are not all there

  lemma {:induction false} ReadShort(e: Reply, w: Bytes, rest: Bytes, s: char, t: RespData)
    requires Wf(e) && Ready(t, e) && w <= Enc(e) + rest && |w| < Need(e)
    ensures ReadData(w, s, t).st != Done
    decreases e, 0
  {
    hide ReadData, FillArray, FillElems, Enc;
    if w == [] {
      NothingTook([], [], s, t);
    } else if !e.Arr? {
      ScalarReads(e, w, rest, s);
      SlotIrrelevant(w, s, t, BLANK);
    } else if e.items == [] {
      EmptyArrayShort(w, rest, s, t);
    } else {
      HeadShort(e.items, w, rest, s);
      assert e == Arr(e.items);
    }
  }

  lemma EmptyArrayShort(w: Bytes, rest: Bytes, s: char, t: RespData)
    requires w != [] && w <= Enc(Arr([])) + rest && |w| < Need(Arr([]))
    ensures ReadData(w, s, t).st != Done
  {
    assert Enc(Arr([])) == ['*', '0', '\r', '\n'];
    assert w[0] == (Enc(Arr([])) + rest)[0];
  }

  lemma {:induction false} HeadShort(es: seq<Reply>, w: Bytes, rest: Bytes, s: char)
    requires Wf(Arr(es)) && es != [] && w != [] && w <= Enc(Arr(es)) + rest && |w| < Need(Arr(es))
    ensures ReadData(w, s, BLANK).st != Done
    decreases es, 2
  {
    hide ReadData, FillArray, FillElems, EncAll, Header, Dec, Avail;
    var n := |es|;
    ArrayBytes(es, rest);
    assert w <= Header(n) + (EncAll(es) + rest);
    var opens, c := HeaderReads(n, w, EncAll(es) + rest, s, BLANK);
    if opens {
      var u := if |w| >= |Dec(n)| + 2 then |Dec(n)| + 3 else |w| + 2;
      var x := Skip(w, u);
      OpenedSlots(BLANK, c);
      FillArrayCases(Opened(BLANK, c), x, s);
      if x != [] {
        WholeAhead(Header(n), EncAll(es) + rest, w);
        NeedOfArray(Arr(es), |x|);
        FreshSlots(es);
        assert AllWf(es);
        FillShort(es, Resize([], n), x, rest, s);
      }
    }
  }

  /** The element loop does not finish before the elements have come. */
  lemma {:induction false} FillShort(es: seq<Reply>, ts: seq<RespData>, w: Bytes, tail: Bytes, s: char)
    requires AllWf(es) && |ts| == |es| && AllReady(ts, es) && w <= EncAll(es) + tail && Avail(es, |w|) < |es|
    ensures FillElems(ts, w, s).st != Done
    decreases es, 1
  {
    hide ReadData, FillElems, Enc, Val, Ready, AllReady, EndsBlank;
    var e, rest := es[0], EncAll(es[1..]) + tail;
    assert e in es;
    assert EncAll(es) + tail == Enc(e) + rest;
    FirstReady(ts, es);
    FillCons(ts, w, s);
    if |w| >= Need(e) {
      WholeAhead(Enc(e), rest, w);
      ReadWhole(e, w[|Enc(e)|..], s, ts[0]);
      FillShort(es[1..], ts[1..], w[|Enc(e)|..], tail, s);
    } else {
      ReadShort(e, w, rest, s, ts[0]);
    }
  }

  // ---- the token an entered array costs

  /** An array that has been entered has used bytes. */
  lemma EnteredUses(es: seq<Reply>, w: Bytes, rest: Bytes, s: char)
    requires Wf(Arr(es)) && es != [] && w <= Enc(Arr(es)) + rest && Entered(Arr(es), |w|, s)
    ensures ReadData(w, s, BLANK).used > 0
  {
    hide ReadData, FillArray, EncAll, Header, Dec;
    ArrayBytes(es, rest);
    var opens, c := HeaderReads(|es|, w, EncAll(es) + rest, s, BLANK);
  }

  lemma ReadyWeighNothing(ts: seq<RespData>, es: seq<Reply>)
    requires |ts| == |es| && AllReady(ts, es)
    ensures Weights(ts) == 0 && AllUntagged(ts)
  {
    forall t | t in ts
      ensures Unfilled(t) && Untagged(t)
    {
      var i :| 0 <= i < |ts| && ts[i] == t;
      assert Ready(ts[i], es[i]);
    }
    BlankWeights(ts);
  }

  /** The outcome of an element loop that cannot finish: it throws, is astray, or waits with at least `spare`
      less to show than the tokens consumed. */
  predicate Lacking(r: Fill, w: Bytes, fut: Bytes, ks: seq<Token>, j: nat, spare: nat) {
    j <= |ks| &&
    match r.st
    case Thrown => true
    case Done => false
    case More =>
      AllUntagged(r.es) && HasEmpty(r.es) &&
      (Off(w, fut, r.used) || (Behind(w, fut, r.used, ks[j..]) && Lives(r.es) + spare <= j))
  }

  lemma RestLacks(es: seq<Reply>, ts: seq<RespData>, w: Bytes, fut: Bytes, kt: seq<Token>, s: char) returns (j: nat)
    requires AllWf(es) && WfTokens(kt) && |ts| == |es| && AllReady(ts, es)
    requires w + fut == EncAll(es) + Stream(kt) && Avail(es, |w|) < |es|
    ensures Lacking(FillElems(ts, w, s), w, fut, AllTokens(es) + kt, j, 0)
  {
    hide FillElems, EncAll, Stream, AllReady, WfToken, Behind, Off, HasEmpty, Avail;
    AllTokensStream(es);
    StreamAppend(AllTokens(es), kt);
    ReadyWeighNothing(ts, es);
    WfJoin(AllTokens(es), kt);
    j := FillTook(ts, w, fut, AllTokens(es) + kt, s);
    PrefixOfConcat(w, fut, EncAll(es) + Stream(kt));
    FillShort(es, ts, w, Stream(kt), s);
  }

  /** The first element is an array that has been entered. */
  lemma EnteredLacks(e: Reply, ts: seq<RespData>, w: Bytes, fut: Bytes, ks: seq<Token>, rest: Bytes, s: char)
    returns (j: nat)
    requires Wf(e) && ts != [] && Ready(ts[0], e) && Weights(ts) == 0 && AllUntagged(ts) && WfTokens(ks)
    requires w + fut == Enc(e) + rest == Stream(ks) && |w| < Need(e) && Entered(e, |w|, s)
    ensures Lacking(FillElems(ts, w, s), w, fut, ks, j, 1)
  {
    hide ReadData, FillElems, Enc, Stream, Took, Entered, WfToken, Off, Behind;
    var t, o := ts[0], ReadData(w, s, ts[0]);
    PrefixOfConcat(w, fut, Enc(e) + rest);
    assert t in ts;
    EnteredArray(e, |w|, s);
    FillCons(ts, w, s);
    ReadShort(e, w, rest, s, t);
    j := ReadTook(w, fut, ks, s, t);
    assert e == Arr(e.items) && t == BLANK;
    EnteredUses(e.items, w, rest, s);
    EnteredCosts(o, w, fut, ks, j);
    OneUnfinished(o, ts, w, fut, ks, j);
  }

  lemma EnteredArray(e: Reply, q: nat, s: char)
    requires Wf(e) && Entered(e, q, s) && q < Need(e)
    ensures e.Arr? && e.items != []
  {
    assert |Enc(Arr([]))| == 4;
  }

  /** Bytes used without a token would not add up. */
  lemma EnteredCosts(o: Outcome, w: Bytes, fut: Bytes, ks: seq<Token>, j: nat)
    requires w + fut == Stream(ks) && Took(o, BLANK, w, fut, ks, j) && o.st != Done && o.used > 0
    ensures j <= |ks|
    ensures o.st == More ==>
              Untagged(o.t) && o.t.kind == Empty &&
              (Off(w, fut, o.used) || (Behind(w, fut, o.used, ks[j..]) && Live(o.t) + 1 <= j))
  {
    hide Stream, Weight, Untagged;
    BlankUntagged();
    if j == 0 {
      assert ks[0..] == ks;
      assert |w + fut| == |w| + |fut|;
    }
  }

  lemma OneUnfinished(o: Outcome, ts: seq<RespData>, w: Bytes, fut: Bytes, ks: seq<Token>, j: nat)
    requires ts != [] && Weights(ts) == 0 && AllUntagged(ts) && o.st != Done && j <= |ks|
    requires o.st == More ==>
               Untagged(o.t) && o.t.kind == Empty &&
               (Off(w, fut, o.used) || (Behind(w, fut, o.used, ks[j..]) && Live(o.t) + 1 <= j))
    ensures Lacking(Fill(o.st, [o.t] + ts[1..], o.used, o.inc), w, fut, ks, j, 1)
  {
    hide Off, Behind, Weight, Live, Untagged;
    EmptyBehind(o.t, ts[1..]);
    assert ([o.t] + ts[1..])[1..] == ts[1..];
  }

  /** An element is complete and the loop lacks something behind it; a complete array is itself in arrears. */
  lemma ThenLacking(e: Reply, r: Fill, w: Bytes, fut: Bytes, ks: seq<Token>, i: nat, spare: nat)
    requires |Enc(e)| <= |w| && Lacking(r, w[|Enc(e)|..], fut, ks, i, spare)
    ensures Lacking(Fill(r.st, [Val(e)] + r.es, |Enc(e)| + r.used, r.inc), w, fut, TokensOf(e) + ks, |TokensOf(e)| + i,
                    if e.Arr? then spare + 1 else spare)
  {
    hide Off, Val, Weight, Weights, Untagged, TokensOf, Stream, Enc;
    var k1 := TokensOf(e);
    EmptyBehind(Val(e), r.es);
    ValLives(e);
    assert ([Val(e)] + r.es)[1..] == r.es;
    assert (k1 + ks)[|k1| + i..] == ks[i..];
    OffBehind(w, fut, |Enc(e)|, r.used);
    assert r.used <= |w| - |Enc(e)| ==> w[|Enc(e)|..][r.used..] == w[|Enc(e)| + r.used..];
  }

  lemma OffBehind(w: Bytes, fut: Bytes, n: nat, used: nat)
    requires n <= |w|
    ensures Off(w[n..], fut, used) == Off(w, fut, n + used)
  {
  }

  lemma ValLives(e: Reply)
    ensures Live(Val(e)) == |TokensOf(e)| - (if e.Arr? then 1 else 0) && Untagged(Val(e))
  {
    ValWeight(e);
    ValUntagged(e);
  }

  lemma {:induction false} ValUntagged(e: Reply)
    ensures Untagged(Val(e))
    decreases e
  {
    if e.Arr? {
      forall t | t in Val(e).ares
        ensures Untagged(t)
      {
        var i :| 0 <= i < |e.items| && Vals(e.items)[i] == t;
        ValsAt(e.items, i);
        ValUntagged(e.items[i]);
      }
    }
  }

  /** With some element array complete or entered, the loop waits with less to show than the tokens consumed. */
  lemma {:induction false} FillNested(es: seq<Reply>, ts: seq<RespData>, w: Bytes, fut: Bytes, kt: seq<Token>, s: char)
    returns (j: nat)
    requires AllWf(es) && WfTokens(kt) && |ts| == |es| && AllReady(ts, es)
    requires w + fut == EncAll(es) + Stream(kt) && Avail(es, |w|) < |es| && Touched(es, |w|, s)
    ensures Lacking(FillElems(ts, w, s), w, fut, AllTokens(es) + kt, j, 1)
    decreases |es|
  {
    hide ReadData, FillElems, Enc, EncAll, Val, Ready, AllReady, EndsBlank, Need, Lacking, Entered, Stream, TokensOf,
      AllTokens, WfToken, Wf, Avail, Touched;
    var e, rest := es[0], EncAll(es[1..]) + Stream(kt);
    var k1, k2 := TokensOf(e), AllTokens(es[1..]) + kt;
    FirstOfAll(es, kt);
    TouchedFirst(es, |w|, s);
    PrefixOfConcat(w, fut, Enc(e) + rest);
    FirstReady(ts, es);
    if |w| < Need(e) {
      ReadyWeighNothing(ts, es);
      j := EnteredLacks(e, ts, w, fut, AllTokens(es) + kt, rest, s);
    } else {
      var w' := w[|Enc(e)|..];
      FillCons(ts, w, s);
      NeedIs(e);
      WholeAhead(Enc(e), rest, w);
      ReadWhole(e, w', s, ts[0]);
      SplitHere(w, fut, Enc(e), rest);
      var r := FillElems(ts[1..], w', s);
      if e.Arr? {
        var i := RestLacks(es[1..], ts[1..], w', fut, kt, s);
        ThenLacking(e, r, w, fut, k2, i, 0);
        j := |k1| + i;
      } else {
        var i := FillNested(es[1..], ts[1..], w', fut, kt, s);
        ThenLacking(e, r, w, fut, k2, i, 1);
        j := |k1| + i;
      }
    }
  }

  lemma NeedIs(e: Reply)
    ensures Need(e) == |Enc(e)| + if EndsBlank(e) then 1 else 0
  {
  }

  lemma TouchedFirst(es: seq<Reply>, n: nat, s: char)
    requires es != [] && Avail(es, n) < |es| && Touched(es, n, s)
    ensures if n < Need(es[0]) then Entered(es[0], n, s)
            else
              |Enc(es[0])| <= n && Avail(es[1..], n - |Enc(es[0])|) < |es[1..]|
              && (es[0].Arr? || Touched(es[1..], n - |Enc(es[0])|, s))
  {
    hide Enc, EndsBlank, Entered;
  }

  /** The elements and what follows them, as bytes and as tokens, from the first element on. */
  lemma FirstOfAll(es: seq<Reply>, kt: seq<Token>)
    requires AllWf(es) && es != [] && WfTokens(kt)
    ensures Wf(es[0]) && AllWf(es[1..])
    ensures EncAll(es) + Stream(kt) == Enc(es[0]) + (EncAll(es[1..]) + Stream(kt)) == Stream(AllTokens(es) + kt)
    ensures AllTokens(es) + kt == TokensOf(es[0]) + (AllTokens(es[1..]) + kt) && WfTokens(AllTokens(es) + kt)
  {
    hide Enc, Stream, TokensOf, WfToken, Wf;
    assert es[0] in es;
    AllTokensStream(es);
    StreamAppend(AllTokens(es), kt);
    WfJoin(AllTokens(es), kt);
    assert EncAll(es) + Stream(kt) == Enc(es[0]) + (EncAll(es[1..]) + Stream(kt));
  }

  lemma WfJoin(a: seq<Token>, b: seq<Token>)
    requires WfTokens(a) && WfTokens(b)
    ensures WfTokens(a + b)
  {
  }

  // ---- the call at a nested stop

  /** A call leaves less than a budget of the replies' tokens, or nothing more to come. */
  predicate Wanting(r: Parsed, ks: seq<Token>, fut: Bytes, total: nat) {
    match r.st
    case Thrown => true
    case Done => false
    case More => Astray(r.state, fut) || (Standing(r.state, ks, fut) && Budget(r.state, ks) < total)
  }

  lemma ReplyAhead(p: PState, rs: seq<Reply>, fut: Bytes)
    requires Idle(p, rs, fut) && rs != [] && AllWf(rs) && rs[0].Arr? && |p.pend| >= HeaderLen(rs[0])
    ensures var es, x := rs[0].items, p.pend[HeaderLen(rs[0])..];
            p.pend == Header(|es|) + x && |Header(|es|)| == HeaderLen(rs[0])
            && x + fut == EncAll(es) + Stream(AllTokens(rs[1..]))
            && WfTokens(AllTokens(rs[1..])) && Wf(Arr(es)) && AllWf(es)
  {
    hide Stream, AllTokens, Header;
    var es := rs[0].items;
    assert rs[0] == Arr(es) && rs[0] in rs;
    AllTokensStream(rs[1..]);
    ArrayBytes(es, EncAll(rs[1..]));
    BodySplit(p.pend, fut, |es|, EncAll(es) + EncAll(rs[1..]));
  }

  lemma NothingTouched(es: seq<Reply>, s: char)
    ensures !Touched(es, 0, s) && Avail(es, 0) == 0
  {
  }

  lemma HeaderFirst(p: PState, ts: seq<RespData>, x: Bytes, s: char)
    requires 1 <= |ts| <= VECTOR_MAX && ts == Resize([], |ts|) && x != []
    requires !p.inc && p.skip == 0 && p.pend == Header(|ts|) + x
    ensures var f := FillElems(ts, x, s);
            ParseOne(p, s) == Parsed(f.st, Advance(p, |Header(|ts|)| + f.used)
                                     .(inc := f.inc || f.st == More, resp := BLANK.(ares := f.es)))
  {
    hide FillElems, ReadData, FillArray, Resize, Header;
    ReadHeader(|ts|, x, s);
    FillArrayCases(BLANK.(ares := ts), x, s);
  }

  lemma BehindShift(w: Bytes, fut: Bytes, n: nat, used: nat, rest: seq<Token>)
    requires n <= |w|
    ensures Behind(w[n..], fut, used, rest) == Behind(w, fut, n + used, rest)
  {
    assert used <= |w| - n ==> w[n..][used..] == w[n + used..];
  }

  /** What an element loop that lacks something makes of the parser's state; slots of weight `before` stand in
      front of the loop's. */
  lemma LackingWants(p: PState, n: nat, f: Fill, t: RespData, before: nat, fut: Bytes, ks: seq<Token>, j: nat)
    requires p.skip == 0 && n <= |p.pend| && Lacking(f, p.pend[n..], fut, ks, j, 1) && WfTokens(ks)
    requires t == BLANK.(ares := t.ares)
    requires f.st == More ==> AllUntagged(t.ares) && HasEmpty(t.ares) && Lives(t.ares) <= before + Lives(f.es)
    ensures Wanting(Parsed(f.st, Advance(p, n + f.used).(inc := true, resp := t)), ks[j..], fut, 1 + before + |ks|)
  {
    hide Lives, HasEmpty, Stream, Behind, WfToken;
    if f.st == More {
      EmptyIsThere(t.ares);
      BehindShift(p.pend, fut, n, f.used, ks[j..]);
      OffBehind(p.pend, fut, n, f.used);
      WfRest(ks, j);
      if Behind(p.pend, fut, n + f.used, ks[j..]) {
        AdvanceStands(p, n + f.used, fut, ks[j..]);
      }
    }
  }

  lemma TokensOfArray(rs: seq<Reply>)
    requires rs != [] && rs[0].Arr? && rs[0].items != []
    ensures |AllTokens(rs)| == 1 + |AllTokens(rs[0].items) + AllTokens(rs[1..])|
  {
  }

  /** From the reply's first byte. */
  lemma NestedStart(p: PState, rs: seq<Reply>, fut: Bytes, s: char) returns (ks: seq<Token>)
    requires Idle(p, rs, fut) && rs != [] && AllWf(rs) && NestedStop(rs[0], |p.pend|, s)
    ensures Wanting(ParseOne(p, s), ks, fut, |AllTokens(rs)|)
  {
    hide ParseOne, Enc, EncAll, Header, Avail, Touched, AllTokens, FillElems, Stream, WfTokens, Wanting, AllReady,
      Lacking, Resize;
    var v, kt := rs[0], AllTokens(rs[1..]);
    var es := v.items;
    ReplyAhead(p, rs, fut);
    var x := p.pend[HeaderLen(v)..];
    NothingTouched(es, s);
    FreshSlots(es);
    var ts := Resize([], |es|);
    assert es != [];
    var j := FillNested(es, ts, x, fut, kt, s);
    var k := AllTokens(es) + kt;
    WfJoinAll(es, kt);
    HeaderFirst(p, ts, x, s);
    var f := FillElems(ts, x, s);
    TokensOfArray(rs);
    LackingFacts(f, x, fut, k, j);
    ks := k[j..];
    LackingWants(p, HeaderLen(v), f, BLANK.(ares := f.es), 0, fut, k, j);
    WantingFlag(ParseOne(p, s),
                Parsed(f.st, Advance(p, HeaderLen(v) + f.used).(inc := true, resp := BLANK.(ares := f.es))), ks, fut,
                |AllTokens(rs)|);
  }

  lemma WfJoinAll(es: seq<Reply>, kt: seq<Token>)
    requires AllWf(es) && WfTokens(kt)
    ensures WfTokens(AllTokens(es) + kt)
  {
    AllTokensStream(es);
    WfJoin(AllTokens(es), kt);
  }

  lemma LackingFacts(f: Fill, w: Bytes, fut: Bytes, ks: seq<Token>, j: nat)
    requires Lacking(f, w, fut, ks, j, 1)
    ensures j <= |ks| && f.st != Done && (f.st == More ==> AllUntagged(f.es) && HasEmpty(f.es))
  {
  }

  /** The flag matters only in a state that waits. */
  lemma WantingFlag(r: Parsed, r': Parsed, ks: seq<Token>, fut: Bytes, total: nat)
    requires Wanting(r', ks, fut, total) && r.st == r'.st && (r.st == More ==> r == r')
    ensures Wanting(r, ks, fut, total)
  {
  }

  /** From inside the array. */
  lemma NestedResume(p: PState, rs: seq<Reply>, fut: Bytes, m: nat, n: nat, s: char) returns (ks: seq<Token>)
    requires InArray(p, rs, fut, m) && AllWf(rs) && p.pend != [] && n == PrefixLen(rs[0].items, m) + |p.pend|
    requires Avail(rs[0].items, n) < |rs[0].items| && Touched(rs[0].items, n, s)
    ensures Wanting(ParseOne(p, s), ks, fut, |AllTokens(rs)|)
  {
    hide ParseOne, EncAll, Avail, Touched, AllTokens, FillElems, Stream, WfTokens, Wanting, AllReady, Lacking, Vals,
      PrefixLen;
    var es, kt, ts := rs[0].items, AllTokens(rs[1..]), p.resp.ares;
    ArrayWf(rs);
    AllTokensStream(rs[1..]);
    AvailSplit(es, m, |p.pend|, s);
    var j := FillNested(es[m..], ts[m..], p.pend, fut, kt, s);
    var k := AllTokens(es[m..]) + kt;
    WfJoinAll(es[m..], kt);
    FillSkips(es, ts, m, p.pend, s);
    var f := FillElems(ts[m..], p.pend, s);
    LackingFacts(f, p.pend, fut, k, j);
    ks := k[j..];
    var t := BLANK.(ares := ts[..m] + f.es);
    FrontSlots(es, ts, m, f.es);
    assert p.pend[0..] == p.pend;
    LackingWants(p, 0, f, t, |AllTokens(es[..m])|, fut, k, j);
    FillArrayCases(p.resp, p.pend, s);
    TokensOfArray(rs);
    AllTokensAppend(es[..m], es[m..]);
    assert es[..m] + es[m..] == es;
    ResumeWants(p, f, t, s);
    WantingFlag(ParseOne(p, s), Parsed(f.st, Advance(p, f.used).(inc := true, resp := t)), ks, fut, |AllTokens(rs)|);
  }

  lemma ArrayWf(rs: seq<Reply>)
    requires rs != [] && AllWf(rs) && rs[0].Arr?
    ensures AllWf(rs[0].items) && AllWf(rs[1..]) && forall m :: 0 <= m <= |rs[0].items| ==> AllWf(rs[0].items[m..])
  {
    assert rs[0] in rs;
  }

  lemma ResumeWants(p: PState, f: Fill, t: RespData, s: char)
    requires p.inc && p.pend != [] && f.st != Done
    requires FillArray(p.resp, p.pend, s).st == f.st && FillArray(p.resp, p.pend, s).used == f.used
    requires FillArray(p.resp, p.pend, s).t == t
    ensures ParseOne(p, s) == Parsed(f.st, Advance(p, f.used).(inc := true, resp := t))
  {
    hide FillArray;
  }

  /** Finished scalars stand in front. */
  lemma FrontSlots(es: seq<Reply>, ts: seq<RespData>, m: nat, us: seq<RespData>)
    requires Partial(ts, es, m)
    ensures Lives(ts[..m] + us) <= |AllTokens(es[..m])| + Lives(us)
    ensures AllUntagged(us) ==> AllUntagged(ts[..m] + us)
    ensures HasEmpty(us) ==> HasEmpty(ts[..m] + us)
  {
    hide Vals, Lives, Weights, AllReady, Untagged;
    WeightsAppend(ts[..m], us);
    ValsWeight(es[..m]);
    forall t | t in ts[..m]
      ensures Untagged(t)
    {
      var i :| 0 <= i < m && Vals(es[..m])[i] == t;
      ValsAt(es[..m], i);
      ValUntagged(es[i]);
    }
    if i :| 0 <= i < |us| && us[i].kind == Empty {
      assert (ts[..m] + us)[m + i].kind == Empty;
    }
  }

  // ---- runs

  /** A call at a nested stop ends the draining. */
  lemma WantingDrain(p: PState, stale: Stale, k: nat, ks: seq<Token>, fut: Bytes, total: nat)
    requires Wanting(ParseOne(p, stale(k)), ks, fut, total) && total > 0
    ensures DrainSpent(Drain(p, stale, k), total - 1, ks, fut)
  {
    hide ParseOne, Standing, Astray;
    var r := ParseOne(p, stale(k));
    assert Drain(p, stale, k) == Drained(r.st, r.state, []);
  }

  lemma {:induction false} DrainNested(p: PState, rs: seq<Reply>, fut: Bytes, n: nat, stale: Stale, k: nat, last: nat)
    returns (ks: seq<Token>)
    requires Idle(p, rs, fut) && AllWf(rs) && n == |p.pend| && last == k + Avail(rs, n)
    requires NestedCut(rs, n, stale(last))
    ensures AllTokens(rs) != [] && DrainSpent(Drain(p, stale, k), |AllTokens(rs)| - 1, ks, fut)
    decreases |rs|
  {
    hide DrainSpent, NestedStop, Enc, ReadData, FillArray, Need, TokensOf, Wanting, Idle;
    NestedCutShape(rs, n, stale(last));
    if n >= Need(rs[0]) {
      ParseComplete(p, rs, fut, stale(k));
      CutShift(rs, n, n - |Enc(rs[0])|);
      var r := ParseOne(p, stale(k));
      IdleLength(p, r.state, rs, fut);
      ks := DrainNested(r.state, rs[1..], fut, n - |Enc(rs[0])|, stale, k + 1, last);
      var rest := Drain(r.state, stale, k + 1);
      assert Drain(p, stale, k) == rest.(out := [Val(rs[0])] + rest.out);
      DeliveredSpent(rest, rs, ks, fut);
    } else {
      assert last == k;
      ks := NestedStart(p, rs, fut, stale(k));
      WantingDrain(p, stale, k, ks, fut, |AllTokens(rs)|);
    }
  }

  lemma IdleLength(p: PState, p': PState, rs: seq<Reply>, fut: Bytes)
    requires Idle(p, rs, fut) && rs != [] && Idle(p', rs[1..], fut)
    ensures |p'.pend| == |p.pend| - |Enc(rs[0])|
  {
    hide Enc;
    assert |p.pend + fut| == |p.pend| + |fut| && |p'.pend + fut| == |p'.pend| + |fut|;
  }

  lemma NestedCutShape(rs: seq<Reply>, n: nat, s: char)
    requires NestedCut(rs, n, s)
    ensures rs != [] && AllTokens(rs) != [] && (n < Need(rs[0]) ==> Avail(rs, n) == 0 && NestedStop(rs[0], n, s))
  {
    hide NestedStop, Need;
  }

  lemma DeliveredSpent(rest: Drained, rs: seq<Reply>, ks: seq<Token>, fut: Bytes)
    requires rs != [] && AllTokens(rs[1..]) != [] && DrainSpent(rest, |AllTokens(rs[1..])| - 1, ks, fut)
    ensures DrainSpent(rest.(out := [Val(rs[0])] + rest.out), |AllTokens(rs)| - 1, ks, fut)
  {
    hide Standing, Astray, Budget, Weight, Weights, Val, TokensOf;
    WeightsCons(Val(rs[0]), rest.out);
    ValWeight(rs[0]);
    assert |AllTokens(rs)| == |TokensOf(rs[0])| + |AllTokens(rs[1..])|;
  }

  /** A chunk that ends at a nested stop, from a waiting parser. */
  lemma FeedNested(p: PState, rs: seq<Reply>, fut: Bytes, chunk: Bytes, fut': Bytes, n: nat, d: nat, stale: Stale)
    returns (ks: seq<Token>)
    requires Waiting(p, rs, fut) && AllWf(rs) && chunk != [] && chunk + fut' == fut
    requires n == Received(rs, fut') && d == Avail(rs, n) && NestedCut(rs, n, stale(d))
    ensures AllTokens(rs) != [] && DrainSpent(Feed(p, chunk, stale), |AllTokens(rs)| - 1, ks, fut')
  {
    hide Drain, DrainSpent, NestedCut, InElements, EncAll, Progress, AllTokens, Avail;
    var p1 := Accept(p, chunk);
    if Idle(p, rs, fut) {
      assert p1.pend + fut' == p.pend + fut;
      assert |p1.pend + fut'| == |p1.pend| + |fut'|;
      ks := DrainNested(p1, rs, fut', n, stale, 0, d);
    } else {
      var m := Progress(rs[0], Received(rs, fut));
      AcceptElements(p, rs[0].items, EncAll(rs[1..]), fut, m, chunk, fut');
      ElementsReceived(p1, rs, fut', m, n);
      ks := DrainInside(p1, rs, fut', m, n, d, stale);
    }
  }

  lemma DrainInside(p: PState, rs: seq<Reply>, fut: Bytes, m: nat, n: nat, d: nat, stale: Stale)
    returns (ks: seq<Token>)
    requires InArray(p, rs, fut, m) && AllWf(rs) && n == Received(rs, fut) && d == Avail(rs, n)
    requires NestedCut(rs, n, stale(d))
    ensures AllTokens(rs) != [] && DrainSpent(Drain(p, stale, 0), |AllTokens(rs)| - 1, ks, fut)
  {
    hide Drain, DrainSpent, ParseOne, InElements, EncAll, AllTokens, NestedCut, Avail, PrefixLen, Wanting, Received;
    var es := rs[0].items;
    InsideBounds(p, rs, fut, m);
    ElementsReceived(p, rs, fut, m, n);
    NestedCutShape(rs, n, stale(d));
    PastHeader(p, rs, fut, m, n, stale(d));
    var q := PrefixLen(es, m) + |p.pend|;
    NeedOfArray(rs[0], q);
    ArrayWf(rs);
    if n >= Need(rs[0]) {
      ParseElements(p, es, EncAll(rs[1..]), fut, m, q, stale(0));
      var r := ParseOne(p, stale(0));
      ElementsDone(r, rs, fut, q, stale(0));
      CutShift(rs, n, n - |Enc(rs[0])|);
      ReceivedRest(r.state, rs, fut, n);
      ks := DrainNested(r.state, rs[1..], fut, n - |Enc(rs[0])|, stale, 1, d);
      DrainFirst(p, stale, rs, r.state);
      DeliveredSpent(Drain(r.state, stale, 1), rs, ks, fut);
    } else {
      ks := NestedResume(p, rs, fut, m, q, stale(0));
      WantingDrain(p, stale, 0, ks, fut, |AllTokens(rs)|);
    }
  }

  /** At a nested stop the header is behind and there are new bytes to look at. */
  lemma PastHeader(p: PState, rs: seq<Reply>, fut: Bytes, m: nat, n: nat, s: char)
    requires InArray(p, rs, fut, m) && NestedCut(rs, n, s)
    requires if p.skip > 0 then n == HeaderLen(rs[0]) - p.skip
             else n == HeaderLen(rs[0]) + PrefixLen(rs[0].items, m) + |p.pend|
    ensures p.skip == 0 && p.pend != [] && rs[0].items != []
    ensures n < Need(rs[0]) ==> Touched(rs[0].items, PrefixLen(rs[0].items, m) + |p.pend|, s)
  {
    hide Partial, EncAll, Avail, Touched, PrefixLen, Need;
    var es := rs[0].items;
    InsideBounds(p, rs, fut, m);
    if p.skip > 0 {
      NotYet(rs, n);
      HeaderNotNested(rs, n, s);
    } else {
      NestedCutShape(rs, n, s);
      NeedOfArray(rs[0], PrefixLen(es, m) + |p.pend|);
      AvailSplit(es, m, |p.pend|, s);
      NothingTouched(es[m..], s);
    }
  }

  lemma HeaderNotNested(rs: seq<Reply>, n: nat, s: char)
    requires rs != [] && rs[0].Arr? && n < HeaderLen(rs[0]) && Avail(rs, n) == 0
    ensures !NestedCut(rs, n, s)
  {
    assert PrefixLen(rs, 0) == 0;
  }

  lemma ReceivedRest(p: PState, rs: seq<Reply>, fut: Bytes, n: nat)
    requires rs != [] && Idle(p, rs[1..], fut) && n == Received(rs, fut)
    ensures |p.pend| == n - |Enc(rs[0])|
  {
    hide Enc;
    assert |p.pend + fut| == |p.pend| + |fut|;
  }

  lemma DrainFirst(p: PState, stale: Stale, rs: seq<Reply>, p': PState)
    requires rs != [] && ParseOne(p, stale(0)) == Parsed(Done, p') && p'.resp == Val(rs[0])
    ensures var rest := Drain(p', stale, 1); Drain(p, stale, 0) == rest.(out := [Val(rs[0])] + rest.out)
  {
    hide ParseOne;
  }

  lemma SuffixTokens(rs: seq<Reply>, d0: nat, d: nat)
    requires d0 <= d <= |rs|
    ensures |AllTokens(rs[d0..])| == |AllTokens(rs[d0..d])| + |AllTokens(rs[d..])|
    ensures d < |rs| ==> |AllTokens(rs[d..])| > 0
  {
    assert rs[d0..] == rs[d0..d] + rs[d..];
    AllTokensAppend(rs[d0..d], rs[d..]);
  }

  /** The chunk ends at a nested stop: from here on too few tokens are left. */
  lemma NestedHere(p: PState, rs: seq<Reply>, d0: nat, n0: nat, fut: Bytes, fut': Bytes, n: nat,
                   chunks: seq<Bytes>, stales: seq<Stale>)
    requires AllWf(rs) && chunks != [] && |chunks| == |stales| && chunks[0] != []
    requires d0 == Avail(rs, n0) && n0 == Received(rs, fut) && n == n0 + |chunks[0]|
    requires Waiting(p, rs[d0..], fut) && Concat(chunks) + fut' == fut
    requires NestedCut(rs, n, LastStale(rs, n0, n, stales[0]))
    ensures Weights(Run(p, chunks, stales).out) < |AllTokens(rs[d0..])|
  {
    hide Feed, Waiting, NestedCut, Vals, EncAll, Avail, PrefixLen, AllTokens, DrainSpent, Weights;
    var mid := Concat(chunks[1..]) + fut';
    assert chunks[0] + mid == fut;
    AvailPrefix(rs, d0, n0, n);
    CutSuffix(rs, d0, n);
    ReceivedFrom(rs, d0, mid);
    var k, e := n - PrefixLen(rs, d0), Avail(rs, n) - d0;
    var ks := FeedNested(p, rs[d0..], fut, chunks[0], mid, k, e, stales[0]);
    var r := Feed(p, chunks[0], stales[0]);
    RunFirst(p, chunks, stales);
    if r.st == More {
      RunOn(r, |AllTokens(rs[d0..])| - 1, ks, mid, fut', chunks[1..], stales[1..]);
    } else {
      SpentWeighs(r, |AllTokens(rs[d0..])| - 1, ks, mid);
      FeedEnds(p, chunks[0], stales[0]);
    }
  }

  lemma FeedEnds(p: PState, chunk: Bytes, stale: Stale)
    ensures Feed(p, chunk, stale).st != Done
  {
    DrainEnds(Accept(p, chunk), stale, 0);
  }

  lemma SpentWeighs(r: Drained, budget: nat, ks: seq<Token>, fut: Bytes)
    requires DrainSpent(r, budget, ks, fut)
    ensures Weights(r.out) <= budget
  {
  }

  lemma RunFirst(p: PState, chunks: seq<Bytes>, stales: seq<Stale>)
    requires chunks != [] && |chunks| == |stales|
    ensures var r := Feed(p, chunks[0], stales[0]);
            Run(p, chunks, stales).out
            == if r.st == Thrown then r.out else r.out + Run(r.state, chunks[1..], stales[1..]).out
  {
    hide Feed;
  }

  /** A run with a bad or nested stop delivers less than the stream holds. */
  lemma {:induction false} RunShort(p: PState, rs: seq<Reply>, d0: nat, n0: nat, fut: Bytes, fut': Bytes,
                                    chunks: seq<Bytes>, stales: seq<Stale>)
    requires AllWf(rs) && |chunks| == |stales| && (forall c :: c in chunks ==> c != [])
    requires d0 == Avail(rs, n0) && n0 == Received(rs, fut)
    requires Waiting(p, rs[d0..], fut) && Concat(chunks) + fut' == fut
    requires BadRun(rs, n0, chunks, stales) || NestedRun(rs, n0, chunks, stales)
    ensures Weights(Run(p, chunks, stales).out) < |AllTokens(rs[d0..])|
    decreases |chunks|
  {
    hide Feed, Waiting, Doomed, BadCut, NestedCut, Vals, EncAll, Avail, PrefixLen, AllTokens, Weights, Run;
    var chunk := chunks[0];
    assert chunk in chunks;
    var n, mid := n0 + |chunk|, Concat(chunks[1..]) + fut';
    assert chunk + mid == fut;
    var s := LastStale(rs, n0, n, stales[0]);
    if NestedCut(rs, n, s) {
      NestedHere(p, rs, d0, n0, fut, fut', n, chunks, stales);
    } else {
      AvailPrefix(rs, d0, n0, n);
      var d := Avail(rs, n);
      RunChunk(p, rs, d0, n0, d, n, fut, chunk, mid, stales[0]);
      var r := Feed(p, chunk, stales[0]);
      RunFirst(p, chunks, stales);
      SuffixTokens(rs, d0, d);
      ValsWeight(rs[d0..d]);
      if BadCut(rs, n, s) {
        BadCutShort(rs, n, s);
        if r.st != Thrown {
          RunDoomed(r.state, mid, fut', chunks[1..], stales[1..]);
          assert r.out + [] == r.out;
        }
      } else {
        assert forall c :: c in chunks[1..] ==> c in chunks;
        RunShort(r.state, rs, d, n, mid, fut', chunks[1..], stales[1..]);
        WeightsAppend(r.out, Run(r.state, chunks[1..], stales[1..]).out);
      }
    }
  }

  lemma BadCutShort(rs: seq<Reply>, n: nat, s: char)
    requires BadCut(rs, n, s)
    ensures Avail(rs, n) < |rs|
  {
  }

  /** MAIN RESULT. The exact condition, for replies of any nesting: a stream, cut into non-empty chunks in any
      way, with any leftover bytes, comes out of the parser as exactly its replies if and only if its last line
      is not an empty simple string or error, no chunk ends at a bad stop, and none inside an array nested in a
      reply whose length the parser has taken. */
  lemma AllDeliveredIff(rs: seq<Reply>, chunks: seq<Bytes>, stales: seq<Stale>)
    requires AllWf(rs) && |chunks| == |stales| && (forall c :: c in chunks ==> c != [])
    requires Concat(chunks) == EncAll(rs)
    ensures Run(FRESH, chunks, stales).out == Vals(rs) <==>
            Punctual(rs) && !BadRun(rs, 0, chunks, stales) && !NestedRun(rs, 0, chunks, stales)
  {
    hide Run, BadRun, NestedRun, EncAll, Vals, Avail, AllTokens, Weights, Punctual;
    AllArrived(rs);
    assert rs[..|rs|] == rs && rs[0..] == rs;
    if BadRun(rs, 0, chunks, stales) || NestedRun(rs, 0, chunks, stales) {
      FreshWaits(rs);
      assert Concat(chunks) + [] == EncAll(rs);
      RunShort(FRESH, rs, 0, 0, EncAll(rs), [], chunks, stales);
      ValsWeight(rs);
    } else {
      ChunkingInvariance(rs, chunks, stales);
    }
  }

  lemma FreshWaits(rs: seq<Reply>)
    ensures Waiting(FRESH, rs, EncAll(rs)) && Avail(rs, 0) == 0 && Received(rs, EncAll(rs)) == 0
  {
    assert [] + EncAll(rs) == EncAll(rs);
  }
}

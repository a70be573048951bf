/** Chunking: however the bytes of a stream of replies are cut, the resumable parser delivers what
    a decoder that sees the whole stream delivers, as long as no chunk ends at a bad stop. */
module Chunking {
  import opened ByteStrings
  import opened Resp
  import opened ParserSpec
  import opened WholeReply
  import opened Stops
  import opened ParserMachine

  /** The parser stands before the replies `rs`; `fut` has not arrived yet. */
  predicate Idle(p: PState, rs: seq<Reply>, fut: Bytes) {
    !p.inc && p.skip == 0 && p.pend + fut == EncAll(rs)
  }

  /** The parser is inside an array with elements `es`, the first m of them finished and all scalars;
      `tail` follows the array. */
  predicate InElements(p: PState, es: seq<Reply>, tail: Bytes, fut: Bytes, m: nat) {
    p.inc && m < |es| && !ArrayAmong(es, m) &&
    p.resp == BLANK.(ares := p.resp.ares) && Partial(p.resp.ares, es, m) &&
    if p.skip == 0 then
      p.pend + fut == EncAll(es[m..]) + tail && Avail(es, PrefixLen(es, m) + |p.pend|) >= m
    else
      m == 0 && p.pend == [] && p.skip <= 2 && fut == CRLF[2 - p.skip..] + EncAll(es) + tail
  }

  predicate InArray(p: PState, rs: seq<Reply>, fut: Bytes, m: nat) {
    rs != [] && rs[0].Arr? && InElements(p, rs[0].items, EncAll(rs[1..]), fut, m)
  }

  lemma InsideBounds(p: PState, rs: seq<Reply>, fut: Bytes, m: nat)
    requires InArray(p, rs, fut, m)
    ensures m < |rs[0].items| && HeaderLen(rs[0]) > 2 && p.skip <= 2
  {
  }

  /** A leftover carriage return was taken for the end of an array header: the next byte the parser
      looks at is a digit or line end, on which it throws. */
  predicate Doomed(p: PState, fut: Bytes) {
    p.inc && p.pend == [] && p.skip < |fut| && !IsTypeByte(fut[p.skip]) &&
    p.resp.ares != [] && p.resp.ares[0] == BLANK
  }

  /** Bytes of the replies `rs` that have arrived. */
  function Received(rs: seq<Reply>, fut: Bytes): int {
    |EncAll(rs)| - |fut|
  }

  function Progress(v: Reply, q: int): nat {
    if v.Arr? && q >= HeaderLen(v) then Avail(v.items, q - HeaderLen(v)) else 0
  }

  /** The parser between two chunks. */
  predicate Waiting(p: PState, rs: seq<Reply>, fut: Bytes) {
    Idle(p, rs, fut) || (rs != [] && InArray(p, rs, fut, Progress(rs[0], Received(rs, fut))))
  }

  // ---- lengths of prefixes

  lemma {:induction false} PrefixSplit(es: seq<Reply>, m: nat)
    requires m <= |es|
    ensures PrefixLen(es, m) + |EncAll(es[m..])| == |EncAll(es)|
    decreases m
  {
    if m == 0 {
      assert es[0..] == es;
    } else {
      PrefixSplit(es[1..], m - 1);
      assert es[1..][m - 1..] == es[m..];
    }
  }

  lemma {:induction false} PrefixAdd(es: seq<Reply>, m: nat, k: nat)
    requires m + k <= |es|
    ensures PrefixLen(es, m + k) == PrefixLen(es, m) + PrefixLen(es[m..], k)
    decreases m
  {
    if m == 0 {
      assert es[0..] == es;
    } else {
      PrefixAdd(es[1..], m - 1, k);
      assert es[1..][m - 1..] == es[m..];
    }
  }

  lemma {:induction false} UntouchedPrefix(es: seq<Reply>, n: nat, s: char)
    requires !Touched(es, n, s)
    ensures !ArrayAmong(es, Avail(es, n))
    decreases |es|
  {
    if es != [] && n >= Need(es[0]) {
      UntouchedPrefix(es[1..], n - |Enc(es[0])|, s);
    }
  }

  /** A reply is complete exactly when its need is met, seen from its elements. */
  lemma NeedOfArray(v: Reply, n: nat)
    requires v.Arr? && v.items != []
    ensures Avail(v.items, n) == |v.items| <==> HeaderLen(v) + n >= Need(v)
  {
    AvailAll(v.items, n);
  }

  // ---- one call of the parser before a reply

  /** The first reply is complete: it is delivered, whatever its nesting. */
  lemma ParseComplete(p: PState, rs: seq<Reply>, fut: Bytes, s: char)
    requires Idle(p, rs, fut) && rs != [] && AllWf(rs) && |p.pend| >= Need(rs[0])
    ensures var r := ParseOne(p, s);
            r.st == Done && r.state.resp == Val(rs[0]) && Idle(r.state, rs[1..], fut)
            && |r.state.pend| == |p.pend| - |Enc(rs[0])|
  {
    hide Enc, Val, ReadData;
    var v := rs[0];
    assert EncAll(rs) == Enc(v) + EncAll(rs[1..]);
    SplitHere(p.pend, fut, Enc(v), EncAll(rs[1..]));
    ReadWhole(v, p.pend[|Enc(v)|..], s, BLANK);
  }

  lemma FreshSlots(es: seq<Reply>)
    ensures Partial(Resize([], |es|), es, 0)
  {
    var ts := Resize([], |es|);
    assert ts[0..] == ts && es[0..] == es && ts[..0] == [] && es[..0] == [];
  }

  /** The state left behind when elements are still missing. */
  lemma MoreInElements(p': PState, es: seq<Reply>, tail: Bytes, fut: Bytes, m: nat, k: nat, n: nat, x: Bytes,
                       s: char)
    requires |es| > m + k && n == PrefixLen(es, m) + |x|
    requires x + fut == EncAll(es[m..]) + tail
    requires Avail(es, n) == m + k && !Touched(es, n, s)
    requires PrefixLen(es[m..], k) <= |x|
    requires p'.inc && p'.skip == 0 && p'.pend == x[PrefixLen(es[m..], k)..]
    requires p'.resp == BLANK.(ares := p'.resp.ares) && Partial(p'.resp.ares, es, m + k)
    ensures InElements(p', es, tail, fut, m + k)
  {
    hide EncAll, Vals, Avail, Touched, PrefixLen, AllReady, ArrayAmong;
    UntouchedPrefix(es, n, s);
    PrefixAdd(es, m, k);
    StreamDrop(es[m..], tail, fut, k, x);
    assert es[m..][k..] == es[m + k..];
    assert PrefixLen(es, m + k) + |p'.pend| == n;
  }

  lemma StreamDrop(es: seq<Reply>, tail: Bytes, fut: Bytes, k: nat, x: Bytes)
    requires k <= |es| && PrefixLen(es, k) <= |x|
    requires x + fut == EncAll(es) + tail
    ensures x[PrefixLen(es, k)..] + fut == EncAll(es[k..]) + tail
  {
    EncAllDrop(es, k);
    DropConcat(x, fut, PrefixLen(es, k));
    DropConcat(EncAll(es), tail, PrefixLen(es, k));
  }

  lemma ReceivedInArray(rs: seq<Reply>, fut: Bytes, m: nat, x: Bytes)
    requires rs != [] && rs[0].Arr? && m <= |rs[0].items|
    requires x + fut == EncAll(rs[0].items[m..]) + EncAll(rs[1..])
    ensures Received(rs, fut) == HeaderLen(rs[0]) + PrefixLen(rs[0].items, m) + |x|
  {
    PrefixSplit(rs[0].items, m);
    assert |x + fut| == |x| + |fut|;
    assert |EncAll(rs)| == |Enc(rs[0])| + |EncAll(rs[1..])|;
  }

  lemma {:induction false} EncAllDrop(es: seq<Reply>, k: nat)
    requires k <= |es|
    ensures PrefixLen(es, k) <= |EncAll(es)| && EncAll(es)[PrefixLen(es, k)..] == EncAll(es[k..])
    decreases k
  {
    if k == 0 {
      assert es[0..] == es;
    } else {
      EncAllDrop(es[1..], k - 1);
      assert es[1..][k - 1..] == es[k..];
    }
  }

  // ---- the elements of an array, from the m-th on

  lemma FillDone(t: RespData, es: seq<Reply>, tail: Bytes, fut: Bytes, m: nat, x: Bytes, s: char)
    requires AllWf(es) && m < |es| && !ArrayAmong(es, m)
    requires t == BLANK.(ares := t.ares) && Partial(t.ares, es, m)
    requires x != [] && x + fut == EncAll(es[m..]) + tail
    requires Avail(es[m..], |x|) == |es| - m
    ensures var u := |EncAll(es[m..])|;
            u <= |x| && x[u..] + fut == tail
            && FillArray(t, x, s) == Outcome(Done, Val(Arr(es)), u, false)
  {
    hide EncAll, Vals, Val, Avail, ArrayAmong, AllReady, FillElems, FillArray, EndsBlank;
    var vs := es[m..];
    AvailAll(vs, |x|);
    var u := |EncAll(vs)|;
    var y := x[u..];
    SplitHere(x, fut, EncAll(vs), tail);
    FillWhole(vs, t.ares[m..], y, s);
    FillSkips(es, t.ares, m, x, s);
    ValsAppend(es[..m], vs);
    assert es == es[..m] + vs;
    FillArrayCases(t, x, s);
    ValOfArray(es);
  }

  lemma SplitHere(x: Bytes, fut: Bytes, a: Bytes, tail: Bytes)
    requires x + fut == a + tail && |a| <= |x|
    ensures x == a + x[|a|..] && x[|a|..] + fut == tail
  {
    assert a == (x + fut)[..|a|] == x[..|a|];
    assert tail == (x + fut)[|a|..];
  }

  lemma ValOfArray(es: seq<Reply>)
    requires es != []
    ensures Val(Arr(es)) == BLANK.(ares := Vals(es))
  {
  }

  lemma FillPart(t: RespData, es: seq<Reply>, tail: Bytes, fut: Bytes, m: nat, x: Bytes, s: char)
    requires AllWf(es) && m < |es| && !ArrayAmong(es, m)
    requires t == BLANK.(ares := t.ares) && Partial(t.ares, es, m)
    requires x != [] && x + fut == EncAll(es[m..]) + tail
    requires Avail(es[m..], |x|) < |es| - m && !Touched(es[m..], |x|, s)
    ensures var r := FillArray(t, x, s);
            var k := Avail(es[m..], |x|);
            r.used == PrefixLen(es[m..], k) && !r.inc && r.used <= |x|
            && if |x| == r.used && !IsTypeByte(s) then r.st == Thrown
            else r.st == More && r.t == BLANK.(ares := r.t.ares) && Partial(r.t.ares, es, m + k)
  {
    hide EncAll, Vals, Avail, Touched, PrefixLen, ArrayAmong, FillElems;
    var vs := es[m..];
    var k := Avail(vs, |x|);
    assert x <= EncAll(vs) + tail by {
      assert x == (x + fut)[..|x|];
    }
    FillStop(vs, t.ares[m..], x, tail, s);
    FillSkips(es, t.ares, m, x, s);
    var f := FillElems(t.ares[m..], x, s);
    if f.st == More {
      PartialJoin(t.ares, f.es, es, m, k);
    }
  }

  lemma PartialJoin(ts: seq<RespData>, us: seq<RespData>, es: seq<Reply>, m: nat, k: nat)
    requires Partial(ts, es, m) && Partial(us, es[m..], k)
    ensures Partial(ts[..m] + us, es, m + k)
  {
    var all := ts[..m] + us;
    ValsAppend(es[..m], es[m..][..k]);
    assert es[..m + k] == es[..m] + es[m..][..k];
    assert all[..m + k] == ts[..m] + us[..k];
    assert all[m + k..] == us[k..] && es[m + k..] == es[m..][k..];
  }

  /** What a call inside an array must lead to, n bytes of its elements having arrived and j of the
      elements being complete in them. */
  predicate ElementsOutcome(r: Parsed, es: seq<Reply>, tail: Bytes, fut: Bytes, n: nat, j: nat, s: char)
    requires j <= |es|
  {
    if j == |es| then
      r.st == Done && r.state.resp == Val(Arr(es)) && !r.state.inc && r.state.skip == 0
      && r.state.pend + fut == tail
    else if Touched(es, n, s) then true
    else if n == PrefixLen(es, j) && !IsTypeByte(s) then r.st == Thrown
    else r.st == More && InElements(r.state, es, tail, fut, j)
  }

  lemma ParseInside(p: PState, s: char)
    requires p.inc && p.pend != [] && p.skip == 0
    ensures var f := FillArray(p.resp, p.pend, s);
            f.used <= |p.pend| ==>
              ParseOne(p, s) == Parsed(f.st, PState(p.pend[f.used..], 0, f.st != Done, f.t))
  {
  }

  lemma ElementsWhole(p: PState, es: seq<Reply>, tail: Bytes, fut: Bytes, m: nat, n: nat, s: char)
    requires AllWf(es) && InElements(p, es, tail, fut, m) && p.pend != []
    requires Avail(es[m..], |p.pend|) == |es| - m && Avail(es, n) == |es|
    ensures ElementsOutcome(ParseOne(p, s), es, tail, fut, n, |es|, s)
  {
    ParseInside(p, s);
    FillDone(p.resp, es, tail, fut, m, p.pend, s);
  }

  lemma {:induction false} ElementsPart(p: PState, es: seq<Reply>, tail: Bytes, fut: Bytes, m: nat, k: nat, n: nat,
                                        s: char)
    requires AllWf(es) && InElements(p, es, tail, fut, m) && p.pend != []
    requires n == PrefixLen(es, m) + |p.pend| && k == Avail(es[m..], |p.pend|)
    requires m + k == Avail(es, n) < |es| && !Touched(es, n, s) && !Touched(es[m..], |p.pend|, s)
    ensures ElementsOutcome(ParseOne(p, s), es, tail, fut, n, m + k, s)
  {
    ParseInside(p, s);
    FillPart(p.resp, es, tail, fut, m, p.pend, s);
    PartOutcome(ParseOne(p, s), p.resp, es, tail, fut, m, k, n, p.pend, s);
  }

  /** One call inside an array, with at least one byte to look at. */
  lemma ParseElements(p: PState, es: seq<Reply>, tail: Bytes, fut: Bytes, m: nat, n: nat, s: char)
    requires AllWf(es) && InElements(p, es, tail, fut, m) && p.pend != []
    requires n == PrefixLen(es, m) + |p.pend|
    ensures ElementsOutcome(ParseOne(p, s), es, tail, fut, n, Avail(es, n), s)
  {
    hide ParseOne, Avail, Touched, PrefixLen, EncAll, Partial;
    AvailSplit(es, m, |p.pend|, s);
    var k := Avail(es[m..], |p.pend|);
    if m + k == |es| {
      ElementsWhole(p, es, tail, fut, m, n, s);
    } else if !Touched(es, n, s) {
      ElementsPart(p, es, tail, fut, m, k, n, s);
    }
  }

  lemma PartOutcome(r: Parsed, t: RespData, es: seq<Reply>, tail: Bytes, fut: Bytes, m: nat, k: nat, n: nat,
                    x: Bytes, s: char)
    requires |es| > m + k && n == PrefixLen(es, m) + |x| && x + fut == EncAll(es[m..]) + tail
    requires m + k == Avail(es, n) && !Touched(es, n, s) && PrefixLen(es[m..], k) <= |x|
    requires if |x| == PrefixLen(es[m..], k) && !IsTypeByte(s) then r.st == Thrown
             else r.st == More && r.state == PState(x[PrefixLen(es[m..], k)..], 0, true, r.state.resp)
                  && r.state.resp == BLANK.(ares := r.state.resp.ares) && Partial(r.state.resp.ares, es, m + k)
    ensures ElementsOutcome(r, es, tail, fut, n, m + k, s)
  {
    PrefixAdd(es, m, k);
    if r.st == More {
      MoreInElements(r.state, es, tail, fut, m, k, n, x, s);
    }
  }

  /** With the header complete the call goes on to the elements. */
  lemma {:induction false} HeaderThenFill(p: PState, ts: seq<RespData>, x: Bytes, s: char)
    requires 1 <= |ts| <= VECTOR_MAX && ts == Resize([], |ts|)
    requires !p.inc && p.skip == 0 && p.pend == Header(|ts|) + x
    ensures x == [] ==> ParseOne(p, s) == Parsed(More, PState([], 0, true, BLANK.(ares := ts)))
    ensures var f := FillElems(ts, x, s);
            x != [] && f.used <= |x| ==>
              ParseOne(p, s)
              == Parsed(f.st, PState(x[f.used..], 0, f.inc || f.st == More, BLANK.(ares := f.es)))
  {
    hide ReadData, FillElems, FillArray, ParseOne, Header, Resize;
    var t := BLANK.(ares := ts);
    ReadHeader(|ts|, x, s);
    HeaderBytes(|ts|);
    var r := FillArray(t, x, s);
    if r.used <= |x| {
      BehindHeader(p, Header(|ts|), x, r.used, s);
    }
    if x == [] {
      FillArrayCases(t, [], s);
    } else {
      FillArrayCases(t, x, s);
    }
  }

  lemma HeaderBytes(n: nat)
    ensures Header(n) != []
  {
  }

  lemma BehindHeader(p: PState, h: Bytes, x: Bytes, k: nat, s: char)
    requires !p.inc && p.skip == 0 && p.pend == h + x && h != [] && k <= |x|
    ensures var r := ReadData(h + x, s, BLANK);
            r.used == |h| + k ==> ParseOne(p, s) == Parsed(r.st, PState(x[k..], 0, r.inc, r.t))
  {
    hide ReadData;
    assert (h + x)[|h| + k..] == x[k..];
  }

  /** One call with a complete header but not all elements. */
  lemma ParseBody(p: PState, es: seq<Reply>, tail: Bytes, fut: Bytes, k: nat, n: nat, x: Bytes, s: char)
    requires 1 <= |es| <= VECTOR_MAX && AllWf(es)
    requires !p.inc && p.skip == 0 && p.pend == Header(|es|) + x && x + fut == EncAll(es) + tail
    requires n == |x| && k == Avail(es, n) < |es| && !Touched(es, n, s)
    ensures var r := ParseOne(p, s);
            if n != 0 && n == PrefixLen(es, k) && !IsTypeByte(s) then r.st == Thrown
            else r.st == More && InElements(r.state, es, tail, fut, k)
  {
    var ts := Resize([], |es|);
    HeaderThenFill(p, ts, x, s);
    FreshSlots(es);
    if n == 0 {
      assert k == 0;
      EnterElements(PState(x, 0, true, BLANK.(ares := ts)), es, tail, fut, 0, 0, x, s);
    } else {
      PrefixOfConcat(x, fut, EncAll(es) + tail);
      assert AllReady(ts, es);
      FillStop(es, ts, x, tail, s);
      var f := FillElems(ts, x, s);
      if f.st == More {
        EnterElements(PState(x[f.used..], 0, true, BLANK.(ares := f.es)), es, tail, fut, k, n, x, s);
      }
    }
  }

  lemma EnterElements(p': PState, es: seq<Reply>, tail: Bytes, fut: Bytes, k: nat, n: nat, x: Bytes, s: char)
    requires x + fut == EncAll(es) + tail && n == |x|
    requires k == Avail(es, n) < |es| && !Touched(es, n, s) && PrefixLen(es, k) <= n
    requires p'.inc && p'.skip == 0 && p'.pend == x[PrefixLen(es, k)..]
    requires p'.resp == BLANK.(ares := p'.resp.ares) && Partial(p'.resp.ares, es, k)
    ensures InElements(p', es, tail, fut, k)
  {
    UntouchedPrefix(es, n, s);
    StreamDrop(es, tail, fut, k, x);
    assert PrefixLen(es, k) + |p'.pend| == n;
  }

  /** One call with the header cut short. */
  lemma ParseHeaderPart(p: PState, es: seq<Reply>, tail: Bytes, fut: Bytes, s: char)
    requires 1 <= |es| <= VECTOR_MAX
    requires !p.inc && p.skip == 0 && p.pend + fut == Header(|es|) + (EncAll(es) + tail)
    requires 1 <= |p.pend| < |Header(|es|)|
    ensures var r := ParseOne(p, s);
            r.st == More &&
            if HeaderStop(Arr(es), |p.pend|, s) then Doomed(r.state, fut)
            else r.state == p.(resp := BLANK) || InElements(r.state, es, tail, fut, 0)
  {
    hide EncAll, ReadData;
    var w, n := p.pend, |es|;
    var all := Header(n) + (EncAll(es) + tail);
    PrefixOfConcat(w, fut, all);
    HeaderPart(n, w, EncAll(es) + tail, s);
    var r := ParseOne(p, s);
    if r.state.inc {
      if |w| <= |Dec(n)| {
        assert fut[2] == all[|w| + 2];
      } else {
        HeaderRest(n, EncAll(es) + tail, |w|);
        FreshSlots(es);
      }
    }
  }

  /** What is missing of a header cut within its line end. */
  lemma HeaderRest(n: nat, rest: Bytes, q: nat)
    requires |Dec(n)| + 1 <= q <= |Dec(n)| + 2
    ensures (Header(n) + rest)[q..] == CRLF[q - |Dec(n)| - 1..] + rest
  {
  }

  lemma ParseScalarPart(p: PState, v: Reply, tail: Bytes, fut: Bytes, s: char)
    requires Wf(v) && (v.Arr? ==> v.items == [])
    requires !p.inc && p.skip == 0 && p.pend + fut == Enc(v) + tail && 1 <= |p.pend| < Need(v)
    ensures var r := ParseOne(p, s);
            r.st == More && r.state == p.(resp := r.state.resp)
  {
    var w := p.pend;
    PrefixOfConcat(w, fut, Enc(v) + tail);
    assert w <= Enc(v);
    assert w[0] == Enc(v)[0];
    if !v.Arr? {
      ScalarMore(v, w, s, BLANK);
    } else {
      assert Enc(v) == ['*', '0', '\r', '\n'];
    }
  }

  /** The first reply is an array with elements and is not complete. */
  lemma ParseArrayPart(p: PState, es: seq<Reply>, tail: Bytes, fut: Bytes, q: nat, s: char)
    requires es != [] && Wf(Arr(es))
    requires !p.inc && p.skip == 0 && p.pend + fut == Enc(Arr(es)) + tail
    requires q == |p.pend| && 1 <= q < Need(Arr(es)) && !NestedStop(Arr(es), q, s)
    ensures var r := ParseOne(p, s);
            if HeaderStop(Arr(es), q, s) then r.st == More && Doomed(r.state, fut)
            else if EdgeStop(Arr(es), q, s) then r.st == Thrown
            else
              r.st == More &&
              (r.state == p.(resp := BLANK) || InElements(r.state, es, tail, fut, Progress(Arr(es), q)))
  {
    hide ParseOne, Doomed, InElements, EncAll, Header, Avail, PrefixLen, Touched;
    var v := Arr(es);
    ArrayBytes(es, tail);
    if q < HeaderLen(v) {
      ParseHeaderPart(p, es, tail, fut, s);
    } else {
      var x := p.pend[HeaderLen(v)..];
      BodySplit(p.pend, fut, |es|, EncAll(es) + tail);
      NeedOfArray(v, |x|);
      assert AllWf(es);
      ParseBody(p, es, tail, fut, Avail(es, |x|), |x|, x, s);
      HeaderOnly(es, |x|);
    }
  }

  lemma ArrayBytes(es: seq<Reply>, tail: Bytes)
    ensures Enc(Arr(es)) + tail == Header(|es|) + (EncAll(es) + tail) && |Header(|es|)| == HeaderLen(Arr(es))
  {
    hide EncAll;
  }

  /** With no byte of the elements there, none is available: the stop right behind the header is no edge. */
  lemma HeaderOnly(es: seq<Reply>, n: nat)
    requires es != []
    ensures n == 0 ==> Avail(es, n) == 0
  {
  }

  lemma BodySplit(w: Bytes, fut: Bytes, n: nat, rest: Bytes)
    requires w + fut == Header(n) + rest && |w| >= |Header(n)|
    ensures w == Header(n) + w[|Header(n)|..] && w[|Header(n)|..] + fut == rest
  {
    PrefixOfConcat(Header(n), rest, w + fut);
    DropConcat(w, fut, |Header(n)|);
    assert w == w[..|Header(n)|] + w[|Header(n)|..];
    assert w[..|Header(n)|] == (w + fut)[..|Header(n)|];
  }

  /** The first reply is not complete. */
  lemma ParseIdle(p: PState, rs: seq<Reply>, fut: Bytes, q: nat, s: char)
    requires Idle(p, rs, fut) && rs != [] && AllWf(rs)
    requires q == |p.pend| && 1 <= q < Need(rs[0]) && !NestedStop(rs[0], q, s)
    ensures var r := ParseOne(p, s);
            if BadStop(rs[0], q, s) then r.st == Thrown || (r.st == More && Doomed(r.state, fut))
            else r.st == More && Waiting(r.state, rs, fut)
  {
    hide ParseOne, Doomed, InElements, NestedStop, Need, Enc;
    var v, tail := rs[0], EncAll(rs[1..]);
    assert Wf(v);
    assert EncAll(rs) == Enc(v) + tail;
    var r := ParseOne(p, s);
    if v.Arr? && v.items != [] {
      ParseArrayPart(p, v.items, tail, fut, q, s);
      assert v == Arr(v.items);
      if !BadStop(v, q, s) {
        WaitInArray(p, r.state, rs, fut, q);
      }
    } else {
      ParseScalarPart(p, v, tail, fut, s);
      assert Idle(r.state, rs, fut);
      NoBadStop(v, q, s);
    }
  }

  lemma NoBadStop(v: Reply, q: nat, s: char)
    requires v.Arr? ==> v.items == []
    ensures !BadStop(v, q, s)
  {
  }

  lemma WaitInArray(p: PState, p': PState, rs: seq<Reply>, fut: Bytes, q: nat)
    requires Idle(p, rs, fut) && q == |p.pend| && rs != [] && rs[0].Arr?
    requires p' == p.(resp := BLANK) || InElements(p', rs[0].items, EncAll(rs[1..]), fut, Progress(rs[0], q))
    ensures Waiting(p', rs, fut)
  {
    hide InElements, Progress;
    assert |p.pend + fut| == |p.pend| + |fut|;
    assert Received(rs, fut) == q;
  }
}

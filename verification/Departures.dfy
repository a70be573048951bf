/** Where the parser departs from the protocol, for whole families of inputs. */
module Departures {
  import opened ByteStrings
  import opened Resp
  import opened ParserSpec
  import opened WholeReply
  import opened Stops
  import opened ParserMachine
  import opened Chunking
  import opened StreamRuns
  import opened Tokens
  import opened Counting

  /** The null array: the length is taken for a huge number, and the parser throws. */
  lemma NullArrayThrows(tail: Bytes, s: char)
    ensures ReadData(['*', '-', '1'] + CRLF + tail, s, BLANK).st == Thrown
  {
    var w := ['*', '-', '1'] + CRLF + tail;
    var u := w[1..];
    assert u == ['-', '1'] + CRLF + tail;
    FirstCRAt(u, 2);
    assert u[..2][..1] == ['-'] && ['-'][..0] == [];
    assert SizeValue([]) == 0;
    assert SizeValue(['-']) == SIZE_RANGE - 3;
    assert SizeValue(u[..2]) == (SizeValue(['-']) * 10 + 1) % SIZE_RANGE == SIZE_RANGE - 29;
  }

  // ---- splits that go wrong for arrays of scalars

  lemma TwoChunks(a: Bytes, b: Bytes)
    ensures Concat([a, b]) == a + b
  {
    assert [a, b][1..] == [b];
    ConcatOne(b);
  }

  /** An array cut exactly behind one of its elements, but the last: with a leftover byte that is no reply
      type the parser throws, although the stream is well formed and complete. */
  lemma EdgeSplitThrows(es: seq<Reply>, m: nat, x: Bytes, y: Bytes, stales: seq<Stale>)
    requires Wf(Arr(es)) && Flat(Arr(es)) && 1 <= m < |es| && !EndsBlank(es[m - 1])
    requires x == Header(|es|) + EncAll(es[..m]) && y == EncAll(es[m..])
    requires |stales| == 2 && !IsTypeByte(stales[0](0))
    ensures Concat([x, y]) == EncAll([Arr(es)]) && Run(FRESH, [x, y], stales).st == Thrown
  {
    hide BadRun, Run;
    var rs := [Arr(es)];
    OneArray(es, m, x, y);
    EdgeIsBad(es, m, x, stales[0](0));
    BadAtOnce(rs, [x, y], stales);
    ThrowsIffBadStop(rs, [x, y], stales);
  }

  lemma OneArray(es: seq<Reply>, m: nat, x: Bytes, y: Bytes)
    requires m <= |es| && x == Header(|es|) + EncAll(es[..m]) && y == EncAll(es[m..])
    ensures x + y == EncAll([Arr(es)]) == Concat([x, y])
  {
    hide EncAll, Concat;
    TwoChunks(x, y);
    OneReply(Arr(es));
    EncAllAppend(es[..m], es[m..]);
    assert es == es[..m] + es[m..];
    assert x + y == Header(|es|) + (EncAll(es[..m]) + EncAll(es[m..]));
  }

  lemma {:induction false} EdgeIsBad(es: seq<Reply>, m: nat, x: Bytes, s: char)
    requires 1 <= m < |es| && !EndsBlank(es[m - 1]) && x == Header(|es|) + EncAll(es[..m]) && !IsTypeByte(s)
    ensures BadCut([Arr(es)], |x|, s) && Avail([Arr(es)], |x|) == 0
  {
    var v, n := Arr(es), |EncAll(es[..m])|;
    assert n >= 3;
    EdgeAvail(es, m);
    NeedOfArray(v, n);
    assert |x| == HeaderLen(v) + n;
    EdgeHere(v, m, n, |x|, s);
    FirstIncomplete(v, |x|, s);
    hide Avail, EdgeStop, Header, EncAll;
  }

  lemma EdgeHere(v: Reply, m: nat, n: nat, q: nat, s: char)
    requires v.Arr? && m < |v.items| && n > 0 && q == HeaderLen(v) + n && !IsTypeByte(s)
    requires Avail(v.items, n) == m && PrefixLen(v.items, m) == n
    ensures EdgeStop(v, q, s)
  {
    hide Avail, PrefixLen;
  }

  /** A stream of one reply that is not complete yet. */
  lemma FirstIncomplete(v: Reply, q: nat, s: char)
    requires q < Need(v)
    ensures Avail([v], q) == 0 && BadCut([v], q, s) == BadStop(v, q, s)
  {
    hide Need, BadStop;
    assert PrefixLen([v], 0) == 0;
  }

  lemma {:induction false} EdgeAvail(es: seq<Reply>, m: nat)
    requires 1 <= m < |es| && !EndsBlank(es[m - 1])
    ensures Avail(es, |EncAll(es[..m])|) == m && PrefixLen(es, m) == |EncAll(es[..m])|
    decreases m
  {
    hide Enc, EndsBlank;
    assert es[..m][1..] == es[1..][..m - 1];
    assert es[..m][0] == es[0];
    if m == 1 {
      assert EncAll(es[..m][1..]) == [];
      NothingMore(es[1..]);
    } else {
      EdgeAvail(es[1..], m - 1);
      assert |EncAll(es[..m][1..])| >= 3;
    }
  }

  lemma NothingMore(es: seq<Reply>)
    ensures Avail(es, 0) == 0
  {
  }

  lemma BadAtOnce(rs: seq<Reply>, chunks: seq<Bytes>, stales: seq<Stale>)
    requires |chunks| == |stales| >= 1 && Avail(rs, |chunks[0]|) == 0 && BadCut(rs, |chunks[0]|, stales[0](0))
    ensures BadRun(rs, 0, chunks, stales)
  {
    hide BadCut;
    assert Avail(rs, 0) == 0;
  }

  /** An array of a thousand elements or more, cut within the digits of its length: with a leftover carriage
      return the parser takes the digits so far for the length, and throws on the next byte. */
  lemma {:induction false} HeaderSplitThrows(es: seq<Reply>, q: nat, stales: seq<Stale>)
    requires Wf(Arr(es)) && Flat(Arr(es)) && 4 <= q <= |Dec(|es|)|
    requires |stales| == 2 && stales[0](0) == '\r'
    ensures var w := EncAll([Arr(es)]);
            q < |w| && Run(FRESH, [w[..q], w[q..]], stales).st == Thrown
  {
    hide BadRun, Run;
    var rs := [Arr(es)];
    var w := EncAll(rs);
    OneReply(Arr(es));
    assert |w| >= HeaderLen(Arr(es)) > q;
    TwoChunks(w[..q], w[q..]);
    assert w[..q] + w[q..] == w;
    FirstIncomplete(Arr(es), q, '\r');
    assert HeaderStop(Arr(es), q, '\r');
    BadAtOnce(rs, [w[..q], w[q..]], stales);
    ThrowsIffBadStop(rs, [w[..q], w[q..]], stales);
  }

  // ---- splits inside nested arrays

  /** What reading a scalar does to the parse offset does not depend on what the slot held. */
  lemma ScalarIntoUsedSlot(v: Reply, tail: Bytes, s: char, t: RespData)
    requires Wf(v) && !v.Arr? && (|tail| >= 1 || !EndsBlank(v))
    ensures var r := ReadData(Enc(v) + tail, s, t);
            r.st == Done && r.used == |Enc(v)| && !r.inc && r.t.kind != Empty && r.t.kind != Array
  {
    ReadWhole(v, tail, s, BLANK);
    SlotIrrelevant(Enc(v) + tail, s, t, BLANK);
  }

  /** Slots the element loop still means to fill: untouched ones, and finished arrays, which carry no tag. */
  function EmptySlots(ts: seq<RespData>): (n: nat)
    ensures n <= |ts|
  {
    if ts == [] then 0 else (if ts[0].kind == Empty then 1 else 0) + EmptySlots(ts[1..])
  }

  lemma {:induction false} EmptySlotsAppend(ts: seq<RespData>, us: seq<RespData>)
    ensures EmptySlots(ts + us) == EmptySlots(ts) + EmptySlots(us)
  {
    if ts == [] {
      assert ts + us == us;
    } else {
      assert (ts + us)[1..] == ts[1..] + us;
      EmptySlotsAppend(ts[1..], us);
    }
  }

  /** With fewer scalars in the buffer than such slots, the element loop does not finish, whatever an earlier
      call left in the slots. */
  lemma {:induction false} TooFewElements(ts: seq<RespData>, vs: seq<Reply>, s: char)
    requires |vs| < EmptySlots(ts) && AllWf(vs) && (forall v :: v in vs ==> !v.Arr?)
    requires forall t :: t in ts ==> t.kind != Array
    ensures FillElems(ts, EncAll(vs), s).st != Done
    decreases |ts|
  {
    hide ReadData, FillElems, Enc;
    var w := EncAll(vs);
    assert ts[0] in ts;
    if ts[0].kind != Empty {
      PassOver(ts, w, s);
      TooFewElements(ts[1..], vs, s);
    } else {
      FillCons(ts, w, s);
      if vs == [] {
        NothingToRead(s, ts[0]);
      } else {
        assert vs[0] in vs;
        var tail := EncAll(vs[1..]);
        if tail == [] && EndsBlank(vs[0]) {
          BlankAtEnd(vs[0], s, ts[0]);
          assert w == Enc(vs[0]);
        } else {
          ScalarIntoUsedSlot(vs[0], tail, s, ts[0]);
          assert Skip(w, |Enc(vs[0])|) == tail;
          TooFewElements(ts[1..], vs[1..], s);
        }
      }
    }
  }

  lemma NothingToRead(s: char, t: RespData)
    ensures ReadData([], s, t) == Outcome(if IsTypeByte(s) then More else Thrown, t, 0, false)
  {
  }

  lemma BlankAtEnd(v: Reply, s: char, t: RespData)
    requires Wf(v) && !v.Arr? && EndsBlank(v)
    ensures ReadData(Enc(v), s, t).st != Done
  {
    assert |Enc(v)| == 3;
  }

  /** The element loop with exactly the first m elements there, nested or not. */
  lemma {:induction false} FillFirst(es: seq<Reply>, ts: seq<RespData>, m: nat, s: char)
    requires AllWf(es) && |ts| == |es| && AllReady(ts, es) && m < |es| && (m > 0 ==> !EndsBlank(es[m - 1]))
    ensures FillElems(ts, EncAll(es[..m]), s)
         == Fill(if IsTypeByte(s) then More else Thrown, Vals(es[..m]) + ts[m..], |EncAll(es[..m])|, false)
    decreases m
  {
    hide ReadData, FillElems, Enc, Val, EndsBlank;
    FirstReady(ts, es);
    if m == 0 {
      assert es[..0] == [] && ts[0..] == ts;
      FillCons(ts, [], s);
      NothingToRead(s, ts[0]);
    } else {
      assert es[..m][0] == es[0] && es[..m][1..] == es[1..][..m - 1];
      var rest := EncAll(es[1..][..m - 1]);
      FillCons(ts, Enc(es[0]) + rest, s);
      ReadWhole(es[0], rest, s, ts[0]);
      assert Skip(Enc(es[0]) + rest, |Enc(es[0])|) == rest;
      FillFirst(es[1..], ts[1..], m - 1, s);
      assert ts[1..][m - 1..] == ts[m..];
      assert [Val(es[0])] + (Vals(es[1..][..m - 1]) + ts[m..]) == Vals(es[..m]) + ts[m..];
    }
  }

  /** The first chunk: header and m elements have come. */
  lemma FirstElements(es: seq<Reply>, m: nat, x: Bytes, s: char)
    requires Wf(Arr(es)) && 1 <= m < |es| && !EndsBlank(es[m - 1]) && x == Header(|es|) + EncAll(es[..m])
    ensures var r := ParseOne(PState(x, 0, false, BLANK), s);
            r.st == Thrown ||
            (r.st == More &&
             r.state == PState([], 0, true, BLANK.(ares := Vals(es[..m]) + Resize([], |es|)[m..])))
  {
    hide ParseOne, FillElems, EncAll, Vals, EndsBlank, Header;
    var ts := Resize([], |es|);
    var y := EncAll(es[..m]);
    HeaderThenFill(PState(x, 0, false, BLANK), ts, y, s);
    FillFirst(es, ts, m, s);
    assert |y| >= 3;
    assert y[|y|..] == [];
  }

  /** Slots after the first chunk: more of them look empty than elements are still to come. */
  lemma {:induction false} ArraysLookEmpty(vs: seq<Reply>, m: nat)
    requires m <= |vs|
    ensures EmptySlots(Vals(vs)) >= if ArrayAmong(vs, m) then 1 else 0
    ensures forall t :: t in Vals(vs) ==> t.kind != Array
    decreases |vs|
  {
    hide Val;
    if vs != [] {
      KindOfVal(vs[0]);
      ArraysLookEmpty(vs[1..], if m > 0 then m - 1 else 0);
    }
  }

  lemma KindOfVal(v: Reply)
    ensures Val(v).kind != Array && (v.Arr? ==> Val(v).kind == Empty)
  {
  }

  lemma {:induction false} BlanksLookEmpty(ts: seq<RespData>)
    requires forall t :: t in ts ==> t == BLANK
    ensures EmptySlots(ts) == |ts|
  {
    if ts != [] {
      assert ts[0] in ts;
      assert forall t :: t in ts[1..] ==> t in ts;
      BlanksLookEmpty(ts[1..]);
    }
  }

  lemma SlotsLeft(es: seq<Reply>, m: nat)
    requires m < |es| && ArrayAmong(es[..m], m)
    ensures var ts := Vals(es[..m]) + Resize([], |es|)[m..];
            EmptySlots(ts) > |es| - m && forall t :: t in ts ==> t.kind != Array
  {
    hide EmptySlots, ArrayAmong, Vals;
    var blanks := Resize([], |es|)[m..];
    EmptySlotsAppend(Vals(es[..m]), blanks);
    ArraysLookEmpty(es[..m], m);
    BlanksLookEmpty(blanks);
  }

  /** An array with a nested one among its first m elements, cut right behind those, only scalars to come: the
      whole stream arrives, and the reply is never delivered, whatever bytes are left over in memory. Held
      whole in the buffer it is (ReadWhole). */
  lemma NestedSplitLoses(es: seq<Reply>, m: nat, x: Bytes, y: Bytes, stales: seq<Stale>)
    requires Wf(Arr(es)) && 1 <= m < |es| && ArrayAmong(es[..m], m) && !EndsBlank(es[m - 1])
    requires forall e :: e in es[m..] ==> !e.Arr?
    requires x == Header(|es|) + EncAll(es[..m]) && y == EncAll(es[m..]) && |stales| == 2
    ensures x + y == EncAll([Arr(es)]) && Run(FRESH, [x, y], stales).out == []
  {
    hide ReadData, FillElems, EncAll, Vals, Header, ArrayAmong, EndsBlank, EmptySlots, Resize;
    OneArray(es, m, x, y);
    assert Accept(FRESH, x) == PState(x, 0, false, BLANK) by {
      assert [] + x == x;
    }
    FirstElements(es, m, x, stales[0](0));
    var r := Feed(FRESH, x, stales[0]);
    if r.st != Thrown {
      assert [] + y == y;
      SlotsLeft(es, m);
      assert forall e :: e in es[m..] ==> e in es;
      TooFewElements(r.state.resp.ares, es[m..], stales[1](0));
      assert Feed(r.state, y, stales[1]).out == [];
    }
    NestedRunOut(x, y, stales);
  }

  lemma {:induction false} NestedRunOut(x: Bytes, y: Bytes, stales: seq<Stale>)
    requires |stales| == 2
    ensures var r := Feed(FRESH, x, stales[0]);
            Run(FRESH, [x, y], stales).out
            == r.out + if r.st == Thrown then [] else Feed(r.state, y, stales[1]).out
  {
    hide Feed;
    var r, s1 := Feed(FRESH, x, stales[0]), stales[1..];
    assert [x, y][1..] == [y] && [y][1..] == [];
    var r1 := Feed(r.state, y, s1[0]);
    assert r1.out + [] == r1.out;
    assert r.out + [] == r.out;
    assert Run(r.state, [y], s1).out == r1.out;
  }

  // ---- a nested header and its elements in different chunks

  /** A scalar read over what an interrupted array left in the slot: the old elements stay below it. */
  lemma ScalarOver(v: Reply, tail: Bytes, s: char, t: RespData)
    requires Wf(v) && !v.Arr? && (|tail| >= 1 || !EndsBlank(v)) && t == BLANK.(ares := t.ares)
    ensures ReadData(Enc(v) + tail, s, t) == Outcome(Done, Val(v).(ares := t.ares), |Enc(v)|, false)
  {
    ReadWhole(v, tail, s, BLANK);
    ElementsAside(Enc(v) + tail, s, t);
  }

  lemma ElementsAside(w: Bytes, s: char, t: RespData)
    requires w != [] && w[0] != '*' && t == BLANK.(ares := t.ares)
    ensures var r := ReadData(w, s, BLANK); ReadData(w, s, t) == r.(t := r.t.(ares := t.ares))
  {
  }

  /** The slot of an array whose header alone has been read. */
  function HeaderOnlySlot(n: nat): RespData {
    BLANK.(ares := Resize([], n))
  }

  /** Scalars, then a nested header, and nothing behind it. */
  lemma {:induction false} FillToHeader(pre: seq<Reply>, n: nat, ts: seq<RespData>, s: char)
    requires AllWf(pre) && (forall v :: v in pre ==> !v.Arr?) && 1 <= n <= VECTOR_MAX
    requires |ts| == |pre| + 1 && forall t :: t in ts ==> t == BLANK
    ensures FillElems(ts, EncAll(pre) + Header(n), s)
         == Fill(More, Vals(pre) + [HeaderOnlySlot(n)], |EncAll(pre)| + |Header(n)|, true)
    decreases |pre|
  {
    hide ReadData, FillElems, Enc, Val, Header, HeaderOnlySlot;
    HeaderBytes(n);
    assert ts[0] in ts;
    if pre == [] {
      assert EncAll(pre) + Header(n) == Header(n) && ts[1..] == [];
      FillCons(ts, Header(n), s);
      BareHeader(n, s);
    } else {
      assert pre[0] in pre && (forall v :: v in pre[1..] ==> v in pre) && forall t :: t in ts[1..] ==> t in ts;
      var rest := EncAll(pre[1..]) + Header(n);
      assert EncAll(pre) + Header(n) == Enc(pre[0]) + rest;
      FillCons(ts, Enc(pre[0]) + rest, s);
      ReadWhole(pre[0], rest, s, BLANK);
      assert Skip(Enc(pre[0]) + rest, |Enc(pre[0])|) == rest;
      FillToHeader(pre[1..], n, ts[1..], s);
      assert [Val(pre[0])] + (Vals(pre[1..]) + [HeaderOnlySlot(n)]) == Vals(pre) + [HeaderOnlySlot(n)];
    }
  }

  lemma BareHeader(n: nat, s: char)
    requires 1 <= n <= VECTOR_MAX
    ensures ReadData(Header(n), s, BLANK) == Outcome(More, HeaderOnlySlot(n), |Header(n)|, true)
  {
    hide ReadData, FillArray, Header;
    ReadHeader(n, [], s);
    assert Header(n) + [] == Header(n);
    assert |HeaderOnlySlot(n).ares| == n;
    FillArrayCases(HeaderOnlySlot(n), [], s);
  }

  /** The loop starts again: the scalars are passed over, and the last slot takes the next scalar. */
  lemma {:induction false} FillOver(pre: seq<Reply>, v: Reply, t: RespData, tail: Bytes, s: char)
    requires (forall x :: x in pre ==> !x.Arr?) && Wf(v) && !v.Arr? && (|tail| >= 1 || !EndsBlank(v))
    requires t == BLANK.(ares := t.ares)
    ensures FillElems(Vals(pre) + [t], Enc(v) + tail, s)
         == Fill(Done, Vals(pre) + [Val(v).(ares := t.ares)], |Enc(v)|, false)
    decreases |pre|
  {
    hide ReadData, FillElems, Enc, Val;
    var ts, w := Vals(pre) + [t], Enc(v) + tail;
    if pre == [] {
      assert ts == [t] && ts[1..] == [];
      FillCons(ts, w, s);
      ScalarOver(v, tail, s, t);
      NoElements(Skip(w, |Enc(v)|), s);
    } else {
      assert pre[0] in pre;
      ScalarTagged(pre[0]);
      assert ts[0] == Val(pre[0]) && ts[1..] == Vals(pre[1..]) + [t];
      PassOver(ts, w, s);
      FillOver(pre[1..], v, t, tail, s);
      assert [Val(pre[0])] + (Vals(pre[1..]) + [Val(v).(ares := t.ares)]) == Vals(pre) + [Val(v).(ares := t.ares)];
    }
  }

  lemma NoElements(w: Bytes, s: char)
    ensures FillElems([], w, s) == Fill(Done, [], 0, false)
  {
  }

  lemma ScalarTagged(v: Reply)
    requires !v.Arr?
    ensures Val(v).kind != Array && Val(v).kind != Empty
  {
  }

  /** The tree handed over in place of the reply. */
  function Mixed(pre: seq<Reply>, inner: seq<Reply>): RespData
    requires inner != []
  {
    BLANK.(ares := Vals(pre) + [Val(inner[0]).(ares := Resize([], |inner|))])
  }

  lemma MixedIsWrong(pre: seq<Reply>, inner: seq<Reply>)
    requires inner != [] && !inner[0].Arr?
    ensures Mixed(pre, inner) != Val(Arr(pre + [Arr(inner)]))
  {
    hide Vals;
    var v, k := Arr(pre + [Arr(inner)]), |pre|;
    ValOfArray(pre + [Arr(inner)]);
    ValsAt(pre + [Arr(inner)], k);
    ScalarTagged(inner[0]);
    assert Mixed(pre, inner).ares[k].kind != Empty;
    KindOfVal(Arr(inner));
    assert Val(v).ares[k].kind == Empty;
  }

  lemma MisreadStream(pre: seq<Reply>, inner: seq<Reply>, x: Bytes, y: Bytes)
    requires x == Header(|pre| + 1) + (EncAll(pre) + Header(|inner|)) && y == EncAll(inner)
    ensures x + y == EncAll([Arr(pre + [Arr(inner)])]) == Concat([x, y])
  {
    hide EncAll, Header, Concat, Enc;
    TwoChunks(x, y);
    OneReply(Arr(pre + [Arr(inner)]));
    OneReply(Arr(inner));
    EncAllAppend(pre, [Arr(inner)]);
    EncArray(inner);
    EncArray(pre + [Arr(inner)]);
    Reassociate(Header(|pre| + 1), EncAll(pre), Header(|inner|), EncAll(inner));
  }

  lemma EncArray(es: seq<Reply>)
    ensures Enc(Arr(es)) == Header(|es|) + EncAll(es)
  {
  }

  lemma Reassociate(a: Bytes, b: Bytes, c: Bytes, d: Bytes)
    ensures (a + (b + c)) + d == a + (b + (c + d))
  {
  }

  /** An array whose last element is an array with a scalar first, cut right behind the nested header: whatever
      is left over in memory, one reply comes out as several, the first of them wrong and the others parts of
      it. The callback of the next query gets one of those. */
  lemma HeaderSplitMisdelivers(pre: seq<Reply>, inner: seq<Reply>, x: Bytes, y: Bytes, stales: seq<Stale>)
    requires Wf(Arr(pre + [Arr(inner)])) && (forall v :: v in pre ==> !v.Arr?)
    requires |inner| >= 2 && !inner[0].Arr? && Punctual(inner) && |stales| == 2
    requires x == Header(|pre| + 1) + (EncAll(pre) + Header(|inner|)) && y == EncAll(inner)
    ensures x + y == EncAll([Arr(pre + [Arr(inner)])])
    ensures Mixed(pre, inner) != Val(Arr(pre + [Arr(inner)]))
    ensures Run(FRESH, [x, y], stales).out == [Mixed(pre, inner)] + Vals(inner[1..])
  {
    hide ReadData, FillElems, EncAll, Vals, Val, Header, Feed, Run, Mixed, Drain;
    MisreadStream(pre, inner, x, y);
    MixedIsWrong(pre, inner);
    PartsWf(pre, inner);
    FirstOfTwo(pre, inner, x, stales[0]);
    SecondOfTwo(pre, inner, y, stales[1]);
    NestedRunOut(x, y, stales);
    assert [] + ([Mixed(pre, inner)] + Vals(inner[1..])) == [Mixed(pre, inner)] + Vals(inner[1..]);
  }

  lemma PartsWf(pre: seq<Reply>, inner: seq<Reply>)
    requires Wf(Arr(pre + [Arr(inner)]))
    ensures AllWf(pre) && AllWf(inner) && |inner| <= VECTOR_MAX && |pre| + 1 <= VECTOR_MAX
  {
    var es := pre + [Arr(inner)];
    assert es[|pre|] in es && Wf(Arr(inner));
    forall v | v in pre
      ensures Wf(v)
    {
      assert v in es;
    }
  }

  lemma FirstOfTwo(pre: seq<Reply>, inner: seq<Reply>, x: Bytes, stale: Stale)
    requires AllWf(pre) && (forall v :: v in pre ==> !v.Arr?) && 1 <= |inner| <= VECTOR_MAX && |pre| + 1 <= VECTOR_MAX
    requires x == Header(|pre| + 1) + (EncAll(pre) + Header(|inner|))
    ensures Feed(FRESH, x, stale)
         == Drained(More, PState([], 0, true, BLANK.(ares := Vals(pre) + [HeaderOnlySlot(|inner|)])), [])
  {
    hide ParseOne, Feed, Vals, EncAll, Header, HeaderOnlySlot, Wf;
    FirstCall(pre, inner, PState(x, 0, false, BLANK), stale(0));
    FeedFresh(x, stale);
  }

  lemma FeedFresh(x: Bytes, stale: Stale)
    ensures var r := ParseOne(PState(x, 0, false, BLANK), stale(0));
            r.st == More ==> Feed(FRESH, x, stale) == Drained(More, r.state, [])
  {
    hide ParseOne, Drain;
    assert [] + x == x;
    DrainNone(PState(x, 0, false, BLANK), stale);
  }

  lemma FirstCall(pre: seq<Reply>, inner: seq<Reply>, p: PState, s: char)
    requires AllWf(pre) && (forall v :: v in pre ==> !v.Arr?) && 1 <= |inner| <= VECTOR_MAX && |pre| + 1 <= VECTOR_MAX
    requires p == PState(Header(|pre| + 1) + (EncAll(pre) + Header(|inner|)), 0, false, BLANK)
    ensures ParseOne(p, s)
         == Parsed(More, PState([], 0, true, BLANK.(ares := Vals(pre) + [HeaderOnlySlot(|inner|)])))
  {
    hide FillElems, EncAll, Vals, Header, ParseOne, HeaderOnlySlot, Resize;
    var ts, z := Resize([], |pre| + 1), EncAll(pre) + Header(|inner|);
    HeaderBytes(|inner|);
    AllBlank(|pre| + 1);
    HeaderThenFill(p, ts, z, s);
    FillToHeader(pre, |inner|, ts, s);
    assert z[|z|..] == [];
  }

  lemma AllBlank(n: nat)
    ensures forall t :: t in Resize([], n) ==> t == BLANK
    ensures Resize([], |Resize([], n)|) == Resize([], n)
  {
  }

  lemma DrainNone(p: PState, stale: Stale)
    ensures ParseOne(p, stale(0)).st == More ==> Drain(p, stale, 0) == Drained(More, ParseOne(p, stale(0)).state, [])
  {
    hide ParseOne;
  }

  lemma SecondOfTwo(pre: seq<Reply>, inner: seq<Reply>, y: Bytes, stale: Stale)
    requires AllWf(inner) && (forall v :: v in pre ==> !v.Arr?) && |inner| >= 2 && !inner[0].Arr? && Punctual(inner)
    requires y == EncAll(inner)
    ensures var p := PState([], 0, true, BLANK.(ares := Vals(pre) + [HeaderOnlySlot(|inner|)]));
            Feed(p, y, stale).out == [Mixed(pre, inner)] + Vals(inner[1..])
  {
    hide ReadData, FillElems, FillArray, EncAll, Vals, Val, Enc, Mixed, HeaderOnlySlot, Drain, ParseOne;
    var t := BLANK.(ares := Vals(pre) + [HeaderOnlySlot(|inner|)]);
    var p, p' := PState(y, 0, true, t), PState(EncAll(inner[1..]), 0, false, Mixed(pre, inner));
    assert Accept(PState([], 0, true, t), y) == p by {
      assert [] + y == y;
    }
    Misread(pre, inner, p, stale(0));
    RestDrained(p', inner, stale);
    DrainOne(p, p', stale);
  }

  /** The call that completes the wrong tree. */
  lemma Misread(pre: seq<Reply>, inner: seq<Reply>, p: PState, s: char)
    requires AllWf(inner) && (forall v :: v in pre ==> !v.Arr?) && |inner| >= 2 && !inner[0].Arr?
    requires p == PState(EncAll(inner), 0, true, BLANK.(ares := Vals(pre) + [HeaderOnlySlot(|inner|)]))
    ensures ParseOne(p, s) == Parsed(Done, PState(EncAll(inner[1..]), 0, false, Mixed(pre, inner)))
  {
    hide ReadData, FillElems, FillArray, EncAll, Vals, Val, Enc, EndsBlank, ParseOne;
    var y, rest := EncAll(inner), EncAll(inner[1..]);
    assert inner[0] in inner;
    FirstBytes(inner);
    FillOver(pre, inner[0], HeaderOnlySlot(|inner|), rest, s);
    FillArrayCases(p.resp, y, s);
    assert y[|Enc(inner[0])|..] == rest;
    ParseInside(p, s);
  }

  /** What is left of the array's elements comes out as replies. */
  lemma RestDrained(p: PState, inner: seq<Reply>, stale: Stale)
    requires AllWf(inner) && |inner| >= 2 && Punctual(inner)
    requires p == PState(EncAll(inner[1..]), 0, false, p.resp)
    ensures Drain(p, stale, 1).out == Vals(inner[1..])
  {
    hide EncAll, Vals, Drain, Avail, NestedCut, BadCut, EndsBlank, Waiting, Doomed;
    var rest := inner[1..];
    assert forall v :: v in rest ==> v in inner;
    assert EncAll(rest) + [] == EncAll(rest);
    AllArrived(rest);
    WholeNotCut(rest, stale(1 + |rest|));
    DrainIdle(p, rest, [], |EncAll(rest)|, stale, 1, 1 + |rest|);
    assert rest[..|rest|] == rest;
  }

  lemma FirstBytes(vs: seq<Reply>)
    requires |vs| >= 2
    ensures EncAll(vs) == Enc(vs[0]) + EncAll(vs[1..]) && |EncAll(vs[1..])| >= 1
  {
  }

  lemma WholeNotCut(rs: seq<Reply>, s: char)
    requires Avail(rs, |EncAll(rs)|) == |rs|
    ensures !NestedCut(rs, |EncAll(rs)|, s) && !BadCut(rs, |EncAll(rs)|, s)
  {
  }

  lemma DrainOne(p: PState, p': PState, stale: Stale)
    requires ParseOne(p, stale(0)) == Parsed(Done, p')
    ensures Drain(p, stale, 0).out == [p'.resp] + Drain(p', stale, 1).out
  {
    hide ParseOne;
  }
}

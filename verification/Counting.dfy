/** Counting tokens: whatever the chunks, a call of the parser leaves no more nodes behind than the tokens it
    consumed, and one less for every array it enters again. */
module Counting {
  import opened ByteStrings
  import opened Resp
  import opened ParserSpec
  import opened WholeReply
  import opened Stops
  import opened Tokens

  /** Used bytes on, the tokens rest are next; the parse offset may lie beyond the bytes that have come. */
  predicate Behind(w: Bytes, fut: Bytes, used: nat, rest: seq<Token>) {
    if used <= |w| then w[used..] + fut == Stream(rest)
    else used - |w| <= |fut| && fut[used - |w|..] == Stream(rest)
  }

  /** A leftover carriage return ended a length too early: the next byte looked at is no reply type. */
  predicate Off(w: Bytes, fut: Bytes, used: nat) {
    used > |w| && used - |w| < |fut| && !IsTypeByte(fut[used - |w|])
  }

  predicate HasEmpty(ts: seq<RespData>) {
    exists i :: 0 <= i < |ts| && ts[i].kind == Empty
  }

  /** The outcome of reading into slot t, j tokens being consumed. */
  predicate Took(o: Outcome, t: RespData, w: Bytes, fut: Bytes, ks: seq<Token>, j: nat) {
    j <= |ks| &&
    match o.st
    case Thrown => true
    case Done =>
      Untagged(o.t) && j >= 1 && o.used <= |w| && Behind(w, fut, o.used, ks[j..]) && Weight(o.t) <= Live(t) + j
    case More =>
      Untagged(o.t) && o.t.kind == Empty && (o.used > 0 && t.ares == [] ==> HasEmpty(o.t.ares)) &&
      (Off(w, fut, o.used) ||
       (Behind(w, fut, o.used, ks[j..]) && Weight(o.t) <= Weight(t) + j &&
        Live(o.t) + (if j > 0 then 1 else 0) <= Live(t) + j))
  }

  /** The outcome of the element loop over the slots ts. */
  predicate Filled(r: Fill, ts: seq<RespData>, w: Bytes, fut: Bytes, ks: seq<Token>, j: nat) {
    j <= |ks| &&
    match r.st
    case Thrown => true
    case Done =>
      AllUntagged(r.es) && r.used <= |w| && Behind(w, fut, r.used, ks[j..]) && Weights(r.es) <= Lives(ts) + j
    case More =>
      AllUntagged(r.es) && HasEmpty(r.es) &&
      (Off(w, fut, r.used) ||
       (Behind(w, fut, r.used, ks[j..]) && Weights(r.es) <= Weights(ts) + j && Lives(r.es) <= Lives(ts) + j))
  }

  // ---- scalars

  /** A scalar's reading keeps the slot's children; unfinished, it leaves the slot as it was but for digits. */
  lemma ScalarKeeps(w: Bytes, s: char, t: RespData)
    requires w != [] && w[0] != '*'
    ensures var r := ReadData(w, s, t);
            (r.st == Done ==> r.t.ares == t.ares && r.t.kind != Empty && r.t.kind != Array)
            && (r.st == More ==> r.t == t.(ires := r.t.ires) && r.used == 0)
  {
  }

  /** Status and offset do not depend on the slot. */
  lemma SlotIrrelevant(w: Bytes, s: char, t: RespData, u: RespData)
    requires w != [] && w[0] != '*'
    ensures var r, r' := ReadData(w, s, t), ReadData(w, s, u);
            r.st == r'.st && r.used == r'.used && r.inc == r'.inc && (r.st == Done ==> r.t.kind == r'.t.kind)
  {
  }

  /** What a scalar at the head of the stream does, complete or not. */
  lemma ScalarReads(v: Reply, w: Bytes, rest: Bytes, s: char)
    requires Wf(v) && !v.Arr? && w != [] && w <= Enc(v) + rest
    ensures var r := ReadData(w, s, BLANK);
            if |w| >= Need(v) then r.st == Done && r.used == |Enc(v)| else r.st == More && r.used == 0
    ensures w[0] == Enc(v)[0] != '*'
  {
    hide InitArray, ReadScalar;
    assert w[0] == (Enc(v) + rest)[0] == Enc(v)[0];
    if |w| >= Need(v) {
      WholeAhead(Enc(v), rest, w);
      ReadWhole(v, w[|Enc(v)|..], s, BLANK);
    } else {
      ScalarMore(v, w, s, BLANK);
    }
  }

  lemma ScalarTook(w: Bytes, fut: Bytes, ks: seq<Token>, s: char, t: RespData) returns (j: nat)
    requires w != [] && w + fut == Stream(ks) && WfTokens(ks) && ks != [] && ks[0].Leaf? && !ks[0].v.Arr?
    requires t.kind == Empty && Untagged(t)
    ensures Took(ReadData(w, s, t), t, w, fut, ks, j)
  {
    hide ReadData, Enc, Stream;
    var v, rest := ks[0].v, Stream(ks[1..]);
    assert ks[0] in ks;
    StreamHead(ks);
    PrefixOfConcat(w, fut, Enc(v) + rest);
    ScalarReads(v, w, rest, s);
    SlotIrrelevant(w, s, t, BLANK);
    ScalarKeeps(w, s, t);
    var r := ReadData(w, s, t);
    if r.st == Done {
      j := 1;
      DropConcat(w, fut, |Enc(v)|);
      assert (Enc(v) + rest)[|Enc(v)|..] == rest;
    } else {
      j := 0;
      assert ks[0..] == ks && w[0..] == w;
    }
  }

  lemma StreamHead(ks: seq<Token>)
    requires ks != []
    ensures Stream(ks) == TokenBytes(ks[0]) + Stream(ks[1..])
  {
  }

  lemma EmptyArrayTook(w: Bytes, fut: Bytes, ks: seq<Token>, s: char, t: RespData) returns (j: nat)
    requires w != [] && w + fut == Stream(ks) && ks != [] && ks[0] == Leaf(Arr([]))
    requires t.kind == Empty && Untagged(t)
    ensures Took(ReadData(w, s, t), t, w, fut, ks, j)
  {
    hide Stream, FillArray;
    var rest := Stream(ks[1..]);
    StreamHead(ks);
    var e := ['*', '0', '\r', '\n'];
    assert Enc(Arr([])) == e;
    PrefixOfConcat(w, fut, e + rest);
    assert w[0] == (e + rest)[0];
    if |w| >= 4 {
      j := 1;
      assert w[1] == (e + rest)[1];
      DropConcat(w, fut, 4);
      assert (e + rest)[4..] == rest;
    } else {
      j := 0;
      assert ks[0..] == ks && w[0..] == w;
    }
  }

  lemma NothingTook(fut: Bytes, ks: seq<Token>, s: char, t: RespData)
    requires fut == Stream(ks) && t.kind == Empty && Untagged(t)
    ensures Took(ReadData([], s, t), t, [], fut, ks, 0)
  {
    hide Stream;
    assert ks[0..] == ks && [] + fut == fut;
  }

  // ---- array headers

  /** What a header makes of its slot. */
  function Opened(t: RespData, n: nat): RespData {
    t.(ares := Resize(t.ares, n))
  }

  lemma OpenedWeighs(t: RespData, n: nat)
    requires n >= 1 && t.kind == Empty && Untagged(t)
    ensures var t' := Opened(t, n);
            Untagged(t') && t'.ares != [] && Weight(t') <= Weight(t) + 1 && Live(t') <= Live(t)
            && Lives(t'.ares) <= Weights(t'.ares) <= Live(t)
  {
    hide Weights, Lives;
    ResizeWeights(t.ares, n);
    ResizeUntagged(t.ares, n);
  }

  /** The three ways a header that has come in part or whole can go. */
  lemma HeaderReads(n: nat, w: Bytes, rest: Bytes, s: char, t: RespData) returns (opens: bool, c: nat)
    requires 1 <= n <= VECTOR_MAX && w != [] && w <= Header(n) + rest && t.kind == Empty
    ensures 1 <= c <= n && (|w| >= |Dec(n)| + 1 ==> c == n)
    ensures opens <==> |w| >= 4 && (|w| >= |Dec(n)| + 2 || s == '\r')
    ensures !opens ==> ReadData(w, s, t) == Outcome(More, t, 0, false)
    ensures opens ==>
              var u := if |w| >= |Dec(n)| + 2 then |Dec(n)| + 3 else |w| + 2;
              var r := FillArray(Opened(t, c), Skip(w, u), s);
              ReadData(w, s, t) == Outcome(r.st, r.t, u + r.used, r.inc || r.st == More)
  {
    hide ReadData, FillArray, Dec, FirstCR, SizeValue, Opened;
    var d, after := |Dec(n)|, CRLF + rest;
    assert Header(n) + rest == ['*'] + (Dec(n) + after);
    assert w[0] == (Header(n) + rest)[0] == '*';
    c := n;
    opens := false;
    if |w| < 4 {
      HeaderWaits(w, s, t);
    } else {
      var u := w[1..];
      assert u <= Dec(n) + after;
      var k := LengthStop(n, after, u);
      c := SizeValue(u[..k]);
      if |u| == d {
        assert u[..k] == Dec(n);
        SizeValueOfDec(n);
      }
      assert u[0] == (Dec(n) + after)[0] == Dec(n)[0];
      opens := k < |u| || s == '\r';
      HeaderOpens(w, s, t, k, c);
      SkipSkip(w, 1, k + 2);
    }
  }

  lemma HeaderWaits(w: Bytes, s: char, t: RespData)
    requires 1 <= |w| < 4 && w[0] == '*'
    ensures ReadData(w, s, t) == Outcome(More, t, 0, false)
  {
  }

  lemma HeaderOpens(w: Bytes, s: char, t: RespData, k: nat, c: nat)
    requires |w| >= 4 && w[0] == '*' && w[1] != '0' && k == FirstCR(w[1..]) && c == SizeValue(w[1..][..k]) <= VECTOR_MAX
    ensures if k == |w| - 1 && s != '\r' then ReadData(w, s, t) == Outcome(More, t, 0, false)
            else
              var r := FillArray(Opened(t, c), Skip(w[1..], k + 2), s);
              ReadData(w, s, t) == Outcome(r.st, r.t, k + 3 + r.used, r.inc || r.st == More)
  {
    hide FillArray, FirstCR, SizeValue, Resize;
  }

  /** Where the parse offset stands once a header has been opened. */
  lemma BehindHeader(n: nat, w: Bytes, fut: Bytes, ks: seq<Token>, u: nat, x: Bytes)
    requires ks != [] && ks[0] == Head(n) && w + fut == Stream(ks) && |w| >= 4
    requires u == (if |w| >= |Dec(n)| + 2 then |Dec(n)| + 3 else |w| + 2) && x == Skip(w, u)
    ensures if |w| <= |Dec(n)| then x == [] && Off(w, fut, u)
            else Behind(w, fut, u, ks[1..]) && (x != [] ==> u <= |w| && x + fut == Stream(ks[1..]))
  {
    hide Stream, Header, Dec;
    StreamHead(ks);
    var h, rest := Header(n), Stream(ks[1..]);
    HeaderShape(n);
    if |w| <= |Dec(n)| {
      AtConcat(w, fut, h, rest, |w| + 2);
    } else {
      assert u == |h|;
      if u <= |w| {
        DropConcat(w, fut, u);
      } else {
        DropPast(w, fut, u);
      }
      DropPast(h, rest, u);
    }
  }

  lemma HeaderShape(n: nat)
    ensures |Header(n)| == |Dec(n)| + 3
    ensures forall i :: 1 <= i < |Header(n)| ==> !IsTypeByte(Header(n)[i])
  {
  }

  lemma AtConcat(a: Bytes, b: Bytes, c: Bytes, d: Bytes, i: nat)
    requires a + b == c + d && |a| <= i < |c|
    ensures i - |a| < |b| && b[i - |a|] == c[i]
  {
    assert |a + b| == |c + d|;
    assert (a + b)[i] == b[i - |a|] && (c + d)[i] == c[i];
  }

  lemma DropPast(a: Bytes, b: Bytes, k: nat)
    requires |a| <= k <= |a| + |b|
    ensures (a + b)[k..] == b[k - |a|..]
  {
  }

  lemma {:induction false} HeadTook(w: Bytes, fut: Bytes, ks: seq<Token>, s: char, t: RespData) returns (j: nat)
    requires w != [] && w + fut == Stream(ks) && WfTokens(ks) && ks != [] && ks[0].Head?
    requires t.kind == Empty && Untagged(t)
    ensures Took(ReadData(w, s, t), t, w, fut, ks, j)
    decreases |ks|, 2
  {
    hide ReadData, FillArray, Stream, Header, Took, Untagged, Opened;
    var n := ks[0].n;
    assert ks[0] in ks;
    StreamHead(ks);
    PrefixOfConcat(w, fut, Header(n) + Stream(ks[1..]));
    var opens, c := HeaderReads(n, w, Stream(ks[1..]), s, t);
    if !opens {
      j := 0;
      NotOpened(t, w, fut, ks);
    } else {
      var u := if |w| >= |Dec(n)| + 2 then |Dec(n)| + 3 else |w| + 2;
      j := OpenedTook(w, fut, ks, s, t, n, c, u);
    }
  }

  lemma NotOpened(t: RespData, w: Bytes, fut: Bytes, ks: seq<Token>)
    requires t.kind == Empty && Untagged(t) && w + fut == Stream(ks)
    ensures Took(Outcome(More, t, 0, false), t, w, fut, ks, 0)
  {
    hide Stream, Weight, Live, Untagged;
    assert ks[0..] == ks && w[0..] == w;
    LiveWeight(t);
  }

  lemma {:induction false} OpenedTook(w: Bytes, fut: Bytes, ks: seq<Token>, s: char, t: RespData, n: nat, c: nat, u: nat)
    returns (j: nat)
    requires |w| >= 4 && w + fut == Stream(ks) && WfTokens(ks) && ks != [] && ks[0] == Head(n)
    requires t.kind == Empty && Untagged(t) && c >= 1
    requires u == if |w| >= |Dec(n)| + 2 then |Dec(n)| + 3 else |w| + 2
    ensures var r := FillArray(Opened(t, c), Skip(w, u), s);
            Took(Outcome(r.st, r.t, u + r.used, r.inc || r.st == More), t, w, fut, ks, j)
    decreases |ks|, 1
  {
    hide FillArray, FillElems, Stream, Took, Untagged, Opened, Off, Behind, Filled, WfToken;
    var x := Skip(w, u);
    BehindHeader(n, w, fut, ks, u, x);
    OpenedSlots(t, c);
    FillArrayCases(Opened(t, c), x, s);
    if x == [] {
      j := 1;
      BareTook(t, c, w, fut, ks, u);
    } else {
      assert forall k :: k in ks[1..] ==> k in ks;
      var i := FillTook(Opened(t, c).ares, x, fut, ks[1..], s);
      j := 1 + i;
      HeadFilled(w, fut, ks, t, c, u, x, FillElems(Opened(t, c).ares, x, s), i);
    }
  }

  /** A header alone: one token, which the slot's own weight pays at most. */
  lemma BareTook(t: RespData, c: nat, w: Bytes, fut: Bytes, ks: seq<Token>, u: nat)
    requires c >= 1 && t.kind == Empty && Untagged(t) && ks != []
    requires Off(w, fut, u) || Behind(w, fut, u, ks[1..])
    ensures Took(Outcome(More, Opened(t, c), u, true), t, w, fut, ks, 1)
  {
    hide Off, Behind, Weight, Live, Untagged;
    OpenedWeighs(t, c);
    if t.ares == [] {
      assert Opened(t, c).ares[0] == BLANK;
    }
  }

  lemma OpenedSlots(t: RespData, c: nat)
    requires Untagged(t) && c >= 1
    ensures AllUntagged(Opened(t, c).ares) && |Opened(t, c).ares| == c
  {
    ResizeUntagged(t.ares, c);
  }

  /** Header and elements together. */
  lemma HeadFilled(w: Bytes, fut: Bytes, ks: seq<Token>, t: RespData, c: nat, u: nat, x: Bytes, r: Fill, i: nat)
    requires c >= 1 && t.kind == Empty && Untagged(t) && ks != [] && u <= |w| && x == w[u..]
    requires Filled(r, Opened(t, c).ares, x, fut, ks[1..], i) && |r.es| == c
    ensures Took(Outcome(r.st, Opened(t, c).(ares := r.es), u + r.used, r.inc || r.st == More), t, w, fut, ks, 1 + i)
  {
    hide Stream, Weights, Lives, HasEmpty;
    OpenedWeighs(t, c);
    assert ks[1..][i..] == ks[1 + i..];
    assert r.used <= |x| ==> x[r.used..] == w[u + r.used..];
    var t' := Opened(t, c).(ares := r.es);
    assert Weight(t') == 1 + Weights(r.es) && Live(t') == Weights(r.es);
  }

  lemma {:induction false} ReadTook(w: Bytes, fut: Bytes, ks: seq<Token>, s: char, t: RespData) returns (j: nat)
    requires w + fut == Stream(ks) && WfTokens(ks) && t.kind == Empty && Untagged(t)
    ensures Took(ReadData(w, s, t), t, w, fut, ks, j)
    decreases |ks|, 3
  {
    hide ReadData, Took, Untagged;
    if w == [] {
      assert [] + fut == fut;
      NothingTook(fut, ks, s, t);
      j := 0;
    } else {
      assert ks != [];
      assert ks[0] in ks;
      if ks[0].Head? {
        j := HeadTook(w, fut, ks, s, t);
      } else if ks[0].v.Arr? {
        j := EmptyArrayTook(w, fut, ks, s, t);
      } else {
        j := ScalarTook(w, fut, ks, s, t);
      }
    }
  }

  lemma {:induction false} FillTook(ts: seq<RespData>, w: Bytes, fut: Bytes, ks: seq<Token>, s: char) returns (j: nat)
    requires w + fut == Stream(ks) && WfTokens(ks) && AllUntagged(ts)
    ensures Filled(FillElems(ts, w, s), ts, w, fut, ks, j)
    decreases |ks|, 4, |ts|
  {
    hide ReadData, FillElems, Took, Filled, Stream, Untagged;
    if ts == [] {
      j := 0;
      NoneFilled(w, fut, ks, s);
    } else {
      var t, rest := ts[0], ts[1..];
      assert [t] + rest == ts;
      assert t in ts && forall x :: x in rest ==> x in ts;
      if t.kind != Empty {
        KindUntagged(t);
        PassOver(ts, w, s);
        j := FillTook(rest, w, fut, ks, s);
        PassedFilled(t, rest, FillElems(rest, w, s), w, fut, ks, j);
      } else {
        var i := ReadTook(w, fut, ks, s, t);
        FillCons(ts, w, s);
        var o := ReadData(w, s, t);
        if o.st == Done {
          TookDone(o, t, w, fut, ks, i);
          assert forall k :: k in ks[i..] ==> k in ks;
          var i' := FillTook(rest, Skip(w, o.used), fut, ks[i..], s);
          j := i + i';
          ReadThenFilled(o, t, rest, FillElems(rest, Skip(w, o.used), s), w, fut, ks, i, i');
        } else {
          j := i;
          ReadUnfinished(o, t, rest, w, fut, ks, i);
        }
      }
    }
  }

  lemma NoneFilled(w: Bytes, fut: Bytes, ks: seq<Token>, s: char)
    requires w + fut == Stream(ks)
    ensures Filled(FillElems([], w, s), [], w, fut, ks, 0)
  {
    assert w[0..] == w && ks[0..] == ks;
  }

  lemma KindUntagged(t: RespData)
    requires Untagged(t)
    ensures t.kind != Array
  {
  }

  lemma TookDone(o: Outcome, t: RespData, w: Bytes, fut: Bytes, ks: seq<Token>, i: nat)
    requires Took(o, t, w, fut, ks, i) && o.st == Done
    ensures 1 <= i <= |ks| && o.used <= |w| && Skip(w, o.used) + fut == Stream(ks[i..])
  {
  }

  /** A finished slot is passed over. */
  lemma PassedFilled(t: RespData, rest: seq<RespData>, r: Fill, w: Bytes, fut: Bytes, ks: seq<Token>, j: nat)
    requires t.kind != Empty && Untagged(t) && Filled(r, rest, w, fut, ks, j)
    ensures Filled(Fill(r.st, [t] + r.es, r.used, r.inc), [t] + rest, w, fut, ks, j)
  {
    hide Behind, Off, Weight, Live, Untagged;
    EmptyBehind(t, r.es);
    assert ([t] + rest)[1..] == rest && ([t] + r.es)[1..] == r.es;
  }

  lemma EmptyBehind(t: RespData, ts: seq<RespData>)
    ensures t.kind == Empty || HasEmpty(ts) ==> HasEmpty([t] + ts)
  {
    if i :| 0 <= i < |ts| && ts[i].kind == Empty {
      assert ([t] + ts)[i + 1].kind == Empty;
    }
    assert ([t] + ts)[0] == t;
  }

  /** A slot was read and the loop went on. */
  lemma ReadThenFilled(o: Outcome, t: RespData, rest: seq<RespData>, r: Fill, w: Bytes, fut: Bytes, ks: seq<Token>,
                       i: nat, i': nat)
    requires Took(o, t, w, fut, ks, i) && o.st == Done
    requires Filled(r, rest, Skip(w, o.used), fut, ks[i..], i')
    ensures i + i' <= |ks|
    ensures Filled(Fill(r.st, [o.t] + r.es, o.used + r.used, r.inc), [t] + rest, w, fut, ks, i + i')
  {
    hide Stream, Weight, Live, Untagged, HasEmpty;
    EmptyBehind(o.t, r.es);
    assert ([t] + rest)[1..] == rest && ([o.t] + r.es)[1..] == r.es;
    assert ks[i..][i'..] == ks[i + i'..];
    assert r.used <= |w| - o.used ==> w[o.used..][r.used..] == w[o.used + r.used..];
    LiveWeight(t);
    LiveWeight(o.t);
  }

  lemma LiveWeight(t: RespData)
    ensures Live(t) <= Weight(t)
  {
  }

  lemma ReadUnfinished(o: Outcome, t: RespData, rest: seq<RespData>, w: Bytes, fut: Bytes, ks: seq<Token>, i: nat)
    requires Took(o, t, w, fut, ks, i) && o.st != Done && AllUntagged(rest)
    ensures Filled(Fill(o.st, [o.t] + rest, o.used, o.inc), [t] + rest, w, fut, ks, i)
  {
    hide Behind, Off, Weight, Live, Untagged;
    EmptyBehind(o.t, rest);
    assert ([t] + rest)[1..] == rest && ([o.t] + rest)[1..] == rest;
  }
}

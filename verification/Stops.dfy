/** Where a chunk may end: which stops are harmless, which make the parser throw, and what one
    call of the parser does with a reply that is only partly there. */
module Stops {
  import opened ByteStrings
  import opened Resp
  import opened ParserSpec
  import opened WholeReply

  /** The bytes of the first m replies. */
  function PrefixLen(vs: seq<Reply>, m: nat): nat
    requires m <= |vs|
    decreases m
  {
    if m == 0 then 0 else |Enc(vs[0])| + PrefixLen(vs[1..], m - 1)
  }

  /** How many leading replies can be finished from the first n bytes of their encodings. */
  function Avail(vs: seq<Reply>, n: nat): (m: nat)
    ensures m <= |vs|
    ensures PrefixLen(vs, m) <= n
    decreases |vs|
  {
    if vs == [] || n < Need(vs[0]) then 0
    else 1 + Avail(vs[1..], n - |Enc(vs[0])|)
  }

  /** The parser has taken the length of an array of which q bytes are there: its carriage return has come, or a
      leftover one stands behind three header bytes or more. */
  predicate Entered(v: Reply, q: nat, s: char) {
    v.Arr? && q >= 4 && (q >= |Dec(|v.items|)| + 2 || s == '\r')
  }

  /** With n bytes of the elements there, some array element is complete or has been entered: the parser, which
      does not tag it, will read into its slot again. */
  predicate Touched(es: seq<Reply>, n: nat, s: char)
    decreases |es|
  {
    if es == [] then false
    else if n < Need(es[0]) then Entered(es[0], n, s)
    else es[0].Arr? || Touched(es[1..], n - |Enc(es[0])|, s)
  }

  function HeaderLen(v: Reply): nat
    requires v.Arr?
  {
    |Dec(|v.items|)| + 3
  }

  /** Stop inside the header's digits (three or more seen, more to come) while the byte past the
      filled region is a leftover carriage return. */
  predicate HeaderStop(v: Reply, q: nat, s: char) {
    v.Arr? && 4 <= q <= |Dec(|v.items|)| && s == '\r'
  }

  /** Stop exactly behind an element that is not the last one, while the byte past the filled
      region does not look like a reply type. */
  predicate EdgeStop(v: Reply, q: nat, s: char) {
    v.Arr? && q > HeaderLen(v) && !IsTypeByte(s) &&
    var n := q - HeaderLen(v);
    var m := Avail(v.items, n);
    m < |v.items| && n == PrefixLen(v.items, m)
  }

  predicate BadStop(v: Reply, q: nat, s: char) {
    HeaderStop(v, q, s) || EdgeStop(v, q, s)
  }

  /** Stop after an array nested in the reply was entered and before the reply is complete. */
  predicate NestedStop(v: Reply, q: nat, s: char) {
    v.Arr? && q >= HeaderLen(v) &&
    Avail(v.items, q - HeaderLen(v)) < |v.items| && Touched(v.items, q - HeaderLen(v), s)
  }

  /** All elements are available exactly when the closing element's need is met. */
  lemma {:induction false} AvailAll(es: seq<Reply>, n: nat)
    requires es != []
    ensures Avail(es, n) == |es| <==> n >= |EncAll(es)| + if EndsBlank(es[|es| - 1]) then 1 else 0
    decreases |es|
  {
    if |es| == 1 {
      assert EncAll(es[1..]) == [];
    } else {
      assert EncAll(es) == Enc(es[0]) + EncAll(es[1..]);
      if n >= Need(es[0]) {
        AvailAll(es[1..], n - |Enc(es[0])|);
      }
    }
  }

  lemma {:induction false} AvailMonotone(es: seq<Reply>, n: nat, n': nat)
    requires n <= n'
    ensures Avail(es, n) <= Avail(es, n')
    decreases |es|
  {
    if es != [] && n >= Need(es[0]) {
      AvailMonotone(es[1..], n - |Enc(es[0])|, n' - |Enc(es[0])|);
    }
  }

  /** Some of the first m elements is an array. */
  predicate ArrayAmong(es: seq<Reply>, m: nat)
    requires m <= |es|
    decreases m
  {
    m > 0 && (es[0].Arr? || ArrayAmong(es[1..], m - 1))
  }

  /** Availability and nesting split at the elements already read. */
  lemma {:induction false} AvailSplit(es: seq<Reply>, m: nat, n: nat, s: char)
    requires m <= |es|
    requires Avail(es, PrefixLen(es, m) + n) >= m
    ensures Avail(es, PrefixLen(es, m) + n) == m + Avail(es[m..], n)
    ensures Touched(es, PrefixLen(es, m) + n, s) <==> ArrayAmong(es, m) || Touched(es[m..], n, s)
    decreases m
  {
    hide Enc;
    if m == 0 {
      assert es[0..] == es;
    } else {
      assert es[1..][m - 1..] == es[m..];
      AvailSplit(es[1..], m - 1, n, s);
    }
  }

  lemma {:induction false} FlatNotTouched(es: seq<Reply>, n: nat, s: char)
    requires forall e :: e in es ==> !e.Arr?
    ensures !Touched(es, n, s)
    decreases |es|
  {
    if es != [] && n >= Need(es[0]) {
      FlatNotTouched(es[1..], n - |Enc(es[0])|, s);
    }
  }

  /** A scalar that is not complete leaves the parser where it was. */
  lemma ScalarMore(v: Reply, w: Bytes, s: char, t: RespData)
    requires Wf(v) && !v.Arr? && Ready(t, v)
    requires w <= Enc(v) && 1 <= |w| < Need(v)
    ensures var r := ReadScalar(w, s, t);
            r.st == More && Ready(r.t, v) && r.used == 0 && !r.inc
  {
    assert w[0] == Enc(v)[0];
    if v.Bulk? {
      if |w| >= 5 {
        assert Enc(v)[1..] == Dec(|v.data|) + (CRLF + v.data + CRLF);
        BulkMore(v.data, w[1..], s, t);
      }
    } else if !v.Nil? && |w| >= 4 {
      var line := if v.Num? then Dec(v.n) else v.text;
      assert Enc(v)[1..] == line + CRLF;
      LineMore(line, w[1..]);
    }
  }

  lemma LineMore(line: Bytes, u: Bytes)
    requires '\r' !in line && u <= line + CRLF && |u| < |line| + 2
    ensures FirstCR(u) >= |u| - 1
  {
    assert forall i :: 0 <= i < |u| ==> u[i] == (line + CRLF)[i];
  }

  lemma BulkMore(data: Bytes, u: Bytes, s: char, t: RespData)
    requires |data| <= BULK_MAX
    requires u <= Dec(|data|) + (CRLF + data + CRLF) && 4 <= |u| < |Dec(|data|)| + |data| + 4
    ensures ReadBulkString(u, s, t) == Outcome(More, t, 0, false)
  {
    hide Dec, FirstCR, SizeValue;
    var d := Dec(|data|);
    var k := LengthStop(|data|, CRLF + data + CRLF, u);
    assert u[0] == d[0] == (d + (CRLF + data + CRLF))[0];
    assert k < |u| ==> |u| - k < |data| + 4;
  }

  /** Scanning a length whose text may be cut short: the value found so far is no larger. */
  lemma {:induction false} LengthStop(n: nat, after: Bytes, u: Bytes) returns (k: nat)
    requires n <= BULK_MAX && after != [] && after[0] == '\r'
    requires u <= Dec(n) + after && u != []
    ensures k == FirstCR(u)
    ensures SizeValue(u[..k]) <= n && (n >= 1 ==> SizeValue(u[..k]) >= 1)
    ensures if |u| <= |Dec(n)| then k == |u| else k == |Dec(n)| && SizeValue(u[..k]) == n
  {
    var d := Dec(n);
    assert forall i :: 0 <= i < |u| ==> u[i] == (d + after)[i];
    k := if |u| <= |d| then |u| else |d|;
    FirstCRAt(u, k);
    assert u[..k] == d[..k];
    SizeValueOfDec(n);
    assert d[..|d|] == d;
    if n >= 1 {
      SizeValueOfDecPrefix(n, k);
    } else {
      assert |d| == 1;
    }
  }

  // ---- a header that is only partly there

  lemma HeaderPart(n: nat, w: Bytes, rest: Bytes, s: char)
    requires 1 <= n <= VECTOR_MAX
    requires w <= Header(n) + rest && 1 <= |w| < |Header(n)|
    ensures var r := ReadData(w, s, BLANK);
            var d := |Dec(n)|;
            if |w| < 4 || (|w| <= d + 1 && s != '\r') then r == Outcome(More, BLANK, 0, false)
            else
              r.st == More && r.inc && |r.t.ares| >= 1
              && r.t == BLANK.(ares := Resize([], |r.t.ares|))
              && (|w| > d ==> |r.t.ares| == n)
              && r.used == if |w| <= d + 1 then |w| + 2 else |w| + 1
  {
    hide InitArray, Dec, Resize;
    var after := CRLF + rest;
    assert Header(n) + rest == ['*'] + (Dec(n) + after);
    assert w[0] == (Header(n) + rest)[0] == '*';
    if |w| >= 4 {
      ReadsArray(w, s);
      assert w[1..] <= Dec(n) + after;
      InitPart(n, w[1..], after, s);
    }
  }

  lemma ReadsArray(w: Bytes, s: char)
    requires |w| >= 4 && w[0] == '*'
    ensures var r := InitArray(w[1..], s, BLANK);
            ReadData(w, s, BLANK) == if r.used == 0 then r else r.(used := 1 + r.used)
  {
    hide InitArray;
  }

  lemma InitPart(n: nat, u: Bytes, after: Bytes, s: char)
    requires 1 <= n <= VECTOR_MAX && |after| >= 2 && after[0] == '\r'
    requires u <= Dec(n) + after && 3 <= |u| <= |Dec(n)| + 1
    ensures var r := InitArray(u, s, BLANK);
            var d := |Dec(n)|;
            if |u| <= d && s != '\r' then r == Outcome(More, BLANK, 0, false)
            else
              r.st == More && r.inc && |r.t.ares| >= 1
              && r.t == BLANK.(ares := Resize([], |r.t.ares|))
              && (|u| >= d ==> |r.t.ares| == n)
              && r.used == if |u| <= d then |u| + 2 else |u| + 1
  {
    var k := LengthStop(n, after, u);
    assert u[0] == (Dec(n) + after)[0] == Dec(n)[0];
    var c := SizeValue(u[..k]);
    if |u| == |Dec(n)| {
      assert u[..k] == Dec(n);
      SizeValueOfDec(n);
    }
    assert Skip(u, k + 2) == [];
    if k < |u| || s == '\r' {
      var t := BLANK.(ares := Resize([], c));
      assert FillArray(t, [], s) == Outcome(More, t, 0, false);
    }
  }

  /** The slots of a partly read array: m finished, the rest waiting. */
  predicate Partial(ts: seq<RespData>, es: seq<Reply>, m: nat) {
    |ts| == |es| && m <= |es| && ts[..m] == Vals(es[..m]) && AllReady(ts[m..], es[m..])
  }

  /** The element loop takes the slots one at a time. */
  lemma FillCons(ts: seq<RespData>, w: Bytes, s: char)
    requires ts != [] && ts[0].kind == Empty
    ensures var e := ReadData(w, s, ts[0]);
            FillElems(ts, w, s) ==
            if e.st != Done then Fill(e.st, [e.t] + ts[1..], e.used, e.inc)
            else
              var r := FillElems(ts[1..], Skip(w, e.used), s);
              Fill(r.st, [e.t] + r.es, e.used + r.used, r.inc)
  {
  }

  /** A nested header cut within its length, with no carriage return left over, is harmless. */
  lemma NestedHeaderMore(es: seq<Reply>, w: Bytes, rest: Bytes, s: char)
    requires Wf(Arr(es)) && 4 <= |w| < Need(Arr(es)) && !Entered(Arr(es), |w|, s)
    requires w <= Enc(Arr(es)) + rest
    ensures ReadData(w, s, BLANK) == Outcome(More, BLANK, 0, false)
  {
    assert es != [] by {
      assert |Enc(Arr([]))| == 4;
    }
    hide ReadData, EncAll, Dec;
    assert |Enc(Arr(es))| == |Dec(|es|)| + 3 + |EncAll(es)|;
    assert Enc(Arr(es)) + rest == Header(|es|) + (EncAll(es) + rest);
    HeaderPart(|es|, w, EncAll(es) + rest, s);
  }

  /** The first element that is not all there. */
  lemma ElementMore(e: Reply, w: Bytes, rest: Bytes, s: char, t: RespData)
    requires Wf(e) && Ready(t, e)
    requires w <= Enc(e) + rest && |w| < Need(e) && !Entered(e, |w|, s)
    ensures var r := ReadData(w, s, t);
            r.used == 0 && !r.inc &&
            if w == [] && !IsTypeByte(s) then r.st == Thrown else r.st == More && Ready(r.t, e)
  {
    if w != [] {
      assert w[0] == (Enc(e) + rest)[0] == Enc(e)[0];
      if !e.Arr? {
        assert w <= Enc(e);
        ScalarMore(e, w, s, t);
      } else if |w| >= 4 {
        NestedHeaderMore(e.items, w, rest, s);
        assert t == BLANK;
      }
    }
  }

  /** The element loop on elements that are not all there. */
  lemma {:induction false} FillStop(es: seq<Reply>, ts: seq<RespData>, w: Bytes, tail: Bytes, s: char)
    requires AllWf(es) && |ts| == |es| && AllReady(ts, es)
    requires w <= EncAll(es) + tail
    requires Avail(es, |w|) < |es| && !Touched(es, |w|, s)
    ensures var r := FillElems(ts, w, s);
            var m := Avail(es, |w|);
            r.used == PrefixLen(es, m) && !r.inc &&
            if |w| == r.used && !IsTypeByte(s) then r.st == Thrown
            else r.st == More && Partial(r.es, es, m)
    decreases |es|
  {
    hide ReadData, FillElems, Enc, Val, Partial, Ready, AllReady, EndsBlank;
    var e, t := es[0], ts[0];
    var rest := EncAll(es[1..]) + tail;
    assert EncAll(es) + tail == Enc(e) + rest;
    FirstReady(ts, es);
    FillCons(ts, w, s);
    if |w| >= Need(e) {
      var w' := w[|Enc(e)|..];
      WholeAhead(Enc(e), rest, w);
      ReadWhole(e, w', s, t);
      FillStop(es[1..], ts[1..], w', tail, s);
      var r' := FillElems(ts[1..], w', s);
      if r'.st == More {
        PartialCons(r'.es, es, Avail(es, |w|) - 1);
      }
    } else {
      ElementMore(e, w, rest, s, t);
      var r := ReadData(w, s, t);
      if r.st == More {
        NothingYet(ts, es, r.t);
      }
    }
  }

  lemma FirstReady(ts: seq<RespData>, es: seq<Reply>)
    requires es != [] && |ts| == |es| && AllReady(ts, es)
    ensures Ready(ts[0], es[0]) && AllReady(ts[1..], es[1..]) && ts[0].kind == Empty
  {
  }

  lemma WholeAhead(a: Bytes, rest: Bytes, w: Bytes)
    requires w <= a + rest && |w| >= |a|
    ensures w == a + w[|a|..] && w[|a|..] <= rest
  {
  }

  lemma NothingYet(ts: seq<RespData>, es: seq<Reply>, t: RespData)
    requires es != [] && |ts| == |es| && AllReady(ts, es) && Ready(t, es[0])
    ensures Partial([t] + ts[1..], es, 0)
  {
    var us := [t] + ts[1..];
    assert us[..0] == [] && es[..0] == [] && us[0..] == us && es[0..] == es;
  }

  lemma PartialCons(ts: seq<RespData>, es: seq<Reply>, m: nat)
    requires es != [] && Partial(ts, es[1..], m)
    ensures Partial([Val(es[0])] + ts, es, m + 1)
  {
    var all := [Val(es[0])] + ts;
    assert es[..m + 1][1..] == es[1..][..m];
    assert all[..m + 1] == [Val(es[0])] + ts[..m];
    assert all[m + 1..] == ts[m..] && es[m + 1..] == es[1..][m..];
  }

  lemma PassOver(ts: seq<RespData>, w: Bytes, s: char)
    requires ts != [] && ts[0].kind != Array && ts[0].kind != Empty
    ensures var r := FillElems(ts[1..], w, s);
            FillElems(ts, w, s) == Fill(r.st, [ts[0]] + r.es, r.used, r.inc)
  {
    assert Skip(w, 0) == w;
  }

  /** Finished scalars are passed over when the loop starts again. */
  lemma {:induction false} FillSkips(es: seq<Reply>, ts: seq<RespData>, m: nat, w: Bytes, s: char)
    requires Partial(ts, es, m) && m <= |es|
    requires !ArrayAmong(es, m)
    ensures var r := FillElems(ts[m..], w, s);
            FillElems(ts, w, s) == Fill(r.st, ts[..m] + r.es, r.used, r.inc)
    decreases m
  {
    hide FillElems, Enc;
    if m == 0 {
      assert ts[0..] == ts;
    } else {
      assert ts[..m][0] == Val(es[0]);
      PassOver(ts, w, s);
      assert es[..m][1..] == es[1..][..m - 1];
      assert ts[..m][1..] == ts[1..][..m - 1];
      assert ts[1..][m - 1..] == ts[m..] && es[1..][m - 1..] == es[m..];
      FillSkips(es[1..], ts[1..], m - 1, w, s);
      assert ts[..m] == [ts[0]] + ts[1..][..m - 1];
    }
  }
}

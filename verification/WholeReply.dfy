/** A reply held entirely in the buffer: the parser rebuilds its tree, whatever its nesting,
    and stops exactly behind it. */
module WholeReply {
  import opened ByteStrings
  import opened Resp
  import opened ParserSpec

  /** A slot the parser may fill: blank, except that an interrupted integer leaves digits behind. */
  predicate Ready(t: RespData, v: Reply) {
    t == BLANK.(ires := t.ires) && (v.Num? || t.ires == 0)
  }

  predicate AllReady(ts: seq<RespData>, vs: seq<Reply>)
    requires |ts| == |vs|
  {
    forall i :: 0 <= i < |vs| ==> Ready(ts[i], vs[i])
  }

  lemma LineBody(line: Bytes, tail: Bytes)
    requires '\r' !in line
    ensures var u := line + CRLF + tail;
            FirstCR(u) == |line| && u[..|line|] == line
  {
    FirstCRAt(line + CRLF + tail, |line|);
  }

  lemma ReadLine(v: Reply, tail: Bytes, s: char, t: RespData)
    requires Wf(v) && (v.Str? || v.Err? || v.Num?) && Ready(t, v)
    requires |Enc(v) + tail| >= Need(v)
    ensures ReadScalar(Enc(v) + tail, s, t) == Outcome(Done, Val(v), |Enc(v)|, false)
  {
    var w := Enc(v) + tail;
    var line := if v.Num? then Dec(v.n) else v.text;
    assert w[1..] == line + CRLF + tail;
    LineBody(line, tail);
    if v.Num? {
      IntValueOfDec(v.n);
      DecNoOverflow(v.n);
      Int32ValueExact(Dec(v.n));
    }
  }

  lemma BulkLayout(d: Bytes, data: Bytes, tail: Bytes)
    requires '\r' !in d
    ensures var u := d + CRLF + (data + CRLF + tail);
            FirstCR(u) == |d| && u[..|d|] == d && u[|d| + 2..|d| + 2 + |data|] == data
  {
    FirstCRAt(d + CRLF + (data + CRLF + tail), |d|);
  }

  lemma {:induction false} ReadBulkBody(data: Bytes, tail: Bytes, s: char, t: RespData)
    requires |data| <= BULK_MAX
    ensures var u := Dec(|data|) + CRLF + (data + CRLF + tail);
            ReadBulkString(u, s, t)
            == Outcome(Done, t.(sres := data, kind := BulkStr), |Dec(|data|)| + |data| + 4, false)
  {
    hide Dec, FirstCR, SizeValue;
    var d, n := Dec(|data|), |data|;
    var u := d + CRLF + (data + CRLF + tail);
    assert u[0] == d[0];
    BulkLayout(d, data, tail);
    SizeValueOfDec(n);
    assert (n + 4) % SIZE_RANGE == n + 4;
  }

  lemma ReadBulk(v: Reply, tail: Bytes, s: char, t: RespData)
    requires Wf(v) && (v.Bulk? || v.Nil?) && Ready(t, v)
    ensures ReadScalar(Enc(v) + tail, s, t) == Outcome(Done, Val(v), |Enc(v)|, false)
  {
    var w := Enc(v) + tail;
    if v.Bulk? {
      assert w[1..] == Dec(|v.data|) + CRLF + (v.data + CRLF + tail);
      ReadBulkBody(v.data, tail, s, t);
    } else {
      assert w[1] == '-';
    }
  }

  /** Main result for trees held whole in memory. */
  lemma {:induction false} ReadWhole(v: Reply, tail: Bytes, s: char, t: RespData)
    requires Wf(v) && Ready(t, v)
    requires |tail| >= 1 || !EndsBlank(v)
    ensures ReadData(Enc(v) + tail, s, t) == Outcome(Done, Val(v), |Enc(v)|, false)
    decreases v, 0
  {
    if v.Str? || v.Err? || v.Num? {
      ReadLine(v, tail, s, t);
    } else if v.Bulk? || v.Nil? {
      ReadBulk(v, tail, s, t);
    } else {
      ReadArray(v.items, tail, s);
      assert t == BLANK;
    }
  }

  lemma ReadEmptyArray(tail: Bytes, s: char)
    ensures ReadData(Enc(Arr([])) + tail, s, BLANK) == Outcome(Done, Val(Arr([])), |Enc(Arr([]))|, false)
  {
    var w := Enc(Arr([])) + tail;
    assert w == ['*', '0', '\r', '\n'] + tail;
    assert w[1..][0] == '0';
  }

  /** FillArray on the fresh slots of a complete array. */
  lemma {:induction false} FillFresh(vs: seq<Reply>, tail: Bytes, s: char)
    requires vs != [] && AllWf(vs)
    requires |tail| >= 1 || !EndsBlank(vs[|vs| - 1])
    ensures FillArray(BLANK.(ares := Resize([], |vs|)), EncAll(vs) + tail, s)
         == Outcome(Done, Val(Arr(vs)), |EncAll(vs)|, false)
    decreases vs, 2
  {
    FillWhole(vs, Resize([], |vs|), tail, s);
  }

  lemma {:induction false} ReadArray(vs: seq<Reply>, tail: Bytes, s: char)
    requires Wf(Arr(vs))
    requires vs != [] ==> |tail| >= 1 || !EndsBlank(vs[|vs| - 1])
    ensures ReadData(Enc(Arr(vs)) + tail, s, BLANK) == Outcome(Done, Val(Arr(vs)), |Enc(Arr(vs))|, false)
    decreases vs, 3
  {
    hide FillArray, ReadData;
    if vs == [] {
      ReadEmptyArray(tail, s);
    } else {
      FillFresh(vs, tail, s);
      ReadHeader(|vs|, EncAll(vs) + tail, s);
      assert Enc(Arr(vs)) + tail == Header(|vs|) + (EncAll(vs) + tail);
    }
  }

  /** Reading a complete, non-empty array header leaves the elements to FillArray. */
  lemma ReadHeader(n: nat, x: Bytes, s: char)
    requires 1 <= n <= VECTOR_MAX
    ensures var r := FillArray(BLANK.(ares := Resize([], n)), x, s);
            ReadData(Header(n) + x, s, BLANK)
            == Outcome(r.st, r.t, |Header(n)| + r.used, r.inc || r.st == More)
  {
    var d := Dec(n);
    var u := (Header(n) + x)[1..];
    assert u == d + CRLF + x;
    FirstCRAt(u, |d|);
    assert u[..|d|] == d;
    SizeValueOfDec(n);
    assert Skip(u, |d| + 2) == x;
    assert u[0] == d[0];
  }

  lemma {:induction false} FillWhole(vs: seq<Reply>, ts: seq<RespData>, tail: Bytes, s: char)
    requires AllWf(vs) && |ts| == |vs| && AllReady(ts, vs)
    requires vs != [] ==> |tail| >= 1 || !EndsBlank(vs[|vs| - 1])
    ensures FillElems(ts, EncAll(vs) + tail, s) == Fill(Done, Vals(vs), |EncAll(vs)|, false)
    decreases vs, 1
  {
    hide ReadData, FillArray, Enc, Val;
    if vs != [] {
      var rest := EncAll(vs[1..]) + tail;
      assert EncAll(vs) + tail == Enc(vs[0]) + rest;
      ReadWhole(vs[0], rest, s, ts[0]);
      assert Skip(Enc(vs[0]) + rest, |Enc(vs[0])|) == rest;
      FillWhole(vs[1..], ts[1..], tail, s);
    }
  }

  /** RESP framing is unambiguous: no stream starts with two different replies. */
  lemma FramingUnique(u: Reply, v: Reply, x: Bytes, y: Bytes)
    requires Wf(u) && Wf(v)
    requires Enc(u) + x == Enc(v) + y
    ensures Enc(u) == Enc(v) && Val(u) == Val(v) && x == y
  {
    var pad := ['+'];
    assert Enc(u) + (x + pad) == Enc(u) + x + pad;
    assert Enc(v) + (y + pad) == Enc(v) + y + pad;
    ReadWhole(u, x + pad, '+', BLANK);
    ReadWhole(v, y + pad, '+', BLANK);
    assert Enc(u) == (Enc(u) + x)[..|Enc(u)|];
    assert Enc(v) == (Enc(v) + y)[..|Enc(v)|];
    assert x == (Enc(u) + x)[|Enc(u)|..];
    assert y == (Enc(v) + y)[|Enc(v)|..];
  }
}

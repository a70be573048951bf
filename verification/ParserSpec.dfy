/** What one call of the RESP parser computes, as functions of the unread bytes `w`
    and of `s`, the byte in memory just past the filled region, which the source may inspect. */
module ParserSpec {
  import opened ByteStrings
  import opened Resp

  datatype Status = Done | More | Thrown

  /** used: how far the parse offset moved (it may move past the unread bytes);
      inc: whether the incomplete-array flag was raised. */
  datatype Outcome = Outcome(st: Status, t: RespData, used: nat, inc: bool)

  datatype Fill = Fill(st: Status, es: seq<RespData>, used: nat, inc: bool)

  function Skip(w: Bytes, n: nat): Bytes {
    if n <= |w| then w[n..] else []
  }

  lemma SkipSkip(w: Bytes, m: nat, n: nat)
    ensures Skip(Skip(w, m), n) == Skip(w, m + n)
  {
  }

  /** The bytes parsed as a reply type; any other byte makes the parser throw. */
  predicate IsTypeByte(c: char) {
    c == '+' || c == '-' || c == ':' || c == '$' || c == '*'
  }

  function ReadSimpleString(u: Bytes, t: RespData): (r: Outcome)
    requires |u| >= 3
    ensures !r.inc && (r.st != Done ==> r.used == 0)
  {
    var k := FirstCR(u);
    if k + 2 <= |u| then Outcome(Done, t.(sres := u[..k]), k + 2, false)
    else Outcome(More, t, 0, false)
  }

  function ReadInteger(u: Bytes, t: RespData): (r: Outcome)
    requires |u| >= 3
    ensures !r.inc && (r.st != Done ==> r.used == 0)
  {
    var k := FirstCR(u);
    if k + 2 <= |u| then Outcome(Done, t.(ires := Int32Value(u[..k]), kind := Integer), k + 2, false)
    else Outcome(More, t.(ires := Int32Value(u[..|u| - 2])), 0, false)
  }

  function ReadBulkString(u: Bytes, s: char, t: RespData): (r: Outcome)
    requires |u| >= 4
    ensures !r.inc && (r.st != Done ==> r.used == 0)
  {
    if u[0] == '-' then Outcome(Done, t.(isnull := true), 4, false)
    else
      var k := FirstCR(u);
      if k == |u| && s != '\r' then Outcome(More, t, 0, false)
      else
        var n := SizeValue(u[..k]);
        if |u| - k < (n + 4) % SIZE_RANGE then Outcome(More, t, 0, false)
        else if n > BULK_MAX then Outcome(Thrown, t, 0, false)
        else Outcome(Done, t.(sres := u[k + 2..k + 2 + n], kind := BulkStr), k + n + 4, false)
  }

  /** std::vector::resize: existing elements stay, new ones are blank. */
  function Resize(ts: seq<RespData>, n: nat): (rs: seq<RespData>)
    ensures |rs| == n
  {
    if n <= |ts| then ts[..n] else ts + seq(n - |ts|, _ => BLANK)
  }

  function InitArray(u: Bytes, s: char, t: RespData): (r: Outcome)
    requires |u| >= 3
    ensures r.st == Done ==> r.used >= 1 && !r.inc
    decreases |u|, t, 2
  {
    if u[0] == '0' then Outcome(Done, t.(isnull := true), 3, false)
    else
      var k := FirstCR(u);
      if k == |u| && s != '\r' then Outcome(More, t, 0, false)
      else
        var n := SizeValue(u[..k]);
        if n > VECTOR_MAX then Outcome(Thrown, t, 0, false)
        else
          var r := FillArray(t.(ares := Resize(t.ares, n)), Skip(u, k + 2), s);
          Outcome(r.st, r.t, k + 2 + r.used, r.inc || r.st == More)
  }

  function FillArray(t: RespData, w: Bytes, s: char): (r: Outcome)
    ensures r.st == Done ==> !r.inc
    decreases |w|, t, 1
  {
    if t.ares == [] then Outcome(Done, t, 0, false)
    else if w == [] then Outcome(More, t, 0, false)
    else
      var r := FillElems(t.ares, w, s);
      Outcome(r.st, t.(ares := r.es), r.used, r.inc)
  }

  lemma FillArrayCases(t: RespData, w: Bytes, s: char)
    ensures FillArray(t, w, s) ==
            if t.ares == [] then Outcome(Done, t, 0, false)
            else if w == [] then Outcome(More, t, 0, false)
            else
              var r := FillElems(t.ares, w, s);
              Outcome(r.st, t.(ares := r.es), r.used, r.inc)
  {
  }

  /** The element loop of FillArray, from its first element on. */
  function FillElems(es: seq<RespData>, w: Bytes, s: char): (r: Fill)
    ensures |r.es| == |es|
    ensures r.st == Done ==> !r.inc
    decreases |w|, es, 0
  {
    if es == [] then Fill(Done, [], 0, false)
    else
      var e := if es[0].kind == Array then FillArray(es[0], w, s)
               else if es[0].kind != Empty then Outcome(Done, es[0], 0, false)
               else ReadData(w, s, es[0]);
      if e.st != Done then Fill(e.st, [e.t] + es[1..], e.used, e.inc)
      else
        var r := FillElems(es[1..], Skip(w, e.used), s);
        Fill(r.st, [e.t] + r.es, e.used + r.used, r.inc)
  }

  /** The switch of ReadData without its array case. */
  function ReadScalar(w: Bytes, s: char, t: RespData): Outcome {
    var c := if w == [] then s else w[0];
    if c == '+' || c == '-' then
      if |w| < 4 then Outcome(More, t, 0, false)
      else
        var r := ReadSimpleString(w[1..], t);
        if r.st == Done then Outcome(Done, r.t.(kind := if c == '+' then SimpleStr else ErrorStr), 1 + r.used, false)
        else r
    else if c == ':' then
      if |w| < 4 then Outcome(More, t, 0, false)
      else
        var r := ReadInteger(w[1..], t);
        if r.st == Done then r.(used := 1 + r.used) else r
    else if c == '$' then
      if |w| < 5 then Outcome(More, t, 0, false)
      else
        var r := ReadBulkString(w[1..], s, t);
        if r.st == Done then Outcome(Done, r.t.(kind := BulkStr), 1 + r.used, false) else r
    else Outcome(Thrown, t, 0, false)
  }

  function ReadData(w: Bytes, s: char, t: RespData): (r: Outcome)
    ensures r.st == Done ==> r.used >= 1 && !r.inc
    decreases |w|, t, 3
  {
    if (if w == [] then s else w[0]) != '*' then ReadScalar(w, s, t)
    else if |w| < 4 then Outcome(More, t, 0, false)
    else
      var r := InitArray(w[1..], s, t);
      if r.used == 0 then r else r.(used := 1 + r.used)
  }
}

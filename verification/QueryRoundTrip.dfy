/** Builder and parser together: what one writes the other reads back. */
module QueryRoundTrip {
  import opened ByteStrings
  import opened Resp
  import opened ParserSpec
  import opened WholeReply
  import opened ParserMachine
  import opened StreamRuns
  import opened QueryBuilder

  /** What reading a command must produce: an array whose string results are the parts. */
  predicate Carries(t: RespData, parts: seq<Bytes>) {
    |t.ares| == |parts| && !t.isnull &&
    forall i :: 0 <= i < |parts| ==> t.ares[i] == BLANK.(kind := BulkStr, sres := parts[i])
  }

  predicate Sendable(parts: seq<Bytes>) {
    1 <= |parts| < BILLION && forall p :: p in parts ==> |p| < BILLION
  }

  lemma CommandWf(parts: seq<Bytes>)
    requires Sendable(parts)
    ensures Wf(Command(parts)) && Flat(Command(parts)) && !EndsBlank(Command(parts))
    ensures Carries(Val(Command(parts)), parts)
  {
    var vs := Bulks(parts);
    assert forall v :: v in vs ==> exists i :: 0 <= i < |parts| && v == Bulk(parts[i]) && parts[i] in parts;
    forall i | 0 <= i < |parts|
      ensures Vals(vs)[i] == BLANK.(kind := BulkStr, sres := parts[i])
    {
      ValsAt(vs, i);
    }
  }

  /** However the bytes of a built command are cut, the parser gives back its parts, unless a chunk
      ends at a bad stop, and then it throws. */
  lemma RoundTrip(ps: seq<Part>, chunks: seq<Bytes>, stales: seq<Stale>)
    requires Sendable(Payloads(ps)) && |chunks| == |stales| && (forall c :: c in chunks ==> c != [])
    requires Concat(chunks) == Enc(Command(Payloads(ps)))
    ensures var r := Run(FRESH, chunks, stales);
            if BadRun([Command(Payloads(ps))], 0, chunks, stales) then r.st == Thrown
            else r.st == More && |r.out| == 1 && Carries(r.out[0], Payloads(ps))
  {
    var v := Command(Payloads(ps));
    CommandWf(Payloads(ps));
    OneReply(v);
    ThrowsIffBadStop([v], chunks, stales);
    ChunkingFlat([v], chunks, stales);
  }

  /** So texts given as arguments arrive as given and in their order. */
  lemma ArgumentsArrive(ss: seq<Bytes>, chunks: seq<Bytes>, stales: seq<Stale>)
    requires Sendable(ss) && (forall s :: s in ss ==> NUL !in s)
    requires |chunks| == |stales| && (forall c :: c in chunks ==> c != [])
    requires Concat(chunks) == Enc(Command(Payloads(Texts(ss)))) && !BadRun([Command(ss)], 0, chunks, stales)
    ensures var r := Run(FRESH, chunks, stales); r.st == More && |r.out| == 1 && Carries(r.out[0], ss)
  {
    TextsInOrder(ss);
    RoundTrip(Texts(ss), chunks, stales);
  }

  lemma {:induction false} ChunkingFlat(rs: seq<Reply>, chunks: seq<Bytes>, stales: seq<Stale>)
    requires AllWf(rs) && AllFlat(rs) && |chunks| == |stales| && (forall c :: c in chunks ==> c != [])
    requires Concat(chunks) == EncAll(rs)
    ensures !BadRun(rs, 0, chunks, stales) ==> Run(FRESH, chunks, stales).st == More
  {
    FlatRun(rs, 0, chunks, stales);
    ChunkingInvariance(rs, chunks, stales);
  }

  /** The three-part fast query, read back: the command of its first two parts, and then an exception
      on the stray length of the third. */
  lemma {:induction false} ThreePartsMisread(cmd: Bytes, key: Bytes, val: Bytes, s: char)
    requires |cmd| < BILLION && |key| < BILLION
    ensures var q := ThreeText(cmd, key, val);
            var first := ParseOne(FRESH.(pend := q), s);
            first.st == Done && Carries(first.state.resp, [cmd, key])
            && ParseOne(first.state, s).st == Thrown
  {
    hide ReadData, ParseOne, Enc, Command, Wf, Flat, EndsBlank, Val, Dec, Carries;
    var v := Command([cmd, key]);
    var stray := Dec(|val|) + CRLF + val + CRLF;
    assert stray[0] == Dec(|val|)[0];
    CommandWf([cmd, key]);
    ParseFirst(v, stray, s);
    DigitThrows(PState(stray, 0, false, Val(v)), s);
  }

  lemma ParseFirst(v: Reply, rest: Bytes, s: char)
    requires Wf(v) && rest != []
    ensures ParseOne(FRESH.(pend := Enc(v) + rest), s) == Parsed(Done, PState(rest, 0, false, Val(v)))
  {
    hide ReadData, Enc, Wf;
    ReadWhole(v, rest, s, BLANK);
    assert (Enc(v) + rest)[|Enc(v)|..] == rest;
  }

  lemma DigitThrows(p: PState, s: char)
    requires !p.inc && p.pend != [] && IsDigit(p.pend[0])
    ensures ParseOne(p, s).st == Thrown
  {
  }

  /** A part with an embedded NUL is cut short: the built command carries the given parts exactly when
      none of them contains one. */
  lemma {:induction false} TextExact(ss: seq<Bytes>)
    ensures Payloads([Many(ss)]) == ss <==> forall s :: s in ss ==> NUL !in s
  {
    assert Payloads([Many(ss)]) == CStrs(ss) by {
      assert Payloads([Many(ss)][1..]) == [];
    }
    CStrsExact(ss);
  }

  lemma {:induction false} CStrsExact(ss: seq<Bytes>)
    ensures |CStrs(ss)| == |ss|
    ensures CStrs(ss) == ss <==> forall s :: s in ss ==> NUL !in s
  {
    if ss != [] {
      CStrsExact(ss[1..]);
      assert ss == [ss[0]] + ss[1..];
      assert CStrs(ss)[1..] == CStrs(ss[1..]);
    }
  }
}

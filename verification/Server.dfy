/** The abstract server: it reads the commands of the byte stream it receives one after another, and answers
    each with one reply. */
module Server {
  import opened ByteStrings
  import opened Resp
  import opened WholeReply
  import opened QueryBuilder
  import opened QueryRoundTrip

  /** The parts of a request the server read, and its reply. */
  datatype Exchange = Exchange(parts: seq<Bytes>, reply: Reply)

  function QueryBytes(parts: seq<Bytes>): Bytes {
    Enc(Command(parts))
  }

  function Queries(pss: seq<seq<Bytes>>): Bytes {
    if pss == [] then [] else QueryBytes(pss[0]) + Queries(pss[1..])
  }

  function Requests(xs: seq<Exchange>): Bytes {
    if xs == [] then [] else QueryBytes(xs[0].parts) + Requests(xs[1..])
  }

  function Replies(xs: seq<Exchange>): (rs: seq<Reply>)
    ensures |rs| == |xs| && forall i :: 0 <= i < |xs| ==> rs[i] == xs[i].reply
  {
    if xs == [] then [] else [xs[0].reply] + Replies(xs[1..])
  }

  /** The server can read this request next, and answer it with any reply. */
  predicate CanServe(xs: seq<Exchange>, received: Bytes, parts: seq<Bytes>, reply: Reply) {
    Sendable(parts) && Wf(reply) &&
    |Requests(xs)| <= |received| && QueryBytes(parts) <= received[|Requests(xs)|..]
  }

  lemma {:induction false} QueriesSnoc(pss: seq<seq<Bytes>>, ps: seq<Bytes>)
    ensures Queries(pss + [ps]) == Queries(pss) + QueryBytes(ps)
  {
    hide QueryBytes;
    if pss == [] {
      assert [ps][1..] == [] && QueryBytes(ps) + [] == QueryBytes(ps);
    } else {
      assert (pss + [ps])[1..] == pss[1..] + [ps];
      QueriesSnoc(pss[1..], ps);
      assert QueryBytes(pss[0]) + (Queries(pss[1..]) + QueryBytes(ps)) == Queries(pss) + QueryBytes(ps);
    }
  }

  lemma {:induction false} RequestsSnoc(xs: seq<Exchange>, x: Exchange)
    ensures Requests(xs + [x]) == Requests(xs) + QueryBytes(x.parts)
  {
    hide QueryBytes;
    if xs == [] {
      assert [x][1..] == [] && QueryBytes(x.parts) + [] == QueryBytes(x.parts);
    } else {
      assert (xs + [x])[1..] == xs[1..] + [x];
      RequestsSnoc(xs[1..], x);
      assert QueryBytes(xs[0].parts) + (Requests(xs[1..]) + QueryBytes(x.parts)) == Requests(xs) + QueryBytes(x.parts);
    }
  }

  /** The server has read the first of the queries sent. */
  predicate Reads(xs: seq<Exchange>, pss: seq<seq<Bytes>>) {
    |xs| <= |pss| && forall i :: 0 <= i < |xs| ==> xs[i].parts == pss[i]
  }

  lemma {:induction false} ServedPrefix(xs: seq<Exchange>, pss: seq<seq<Bytes>>)
    requires Reads(xs, pss)
    ensures Queries(pss) == Requests(xs) + Queries(pss[|xs|..])
  {
    hide QueryBytes;
    if xs == [] {
      assert pss[0..] == pss;
    } else {
      ServedPrefix(xs[1..], pss[1..]);
      assert pss[1..][|xs| - 1..] == pss[|xs|..];
      assert QueryBytes(pss[0]) + (Requests(xs[1..]) + Queries(pss[|xs|..])) == Requests(xs) + Queries(pss[|xs|..]);
    }
  }

  /** Two readings of the same bytes as a command give the same parts. */
  lemma SameParts(a: seq<Bytes>, b: seq<Bytes>, x: Bytes, y: Bytes)
    requires Sendable(a) && Sendable(b) && QueryBytes(a) + x == QueryBytes(b) + y
    ensures a == b
  {
    hide Enc, Val, Wf;
    CommandWf(a);
    CommandWf(b);
    FramingUnique(Command(a), Command(b), x, y);
    var t := Val(Command(a));
    assert forall i :: 0 <= i < |a| ==> a[i] == t.ares[i].sres == b[i];
  }

  /** The request the server reads next is the next query sent. */
  lemma NextRequest(xs: seq<Exchange>, pss: seq<seq<Bytes>>, received: Bytes, parts: seq<Bytes>, reply: Reply)
    requires Reads(xs, pss) && (forall ps :: ps in pss ==> Sendable(ps)) && received <= Queries(pss)
    requires CanServe(xs, received, parts, reply)
    ensures Reads(xs + [Exchange(parts, reply)], pss)
  {
    hide QueryBytes, Sendable, Wf;
    var k, done := |xs|, Requests(xs);
    ServedPrefix(xs, pss);
    var rest := Queries(pss[k..]);
    assert received[|done|..] <= rest by {
      assert Queries(pss)[|done|..] == rest;
    }
    QueryNonEmpty(parts);
    assert pss[k..] != [];
    assert pss[k] in pss;
    var y := Queries(pss[k..][1..]);
    assert rest == QueryBytes(pss[k]) + y;
    assert QueryBytes(parts) <= rest;
    var x := rest[|QueryBytes(parts)|..];
    assert QueryBytes(parts) + x == rest;
    SameParts(parts, pss[k], x, y);
  }

  /** And it has then read no more than has come. */
  lemma RequestRead(xs: seq<Exchange>, received: Bytes, parts: seq<Bytes>, reply: Reply)
    requires CanServe(xs, received, parts, reply)
    ensures |Requests(xs + [Exchange(parts, reply)])| <= |received|
  {
    hide QueryBytes, Requests, Sendable, Wf;
    RequestsSnoc(xs, Exchange(parts, reply));
  }

  lemma QueryNonEmpty(parts: seq<Bytes>)
    ensures QueryBytes(parts) != []
  {
  }

  lemma PendingReplies(xs: seq<Exchange>, k: nat)
    requires k <= |xs| && forall i :: 0 <= i < |xs| ==> Wf(xs[i].reply)
    ensures AllWf(Replies(xs)[k..])
  {
  }

  lemma {:induction false} RepliesSnoc(xs: seq<Exchange>, x: Exchange, k: nat)
    requires k <= |xs|
    ensures Replies(xs + [x])[k..] == Replies(xs)[k..] + [x.reply]
  {
    hide Replies;
    var a, b := Replies(xs + [x]), Replies(xs) + [x.reply];
    assert a == b;
    assert b[k..] == Replies(xs)[k..] + [x.reply];
  }
}

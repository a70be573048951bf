/** The parser as one party of a protocol: whatever bytes lie behind its buffer, it never delivers anything but
    the next reply, as long as it is not left waiting inside a nested array. */
module ParserFlow {
  import opened ByteStrings
  import opened Resp
  import opened ParserSpec
  import opened Stops
  import opened ParserMachine
  import opened Chunking
  import opened StreamRuns

  /** After a wrongly cut header: the parser throws on the next byte it sees, or has it before it. */
  predicate Lost(p: PState, fut: Bytes) {
    Doomed(p, fut) ||
    (p.inc && p.pend != [] && p.skip == 0 && !IsTypeByte(p.pend[0]) && p.resp.ares != [] && p.resp.ares[0] == BLANK)
  }

  ghost predicate Inside(p: PState, rs: seq<Reply>, fut: Bytes) {
    exists m :: InArray(p, rs, fut, m)
  }

  /** The parser has rs still to deliver; of their bytes, fut has not reached it. */
  ghost predicate Sound(p: PState, rs: seq<Reply>, fut: Bytes) {
    Idle(p, rs, fut) || Inside(p, rs, fut) || Lost(p, fut)
  }

  /** Of the replies rs all bytes but fut have arrived, and with the leftover byte s that is inside an array nested
      in the first of them: the parser will wait there, and lose its place. */
  predicate CutInside(rs: seq<Reply>, fut: Bytes, s: char) {
    rs != [] && Received(rs, fut) >= 0 && NestedStop(rs[0], Received(rs, fut), s)
  }

  /** That takes a nested array. */
  lemma FlatUncut(rs: seq<Reply>, fut: Bytes, s: char)
    requires rs != [] ==> Flat(rs[0])
    ensures !CutInside(rs, fut, s)
  {
    hide EncAll;
    if rs != [] && rs[0].Arr? && Received(rs, fut) >= HeaderLen(rs[0]) {
      FlatNotTouched(rs[0].items, Received(rs, fut) - HeaderLen(rs[0]), s);
    }
  }

  /** Inside an array, all elements that can be finished are. */
  predicate Used(p: PState, es: seq<Reply>, m: nat) {
    m < |es| && (p.skip == 0 ==> Avail(es, PrefixLen(es, m) + |p.pend|) == m)
  }

  ghost predicate InsideHungry(p: PState, rs: seq<Reply>, fut: Bytes) {
    exists m :: InArray(p, rs, fut, m) && Used(p, rs[0].items, m)
  }

  /** The parser has rs still to deliver and cannot finish the first of them with the bytes it has. */
  ghost predicate Hungry(p: PState, rs: seq<Reply>, fut: Bytes) {
    (Idle(p, rs, fut) && (p.pend == [] || (rs != [] && |p.pend| < Need(rs[0])))) ||
    InsideHungry(p, rs, fut) || Doomed(p, fut)
  }

  lemma FreshHungry()
    ensures Hungry(FRESH, [], [])
  {
    assert Idle(FRESH, [], []);
  }

  lemma HungrySound(p: PState, rs: seq<Reply>, fut: Bytes)
    requires Hungry(p, rs, fut)
    ensures Sound(p, rs, fut)
  {
    hide InArray, Used, Doomed;
  }

  /** What one call may do. */
  ghost predicate GoodStep(r: Parsed, rs: seq<Reply>, fut: Bytes) {
    match r.st
    case Done => rs != [] && r.state.resp == Val(rs[0]) && Idle(r.state, rs[1..], fut)
    case More => Hungry(r.state, rs, fut)
    case Thrown => true
  }

  lemma IdleReceived(p: PState, rs: seq<Reply>, fut: Bytes)
    requires Idle(p, rs, fut)
    ensures |p.pend| == Received(rs, fut)
  {
    assert |p.pend + fut| == |p.pend| + |fut|;
  }

  lemma WaitingHungry(p: PState, rs: seq<Reply>, fut: Bytes, q: nat)
    requires Waiting(p, rs, fut) && rs != [] && q == Received(rs, fut) && q < Need(rs[0])
    ensures Hungry(p, rs, fut)
  {
    hide InElements, Avail, PrefixLen, Need;
    if Idle(p, rs, fut) {
      IdleReceived(p, rs, fut);
    } else {
      var m := Progress(rs[0], q);
      ElementsReceived(p, rs, fut, m, q);
      InsideBounds(p, rs, fut, m);
      assert InArray(p, rs, fut, m) && Used(p, rs[0].items, m);
    }
  }

  lemma StepIdle(p: PState, rs: seq<Reply>, fut: Bytes, s: char)
    requires Idle(p, rs, fut) && AllWf(rs) && !CutInside(rs, fut, s)
    ensures GoodStep(ParseOne(p, s), rs, fut)
  {
    hide ParseOne, Waiting, InArray, Doomed, Received;
    if p.pend == [] {
      NothingNew(p, s);
    } else {
      PrefixOfConcat(p.pend, fut, EncAll(rs));
      assert rs != [] && rs[0] in rs;
      if |p.pend| >= Need(rs[0]) {
        ParseComplete(p, rs, fut, s);
      } else {
        IdleReceived(p, rs, fut);
        ParseIdle(p, rs, fut, |p.pend|, s);
        var r := ParseOne(p, s);
        if r.st == More && Waiting(r.state, rs, fut) {
          WaitingHungry(r.state, rs, fut, |p.pend|);
        }
      }
    }
  }

  lemma NothingNew(p: PState, s: char)
    requires p.pend == []
    ensures ParseOne(p, s) == Parsed(More, p)
  {
  }

  lemma {:induction false} PrefixGrows(es: seq<Reply>, m: nat, k: nat)
    requires m < k <= |es|
    ensures PrefixLen(es, m) < PrefixLen(es, k)
    decreases m
  {
    if m > 0 {
      PrefixGrows(es[1..], m - 1, k - 1);
    }
  }

  lemma StepInside(p: PState, rs: seq<Reply>, fut: Bytes, m: nat, s: char)
    requires InArray(p, rs, fut, m) && AllWf(rs) && !CutInside(rs, fut, s)
    ensures GoodStep(ParseOne(p, s), rs, fut)
  {
    hide ParseOne;
    InsideBounds(p, rs, fut, m);
    var es := rs[0].items;
    if p.pend == [] {
      NothingNew(p, s);
      InsideEmpty(p, rs, fut, m);
    } else {
      assert rs[0] in rs;
      var n := PrefixLen(es, m) + |p.pend|;
      var q := Received(rs, fut);
      ElementsReceived(p, rs, fut, m, q);
      ParseElements(p, es, EncAll(rs[1..]), fut, m, n, s);
      InsideStep(ParseOne(p, s), rs, fut, q, n, Avail(es, n), s);
    }
  }

  lemma InsideEmpty(p: PState, rs: seq<Reply>, fut: Bytes, m: nat)
    requires InArray(p, rs, fut, m) && p.pend == []
    ensures Hungry(p, rs, fut)
  {
    hide Partial, ArrayAmong, Idle, Doomed;
    InsideBounds(p, rs, fut, m);
    if p.skip == 0 {
      var es := rs[0].items;
      var k := Avail(es, PrefixLen(es, m));
      if k > m {
        PrefixGrows(es, m, k);
      }
    }
    assert Used(p, rs[0].items, m);
  }

  lemma InsideStep(r: Parsed, rs: seq<Reply>, fut: Bytes, q: nat, n: nat, j: nat, s: char)
    requires rs != [] && rs[0].Arr? && j == Avail(rs[0].items, n) && !CutInside(rs, fut, s)
    requires q == Received(rs, fut) && q == HeaderLen(rs[0]) + n
    requires ElementsOutcome(r, rs[0].items, EncAll(rs[1..]), fut, n, j, s)
    ensures GoodStep(r, rs, fut)
  {
    hide InElements, Touched, PrefixLen, EncAll, Val, Avail;
    if j == |rs[0].items| {
      assert rs[0] == Arr(rs[0].items);
      assert Idle(r.state, rs[1..], fut);
    } else if r.st == More {
      assert InArray(r.state, rs, fut, j);
      InsideBounds(r.state, rs, fut, j);
      ElementsReceived(r.state, rs, fut, j, q);
      assert Used(r.state, rs[0].items, j);
    }
  }

  lemma StepLost(p: PState, fut: Bytes, s: char)
    requires Lost(p, fut)
    ensures ParseOne(p, s).st == Thrown || (ParseOne(p, s) == Parsed(More, p) && Doomed(p, fut))
  {
    hide FillElems;
    if p.pend == [] {
      NothingNew(p, s);
    } else {
      FillCons(p.resp.ares, p.pend, s);
    }
  }

  /** One call of the parser, in any state of the protocol, for replies of any nesting and any leftover byte. */
  lemma ParseSound(p: PState, rs: seq<Reply>, fut: Bytes, s: char)
    requires Sound(p, rs, fut) && AllWf(rs) && !CutInside(rs, fut, s)
    ensures GoodStep(ParseOne(p, s), rs, fut)
  {
    hide ParseOne, Idle, InArray, Lost;
    if Idle(p, rs, fut) {
      StepIdle(p, rs, fut, s);
    } else if Inside(p, rs, fut) {
      var m :| InArray(p, rs, fut, m);
      StepInside(p, rs, fut, m, s);
    } else {
      StepLost(p, fut, s);
    }
  }

  lemma LostAccepts(p: PState, fut: Bytes, chunk: Bytes, fut': Bytes)
    requires Lost(p, fut) && chunk + fut' == fut
    ensures Lost(Accept(p, chunk), fut')
  {
    var p1 := Accept(p, chunk);
    if p.pend == [] && p.skip < |chunk| {
      assert p1.pend[0] == fut[p.skip];
    } else if p.pend == [] {
      assert fut'[p.skip - |chunk|] == fut[p.skip];
    }
  }

  /** Bytes arrive. */
  lemma AcceptSound(p: PState, rs: seq<Reply>, fut: Bytes, chunk: Bytes, fut': Bytes)
    requires Sound(p, rs, fut) && chunk + fut' == fut
    ensures Sound(Accept(p, chunk), rs, fut')
  {
    hide InElements, Lost;
    if Idle(p, rs, fut) {
      assert (p.pend + chunk) + fut' == p.pend + fut;
      assert Idle(Accept(p, chunk), rs, fut');
    } else if Inside(p, rs, fut) {
      var m :| InArray(p, rs, fut, m);
      AcceptElements(p, rs[0].items, EncAll(rs[1..]), fut, m, chunk, fut');
      assert InArray(Accept(p, chunk), rs, fut', m);
    } else {
      LostAccepts(p, fut, chunk, fut');
    }
  }

  lemma EncAllSnoc(rs: seq<Reply>, v: Reply)
    ensures EncAll(rs + [v]) == EncAll(rs) + Enc(v)
  {
    EncAllAppend(rs, [v]);
    assert [v][1..] == [] && Enc(v) + [] == Enc(v);
  }

  lemma InsideServed(p: PState, rs: seq<Reply>, fut: Bytes, m: nat, v: Reply)
    requires InArray(p, rs, fut, m)
    ensures InArray(p, rs + [v], fut + Enc(v), m)
  {
    hide Partial, ArrayAmong, Avail, PrefixLen, EncAll, Enc;
    EncAllSnoc(rs[1..], v);
    assert (rs + [v])[1..] == rs[1..] + [v];
    var es := rs[0].items;
    if p.skip == 0 {
      assert p.pend + (fut + Enc(v)) == (p.pend + fut) + Enc(v);
      assert EncAll(es[m..]) + (EncAll(rs[1..]) + Enc(v)) == EncAll(es[m..]) + EncAll(rs[1..]) + Enc(v);
    } else {
      var c := CRLF[2 - p.skip..];
      assert c + EncAll(es) + (EncAll(rs[1..]) + Enc(v)) == c + EncAll(es) + EncAll(rs[1..]) + Enc(v);
    }
  }

  /** The server answers one more request. */
  lemma ServeSound(p: PState, rs: seq<Reply>, fut: Bytes, v: Reply)
    requires Sound(p, rs, fut)
    ensures Sound(p, rs + [v], fut + Enc(v))
  {
    hide InElements, Enc;
    if Idle(p, rs, fut) {
      EncAllSnoc(rs, v);
      assert p.pend + (fut + Enc(v)) == (p.pend + fut) + Enc(v);
      assert Idle(p, rs + [v], fut + Enc(v));
    } else if Inside(p, rs, fut) {
      var m :| InArray(p, rs, fut, m);
      InsideServed(p, rs, fut, m, v);
    } else {
      assert Lost(p, fut + Enc(v));
    }
  }

  lemma InsideServedHungry(p: PState, rs: seq<Reply>, fut: Bytes, v: Reply)
    requires InsideHungry(p, rs, fut)
    ensures InsideHungry(p, rs + [v], fut + Enc(v))
  {
    hide InElements, Used, Enc, EncAll;
    var m :| InArray(p, rs, fut, m) && Used(p, rs[0].items, m);
    InsideServed(p, rs, fut, m, v);
    assert InArray(p, rs + [v], fut + Enc(v), m);
  }

  lemma ServeHungry(p: PState, rs: seq<Reply>, fut: Bytes, v: Reply)
    requires Hungry(p, rs, fut)
    ensures Hungry(p, rs + [v], fut + Enc(v))
  {
    hide Enc, InArray, Need;
    if InsideHungry(p, rs, fut) {
      InsideServedHungry(p, rs, fut, v);
    } else if Idle(p, rs, fut) {
      EncAllSnoc(rs, v);
      assert p.pend + (fut + Enc(v)) == (p.pend + fut) + Enc(v);
    } else {
      assert Doomed(p, fut + Enc(v));
    }
  }

  /** With every byte read, a hungry parser has delivered everything, but for one reply whose last line
      is empty and for which it wants one byte more. */
  lemma NothingHeld(p: PState, rs: seq<Reply>)
    requires Hungry(p, rs, [])
    ensures rs == [] || (|rs| == 1 && EndsBlank(rs[0]))
  {
    hide InElements, Used;
    if InsideHungry(p, rs, []) {
      var m :| InArray(p, rs, [], m) && Used(p, rs[0].items, m);
      NothingHeldInside(p, rs, m);
    } else {
      assert p.pend + [] == p.pend;
      if |rs| == 1 {
        assert EncAll(rs[1..]) == [];
      }
    }
  }

  /** Of the replies still to deliver, `held` bytes have been received, and the rest is on the way. */
  predicate HeldRight(held: nat, rs: seq<Reply>, fut: Bytes) {
    held + |fut| == |EncAll(rs)|
  }

  lemma HeldServed(held: nat, rs: seq<Reply>, fut: Bytes, v: Reply)
    requires HeldRight(held, rs, fut)
    ensures HeldRight(held, rs + [v], fut + Enc(v))
  {
    hide Enc, EncAll;
    EncAllSnoc(rs, v);
  }

  lemma HeldParsed(p: PState, held: nat, rs: seq<Reply>, fut: Bytes, s: char)
    requires HeldRight(held, rs, fut) && GoodStep(ParseOne(p, s), rs, fut)
    ensures var r := ParseOne(p, s);
            HeldRight(StillHeld(p, held, s), if r.st == Done then rs[1..] else rs, fut)
            && (r.st == Done ==> Sound(r.state, rs[1..], fut))
  {
    hide ParseOne, EncAll, Sound, Hungry;
    var r := ParseOne(p, s);
    if r.st == Done {
      assert |r.state.pend + fut| == |r.state.pend| + |fut|;
      IdleSound(r.state, rs[1..], fut);
    }
  }

  lemma IdleSound(p: PState, rs: seq<Reply>, fut: Bytes)
    requires Idle(p, rs, fut)
    ensures Sound(p, rs, fut)
  {
  }

  /** A parser that waits has received no more than the next reply, unless it is bound to throw. */
  lemma HungryHolds(p: PState, rs: seq<Reply>, fut: Bytes)
    requires Hungry(p, rs, fut) && !Doomed(p, fut)
    ensures Received(rs, fut) <= if rs == [] then 0 else |Enc(rs[0])|
  {
    hide InElements, Used, Doomed, Enc, EncAll;
    if InsideHungry(p, rs, fut) {
      var m :| InArray(p, rs, fut, m) && Used(p, rs[0].items, m);
      HungryHoldsInside(p, rs, fut, m);
    } else {
      IdleReceived(p, rs, fut);
    }
  }

  lemma HungryHoldsInside(p: PState, rs: seq<Reply>, fut: Bytes, m: nat)
    requires InArray(p, rs, fut, m) && Used(p, rs[0].items, m)
    ensures Received(rs, fut) <= |Enc(rs[0])|
  {
    hide Partial, ArrayAmong, EncAll, Received;
    var q := Received(rs, fut);
    ElementsReceived(p, rs, fut, m, q);
    if p.skip == 0 {
      NeedOfArray(rs[0], PrefixLen(rs[0].items, m) + |p.pend|);
    } else {
      HeaderWithin(rs[0]);
    }
  }

  lemma HeaderWithin(v: Reply)
    requires v.Arr?
    ensures HeaderLen(v) <= |Enc(v)|
  {
  }

  lemma NothingHeldInside(p: PState, rs: seq<Reply>, m: nat)
    requires InArray(p, rs, [], m) && Used(p, rs[0].items, m)
    ensures |rs| == 1 && EndsBlank(rs[0])
  {
    hide Partial, ArrayAmong, Avail, EndsBlank, Enc;
    var es, tail := rs[0].items, EncAll(rs[1..]);
    assert p.skip == 0;
    assert p.pend + [] == p.pend;
    assert |p.pend| == |EncAll(es[m..])| + |tail|;
    PrefixSplit(es, m);
    AvailAll(es, PrefixLen(es, m) + |p.pend|);
    assert |tail| == 0 && |rs[1..]| == 0;
    LastElement(rs[0]);
  }

  lemma LastElement(v: Reply)
    requires v.Arr? && v.items != [] && EndsBlank(v.items[|v.items| - 1])
    ensures EndsBlank(v)
  {
  }
}

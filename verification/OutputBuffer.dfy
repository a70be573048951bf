/** The output buffer: queries collect in a live block, which is frozen whole when a write starts. */
module OutputBuffer {
  import opened ByteStrings
  import opened Buffers

  /** live: the block still filling; have/unsent: the frozen block and what of it is not reported sent. */
  datatype OutState = OutState(live: Bytes, have: bool, unsent: Bytes)

  const EMPTY := OutState([], false, [])

  predicate IsDrained(o: OutState) {
    o.live == [] && !o.have
  }

  predicate Overflows(o: OutState, need: nat) {
    |o.live| + need >= MAX_BUFF_SIZE
  }

  /** What is sent for a query, given without its line end or with it. */
  function Line(query: Bytes, plusRn: bool): Bytes {
    if plusRn then query + CRLF else query
  }

  function Added(o: OutState, query: Bytes): OutState {
    o.(live := o.live + query)
  }

  function Frozen(o: OutState): OutState {
    if o.have then o else OutState([], true, o.live)
  }

  function Reported(o: OutState, n: nat): OutState {
    if n >= |o.unsent| then o.(have := false, unsent := []) else o.(unsent := o.unsent[n..])
  }

  datatype OutOp = AddOp(query: Bytes) | OfferOp | SentOp(n: nat)

  /** Sends are reported for bytes that were offered. */
  predicate Possible(o: OutState, op: OutOp) {
    op.SentOp? ==> o.have && op.n <= |o.unsent|
  }

  function Apply(o: OutState, op: OutOp): OutState {
    match op
    case AddOp(q) => Added(o, q)
    case OfferOp => Frozen(o)
    case SentOp(n) => Reported(o, n)
  }

  predicate PossibleRun(o: OutState, ops: seq<OutOp>)
    decreases |ops|
  {
    ops == [] || (Possible(o, ops[0]) && PossibleRun(Apply(o, ops[0]), ops[1..]))
  }

  function ApplyAll(o: OutState, ops: seq<OutOp>): OutState
    decreases |ops|
  {
    if ops == [] then o else ApplyAll(Apply(o, ops[0]), ops[1..])
  }

  function Sent(o: OutState, ops: seq<OutOp>): Bytes
    requires PossibleRun(o, ops)
    decreases |ops|
  {
    if ops == [] then []
    else SentNow(o, ops[0]) + Sent(Apply(o, ops[0]), ops[1..])
  }

  function AddedBytes(ops: seq<OutOp>): Bytes {
    if ops == [] then []
    else AddedNow(ops[0]) + AddedBytes(ops[1..])
  }

  predicate Consistent(o: OutState) {
    !o.have ==> o.unsent == []
  }

  function SentNow(o: OutState, op: OutOp): Bytes
    requires Possible(o, op)
  {
    if op.SentOp? then o.unsent[..op.n] else []
  }

  function AddedNow(op: OutOp): Bytes {
    if op.AddOp? then op.query else []
  }

  lemma StepConserves(o: OutState, op: OutOp)
    requires Consistent(o) && Possible(o, op)
    ensures var o' := Apply(o, op);
            Consistent(o') && o.unsent + o.live + AddedNow(op) == SentNow(o, op) + (o'.unsent + o'.live)
  {
    if op.SentOp? {
      assert o.unsent == o.unsent[..op.n] + Apply(o, op).unsent;
    }
  }

  /** Nothing is lost, duplicated or reordered between the queries and the socket. */
  lemma {:induction false} Conservation(o: OutState, ops: seq<OutOp>)
    requires Consistent(o) && PossibleRun(o, ops)
    ensures var o' := ApplyAll(o, ops);
            Consistent(o') && o.unsent + o.live + AddedBytes(ops) == Sent(o, ops) + (o'.unsent + o'.live)
    decreases |ops|
  {
    if ops != [] {
      StepConserves(o, ops[0]);
      var o1, o' := Apply(o, ops[0]), ApplyAll(o, ops);
      Conservation(o1, ops[1..]);
      Telescope(o.unsent + o.live, AddedNow(ops[0]), SentNow(o, ops[0]), o1.unsent + o1.live, AddedBytes(ops[1..]),
                Sent(o1, ops[1..]), o'.unsent + o'.live);
    }
  }

  lemma Telescope(x: Bytes, a: Bytes, s: Bytes, y: Bytes, b: Bytes, t: Bytes, z: Bytes)
    requires x + a == s + y && y + b == t + z
    ensures x + (a + b) == (s + t) + z
  {
    assert x + (a + b) == (x + a) + b;
    assert (s + y) + b == s + (y + b);
    assert s + (t + z) == (s + t) + z;
  }

  class OutputBuff {
    const base: BuffAbstract
    /** null once the block is freed. */
    var frozenData: array?<char>
    var frozenTopOffset: nat
    var frozenSendedOffset: nat
    var haveFrozenBuffer: bool

    ghost predicate Valid()
      reads this, base
    {
      base.Valid() && (haveFrozenBuffer <==> frozenData != null) &&
      if haveFrozenBuffer then
        frozenData != base.cdata && frozenSendedOffset <= frozenTopOffset <= frozenData.Length
      else frozenTopOffset == frozenSendedOffset == 0
    }

    ghost function State(): OutState
      reads this, base, base.cdata, frozenData
      requires Valid()
    {
      OutState(base.Contents(), haveFrozenBuffer,
               if haveFrozenBuffer then frozenData[frozenSendedOffset..frozenTopOffset] else [])
    }

    constructor ()
      ensures Valid() && State() == EMPTY && fresh(base) && fresh(base.cdata)
    {
      base := new BuffAbstract();
      frozenData, frozenTopOffset, frozenSendedOffset, haveFrozenBuffer := null, 0, 0, false;
    }

    /** Only if no byte is live, none frozen and unsent, and no block frozen at all. */
    method NothingToSend() returns (nothing: bool)
      requires Valid()
      ensures nothing == IsDrained(State())
      ensures nothing <==> State().live + State().unsent == [] && frozenData == null
    {
      nothing := base.topOffset == 0 && !haveFrozenBuffer;
    }

    method CheckOverflow(need: nat) returns (over: bool)
      requires Valid()
      ensures over == Overflows(State(), need)
      ensures over <==> |State().live| + need >= MAX_BUFF_SIZE
    {
      over := base.topOffset + need >= MAX_BUFF_SIZE;
    }

    /** A query that passed CheckOverflow neither throws nor overruns the block; with an extra line end, which
        that test does not count, there must be room for it too. */
    method AddQuery(query: Bytes, plusRn: bool)
      requires Valid() && (query != [] || plusRn || base.topOffset < base.reserved)
      requires |State().live| + |Line(query, plusRn)| <= MAX_BUFF_SIZE
      modifies base, base.cdata
      ensures Valid() && State() == Added(old(State()), Line(query, plusRn))
      ensures base.cdata == old(base.cdata) || fresh(base.cdata)
    {
      if !plusRn {
        var ok := base.Append(query);
        assert ok;
      } else {
        AddLine(query);
      }
    }

    method AddLine(query: Bytes)
      requires base.Valid() && base.topOffset + |query| + 2 <= MAX_BUFF_SIZE
      modifies base, base.cdata
      ensures base.Valid() && base.Contents() == old(base.Contents()) + (query + CRLF)
      ensures base.cdata == old(base.cdata) || fresh(base.cdata)
    {
      var ok := base.Release(|query| + 2);
      assert ok;
      base.Write(query + CRLF);
      base.Accept(|query| + 2);
      assert base.Contents() == old(base.Contents()) + (query + CRLF);
    }

    /** Start or continue a write: the live block becomes the frozen one if there is none. */
    method GetBuffer() returns (offered: Bytes)
      requires Valid()
      modifies this, base
      ensures Valid() && State() == Frozen(old(State())) && offered == State().unsent
      ensures base.cdata == old(base.cdata) || fresh(base.cdata)
      ensures frozenData == old(frozenData) || frozenData == old(base.cdata)
    {
      if !haveFrozenBuffer {
        frozenData := base.cdata;
        frozenTopOffset := base.topOffset;
        base.RemallocFreeMem();
        haveFrozenBuffer := true;
      }
      offered := frozenData[frozenSendedOffset..frozenTopOffset];
    }

    method SendingReport(n: nat)
      requires Valid() && haveFrozenBuffer
      modifies this
      ensures Valid() && State() == Reported(old(State()), n)
      ensures frozenData == if State().have then old(frozenData) else null
    {
      ghost var left := State().unsent;
      frozenSendedOffset := frozenSendedOffset + n;
      if frozenSendedOffset >= frozenTopOffset {
        haveFrozenBuffer := false;
        frozenSendedOffset := 0;
        frozenTopOffset := 0;
        frozenData := null;
      } else {
        assert frozenData[frozenSendedOffset..frozenTopOffset] == left[n..];
      }
    }

    method Reset()
      requires Valid()
      modifies this, base
      ensures Valid() && State() == EMPTY && frozenData == null
      ensures base.cdata == old(base.cdata) || fresh(base.cdata)
    {
      base.Reset(false);
      frozenSendedOffset := 0;
      frozenTopOffset := 0;
      frozenData := null;
      haveFrozenBuffer := false;
    }
  }
}

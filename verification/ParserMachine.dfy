/** The resumable parser as a state machine over arriving chunks of bytes. */
module ParserMachine {
  import opened ByteStrings
  import opened Resp
  import opened ParserSpec

  /** pend: the filled bytes from the parse offset on; skip: how far the parse offset lies beyond
      the filled bytes; inc: the incomplete-array flag; resp: the caller's reply variable. */
  datatype PState = PState(pend: Bytes, skip: nat, inc: bool, resp: RespData)

  datatype Parsed = Parsed(st: Status, state: PState)

  const FRESH := PState([], 0, false, BLANK)

  function Advance(p: PState, used: nat): PState {
    p.(pend := Skip(p.pend, used), skip := if used <= |p.pend| then 0 else used - |p.pend|)
  }

  function ParseOne(p: PState, s: char): Parsed {
    if p.pend == [] then Parsed(More, p)
    else if !p.inc then
      var r := ReadData(p.pend, s, BLANK);
      Parsed(r.st, Advance(p, r.used).(inc := r.inc, resp := r.t))
    else
      var r := FillArray(p.resp, p.pend, s);
      Parsed(r.st, Advance(p, r.used).(inc := r.st != Done, resp := r.t))
  }

  /** A completed reply used up bytes or ended an interrupted array. */
  lemma DoneShrinks(p: PState, s: char)
    requires ParseOne(p, s).st == Done
    ensures var p' := ParseOne(p, s).state;
            |p'.pend| < |p.pend| || (|p'.pend| == |p.pend| && p.inc && !p'.inc)
  {
    hide ReadScalar, InitArray, FillElems;
  }

  /** Bytes arrive behind the filled region. */
  function Accept(p: PState, chunk: Bytes): PState {
    if p.skip == 0 then p.(pend := p.pend + chunk)
    else p.(pend := Skip(chunk, p.skip), skip := if p.skip <= |chunk| then 0 else p.skip - |chunk|)
  }

  /** The bytes received since the end of the last reply delivered, after one call. */
  function StillHeld(p: PState, held: nat, s: char): nat {
    var r := ParseOne(p, s);
    if r.st == Done && r.state.skip == 0 then |r.state.pend| else held
  }

  /** The byte past the filled region as each successive call of the parser finds it: leftover
      memory, different after every compaction, so nothing is assumed about it. */
  type Stale = nat -> char

  datatype Drained = Drained(st: Status, state: PState, out: seq<RespData>)

  /** Parse until no complete reply is left. */
  function Drain(p: PState, stale: Stale, k: nat): Drained
    decreases |p.pend|, p.inc
  {
    var r := ParseOne(p, stale(k));
    if r.st == Done then
      var rest := Drain(r.state, stale, k + 1);
      rest.(out := [r.state.resp] + rest.out)
    else Drained(r.st, r.state, [])
  }

  function Feed(p: PState, chunk: Bytes, stale: Stale): Drained {
    Drain(Accept(p, chunk), stale, 0)
  }

  /** Feed chunk after chunk; an exception ends the run. */
  function Run(p: PState, chunks: seq<Bytes>, stales: seq<Stale>): Drained
    requires |chunks| == |stales|
    decreases |chunks|
  {
    if chunks == [] then Drained(More, p, [])
    else
      var r := Feed(p, chunks[0], stales[0]);
      if r.st == Thrown then r
      else
        var rest := Run(r.state, chunks[1..], stales[1..]);
        rest.(out := r.out + rest.out)
  }
}

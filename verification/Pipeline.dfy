/** The pipelining processor over its real buffers and parser: each handler does to the client's state
    exactly what the transition system says. */
module Pipeline {
  import opened ByteStrings
  import opened Resp
  import opened ParserSpec
  import opened ParserMachine
  import opened Buffers
  import opened Parser
  import opened OutputBuffer
  import opened PipelineSystem
  import opened PipelineHandlers

  class PipelineProc {
    var cbQueue: seq<Callback>
    const sendingBuff: OutputBuff
    const respParser: RespProto
    var respond: RespData
    var reqProcRunning: bool
    var stopInProgress: bool
    var errorStatus: bool
    var reader: Reader
    ghost var delivered: seq<Delivery>
    ghost var aborted: seq<Callback>
    ghost var rejected: seq<Callback>

    ghost predicate Valid()
      reads this, sendingBuff, sendingBuff.base, respParser, respParser.buffer, respParser.buffer.base
    {
      sendingBuff.Valid() && respParser.Valid() && sendingBuff.base != respParser.buffer.base &&
      sendingBuff.base.cdata != respParser.buffer.base.cdata &&
      sendingBuff.frozenData != respParser.buffer.base.cdata
    }

    ghost function State(): Client
      reads this, sendingBuff, sendingBuff.base, sendingBuff.base.cdata, sendingBuff.frozenData
      reads respParser, respParser.buffer, respParser.buffer.base, respParser.buffer.base.cdata
      requires Valid()
    {
      Client(cbQueue, sendingBuff.State(), respParser.buffer.View(respond), respParser.buffer.held, reqProcRunning,
             stopInProgress, errorStatus, reader, delivered, aborted, rejected)
    }

    constructor ()
      ensures Valid() && State() == NEW_CLIENT
      ensures fresh(sendingBuff) && fresh(sendingBuff.base) && fresh(sendingBuff.base.cdata)
      ensures fresh(respParser) && fresh(respParser.buffer) && fresh(respParser.buffer.base)
      ensures fresh(respParser.buffer.base.cdata)
    {
      var out := new OutputBuff();
      var parser := new RespProto();
      sendingBuff, respParser, respond := out, parser, BLANK;
      cbQueue, reqProcRunning, stopInProgress, errorStatus := [], false, false, false;
      reader, delivered, aborted, rejected := Reading, [], [], [];
    }

    /** There is room for the query, and for the extra line end of a one-line query, which the source's test for
        room does not count. */
    ghost predicate Roomy(query: Bytes, oneLine: bool)
      reads this, sendingBuff, sendingBuff.base, sendingBuff.base.cdata, sendingBuff.frozenData
      requires sendingBuff.Valid()
    {
      !Overflows(sendingBuff.State(), |query|) && (oneLine ==> !Overflows(sendingBuff.State(), |query| + 1)) &&
      (query != [] || oneLine || sendingBuff.base.topOffset < sendingBuff.base.reserved)
    }

    /** Call the callback with code 100, or wait for room, or accept the query. */
    method Push(cb: Callback, query: Bytes, oneLine: bool) returns (waits: bool, writes: bool, offered: Bytes)
      requires Valid() && (!Overflows(sendingBuff.State(), |query|) ==> Roomy(query, oneLine))
      modifies this, sendingBuff, sendingBuff.base, sendingBuff.base.cdata
      ensures Valid() && (waits <==> !old(stopInProgress) && Overflows(old(State()).out, |query|))
      ensures State() == if old(stopInProgress) then Refused(old(State()), cb)
                         else if waits then old(State())
                         else Managed(Written(Queued(old(State()), cb), Line(query, oneLine)))
      ensures writes <==> !old(stopInProgress) && !waits && !old(reqProcRunning)
                          && !IsDrained(Written(old(State()), Line(query, oneLine)).out)
      ensures writes ==> offered == State().out.unsent
    {
      waits, writes, offered := false, false, [];
      if stopInProgress {
        rejected := rejected + [cb];
        return;
      }
      waits := sendingBuff.CheckOverflow(|query|);
      if !waits {
        writes, offered := Enter(cb, query, oneLine);
      }
    }

    /** There is room, perhaps after a wait. The stop flag is not looked at again. */
    method Enter(cb: Callback, query: Bytes, oneLine: bool) returns (writes: bool, offered: Bytes)
      requires Valid() && Roomy(query, oneLine)
      modifies this`cbQueue, this`reqProcRunning, sendingBuff, sendingBuff.base, sendingBuff.base.cdata
      ensures Valid() && State() == Managed(Written(Queued(old(State()), cb), Line(query, oneLine)))
      ensures writes <==> !old(reqProcRunning) && !IsDrained(Written(old(State()), Line(query, oneLine)).out)
      ensures writes ==> offered == State().out.unsent
    {
      cbQueue := cbQueue + [cb];
      sendingBuff.AddQuery(query, oneLine);
      writes, offered := ReqProcManager();
    }

    /** The writer flag is won by the caller that finds it down; it offers a frozen block to the socket,
        or lays the flag down again when there is nothing to send. */
    method ReqProcManager() returns (writes: bool, offered: Bytes)
      requires Valid()
      modifies this`reqProcRunning, sendingBuff, sendingBuff.base
      ensures Valid() && State() == Managed(old(State()))
      ensures writes <==> !old(reqProcRunning) && !IsDrained(old(State()).out)
      ensures writes ==> offered == State().out.unsent
      ensures sendingBuff.base.cdata == old(sendingBuff.base.cdata) || fresh(sendingBuff.base.cdata)
    {
      if reqProcRunning {
        return false, [];
      }
      reqProcRunning := true;
      var nothing := sendingBuff.NothingToSend();
      if nothing {
        reqProcRunning := false;
        return false, [];
      }
      offered := sendingBuff.GetBuffer();
      writes := true;
    }

    /** The report is made and the flag laid down. */
    method Confirm(n: nat)
      requires Valid() && sendingBuff.haveFrozenBuffer
      modifies this`reqProcRunning, sendingBuff
      ensures Valid() && State() == Confirmed(old(State()), n)
    {
      hide InputBuff.View, Reported;
      sendingBuff.SendingReport(n);
      reqProcRunning := false;
    }

    /** The socket has taken n bytes of the offered block, or failed. */
    method ReqHandler(failed: bool, n: nat) returns (writes: bool, offered: Bytes)
      requires Valid() && (!failed ==> sendingBuff.haveFrozenBuffer)
      modifies this, sendingBuff, sendingBuff.base
      ensures Valid()
      ensures State() == if failed then Failed(old(State())) else Managed(Confirmed(old(State()), n))
      ensures writes <==> !failed && !IsDrained(Confirmed(old(State()), n).out)
      ensures writes ==> offered == State().out.unsent
    {
      hide OutputBuff.State, InputBuff.View, Managed, Failed;
      if failed {
        SocketErrorHandler();
        return false, [];
      }
      Confirm(n);
      writes, offered := ReqProcManager();
    }

    /** Room for the next read. The result false is the source's out_of_range exception. */
    method PrepareRead() returns (ok: bool)
      requires Valid()
      modifies respParser.buffer.base
      ensures Valid() && State() == old(State())
      ensures ok ==> respParser.buffer.base.SizeAvail() >= RESP_RELEASE_SZ
      ensures respParser.buffer.base.topOffset + RESP_RELEASE_SZ <= MAX_BUFF_SIZE ==> ok
      ensures State().held + RESP_RELEASE_SZ <= MAX_BUFF_SIZE / 2 ==> ok
    {
      ok := respParser.buffer.Release(RESP_RELEASE_SZ, respond);
    }

    /** Bytes were read: parse, and call a callback for each reply, until the parser wants more bytes, the
        work is done or an exception leaves the handler. */
    method RespHandler(chunk: Bytes, beyond: char) returns (again: bool, ghost stales: seq<char>)
      requires Valid() && |chunk| <= respParser.buffer.base.SizeAvail()
      modifies this, respParser`errorStatus, respParser.buffer, respParser.buffer.base, respParser.buffer.base.cdata
      ensures Valid()
      ensures GoesOn(Received(old(State()), chunk), stales)
      ensures State() == Turns(Received(old(State()), chunk), stales)
      ensures State().reader != Parsing && (again <==> State().reader == Reading)
    {
      hide ParserMachine.ParseOne, Turn, Turns, GoesOn;
      respParser.buffer.AcceptChunk(chunk, respond);
      reader := Parsing;
      stales := [];
      ghost var start := State();
      NoTurns(start);
      var parsing := true;
      again := false;
      while parsing
        invariant Valid() && State() == Turns(start, stales) && GoesOn(start, stales)
        invariant parsing <==> reader == Parsing
        invariant respParser.buffer.base.cdata == old(respParser.buffer.base.cdata)
        invariant again <==> reader == Reading
        decreases parsing, |respParser.buffer.Unread()|, respParser.buffer.incomplArr
      {
        ghost var s := respParser.buffer.Stale(beyond);
        TurnsSnoc(start, stales, s);
        stales := stales + [s];
        parsing, again := ReplyTurn(beyond);
      }
    }

    /** One turn of the loop: the parser's next reply goes to the callback at the head of the queue. */
    method ReplyTurn(beyond: char) returns (parsing: bool, again: bool)
      requires Valid() && reader == Parsing
      modifies this, respParser`errorStatus, respParser.buffer, respParser.buffer.base, respParser.buffer.base.cdata
      ensures Valid() && respParser.buffer.base.cdata == old(respParser.buffer.base.cdata)
      ensures State() == Turn(old(State()), old(respParser.buffer.Stale(beyond)))
      ensures (parsing <==> reader == Parsing) && (again <==> reader == Reading)
      ensures parsing ==> var u, v := respParser.buffer.Unread(), old(respParser.buffer.Unread());
                          |u| < |v| ||
                          (|u| == |v| && !respParser.buffer.incomplArr && old(respParser.buffer.incomplArr))
    {
      hide ParserMachine.ParseOne, ParserMachine.Accept;
      hide OutputBuff.State, OutputBuff.Valid, InputBuff.Unread;
      var st := ParseNext(beyond);
      if st == Done {
        CallNext();
      } else {
        reader := if st == More then Reading else ParseFault;
      }
      parsing, again := reader == Parsing, reader == Reading;
    }

    /** The parser's step, which changes nothing but the parser's state. */
    method ParseNext(beyond: char) returns (st: Status)
      requires Valid()
      modifies this`respond
      modifies respParser`errorStatus, respParser.buffer, respParser.buffer.base, respParser.buffer.base.cdata
      ensures Valid() && respParser.buffer.base.cdata == old(respParser.buffer.base.cdata)
      ensures var r := ParserMachine.ParseOne(old(State()).parser, old(respParser.buffer.Stale(beyond)));
              State() == old(State()).(parser := r.state, held := State().held) && st == r.st
      ensures State().held == StillHeld(old(State()).parser, old(State()).held, old(respParser.buffer.Stale(beyond)))
      ensures st == Done ==> var u, v := respParser.buffer.Unread(), old(respParser.buffer.Unread());
                             |u| < |v| ||
                             (|u| == |v| && !respParser.buffer.incomplArr && old(respParser.buffer.incomplArr))
    {
      hide ParserMachine.ParseOne, OutputBuff.State;
      ghost var p, s := respParser.buffer.View(respond), respParser.buffer.Stale(beyond);
      st, respond := respParser.ParseOne(respond, beyond);
      if st == Done {
        DoneShrinks(p, s);
      }
    }

    /** A complete reply goes to the first callback in the queue. */
    method CallNext()
      modifies this`cbQueue, this`delivered, this`reader
      requires reader == Parsing
      ensures if old(cbQueue) == [] then
                cbQueue == [] && delivered == old(delivered) && reader == (if errorStatus then Finished else SyncFault)
              else
                cbQueue == old(cbQueue[1..]) && delivered == old(delivered) + [Delivery(old(cbQueue[0]), respond)] &&
                reader == if stopInProgress && |old(cbQueue)| == 1 then Finished else Parsing
    {
      if cbQueue == [] {
        reader := if errorStatus then Finished else SyncFault;
      } else {
        var cb := cbQueue[0];
        cbQueue := cbQueue[1..];
        delivered := delivered + [Delivery(cb, respond)];
        if stopInProgress && cbQueue == [] {
          reader := Finished;
        }
      }
    }

    /** Once: everything waiting is dropped and every queued callback called with code 110. */
    method SocketErrorHandler()
      requires Valid()
      modifies this, sendingBuff, sendingBuff.base
      ensures Valid() && State() == Failed(old(State()))
    {
      if !errorStatus {
        errorStatus := true;
        stopInProgress := true;
        sendingBuff.Reset();
        SocErrorCallbacks();
      }
    }

    method SocErrorCallbacks()
      modifies this`cbQueue, this`aborted
      ensures cbQueue == [] && aborted == old(aborted) + old(cbQueue)
    {
      while cbQueue != []
        invariant aborted + cbQueue == old(aborted) + old(cbQueue)
        decreases |cbQueue|
      {
        var cb := cbQueue[0];
        assert cbQueue == [cb] + cbQueue[1..];
        cbQueue := cbQueue[1..];
        aborted := aborted + [cb];
      }
    }
  }
}

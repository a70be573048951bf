/** The half-duplex processor over its real parser and buffer: its handlers do to its state exactly what the
    transition system says. */
module Serial {
  import opened ByteStrings
  import opened Resp
  import opened ParserSpec
  import opened ParserMachine
  import opened Buffers
  import opened Parser
  import opened SerialSystem
  import opened SerialHandlers

  class SerialProc {
    var queryQueue: seq<Job>
    var sendedQueries: seq<Job>
    const respParser: RespProto
    var respond: RespData
    var reqProcRunning: bool
    var stopInProgress: bool
    var errorStatus: bool
    var phase: Phase
    ghost var delivered: seq<Handed>
    ghost var aborted: seq<Job>
    ghost var rejected: seq<Job>

    ghost predicate Valid()
      reads this, respParser, respParser.buffer, respParser.buffer.base
    {
      respParser.Valid()
    }

    ghost function State(): Proc
      reads this, respParser, respParser.buffer, respParser.buffer.base, respParser.buffer.base.cdata
      requires Valid()
    {
      Proc(queryQueue, sendedQueries, respParser.buffer.View(respond), respParser.buffer.held, reqProcRunning,
           stopInProgress, errorStatus, delivered, aborted, rejected)
    }

    constructor ()
      ensures Valid() && State() == NEW_PROC && phase == Resting
      ensures fresh(respParser) && fresh(respParser.buffer) && fresh(respParser.buffer.base)
      ensures fresh(respParser.buffer.base.cdata)
    {
      var parser := new RespProto();
      respParser, respond := parser, BLANK;
      queryQueue, sendedQueries, reqProcRunning, stopInProgress, errorStatus := [], [], false, false, false;
      phase, delivered, aborted, rejected := Resting, [], [], [];
    }

    /** Call the callback with code 100, or wait for room, or accept the query. */
    method Push(job: Job) returns (waits: bool, multibuf: seq<Bytes>)
      requires Valid()
      modifies this
      ensures Valid() && (waits <==> !old(stopInProgress) && |old(queryQueue)| > SerialSystem.MAX_BUFF_SIZE)
      ensures State() == if old(stopInProgress) then old(State()).(rejected := old(rejected) + [job])
                         else if waits then old(State())
                         else Managed(Enqueued(old(State()), job))
      ensures |sendedQueries| >= |old(sendedQueries)|
      ensures multibuf == AllPieces(sendedQueries[|old(sendedQueries)|..])
    {
      waits, multibuf := false, [];
      assert sendedQueries[|sendedQueries|..] == [];
      if stopInProgress {
        rejected := rejected + [job];
        return;
      }
      waits := |queryQueue| > SerialSystem.MAX_BUFF_SIZE;
      if !waits {
        multibuf := Enter(job);
      }
    }

    /** There is room, perhaps after a wait. The stop flag is not looked at again. */
    method Enter(job: Job) returns (multibuf: seq<Bytes>)
      requires Valid() && |queryQueue| <= SerialSystem.MAX_BUFF_SIZE
      modifies this`queryQueue, this`sendedQueries, this`reqProcRunning
      ensures Valid() && State() == Managed(Enqueued(old(State()), job))
      ensures |sendedQueries| >= |old(sendedQueries)|
      ensures multibuf == AllPieces(sendedQueries[|old(sendedQueries)|..])
    {
      queryQueue := queryQueue + [job];
      multibuf := ReqProcManager();
    }

    method ReqProcManager() returns (multibuf: seq<Bytes>)
      requires Valid()
      modifies this`queryQueue, this`sendedQueries, this`reqProcRunning
      ensures Valid() && State() == Managed(old(State()))
      ensures |sendedQueries| >= |old(sendedQueries)|
      ensures multibuf == AllPieces(sendedQueries[|old(sendedQueries)|..])
    {
      multibuf := [];
      assert sendedQueries[|sendedQueries|..] == [];
      if reqProcRunning {
        return;
      }
      reqProcRunning := true;
      if queryQueue == [] {
        reqProcRunning := false;
        return;
      }
      multibuf := ReqProc();
    }

    /** Gather the pieces of up to eleven queries for one write. */
    method ReqProc() returns (multibuf: seq<Bytes>)
      requires Valid()
      modifies this`queryQueue, this`sendedQueries
      ensures Valid() && State() == Batched(old(State()), 0)
      ensures |sendedQueries| >= |old(sendedQueries)|
      ensures multibuf == AllPieces(sendedQueries[|old(sendedQueries)|..])
    {
      assert AllPieces([]) == [];
      hide InputBuff.View, RespProto.Valid, Batched, AllPieces;
      ghost var from := |sendedQueries|;
      var counter := 0;
      multibuf := [];
      assert sendedQueries[from..] == [];
      while true
        invariant Valid() && Batched(State(), counter) == Batched(old(State()), 0)
        invariant from <= |sendedQueries| && multibuf == AllPieces(sendedQueries[from..])
        decreases |queryQueue|
      {
        ghost var p := State();
        BatchedTurn(p, counter);
        if queryQueue == [] {
          break;
        }
        var q := queryQueue[0];
        queryQueue := queryQueue[1..];
        JoinedTail(sendedQueries, from, q);
        multibuf := multibuf + q.pieces;
        sendedQueries := sendedQueries + [q];
        assert State() == TakenOne(p);
        if counter >= MAX_QUERY_IN_MULTIBUFF {
          break;
        }
        counter := counter + 1;
      }
    }

    /** Room for the next read. The result false is the source's out_of_range exception. */
    method PrepareRead() returns (ok: bool)
      requires Valid()
      modifies respParser.buffer.base
      ensures Valid() && State() == old(State())
      ensures ok ==> respParser.buffer.base.SizeAvail() >= RESP_RELEASE_SZ
      ensures respParser.buffer.base.topOffset + RESP_RELEASE_SZ <= Buffers.MAX_BUFF_SIZE ==> ok
      ensures State().held + RESP_RELEASE_SZ <= Buffers.MAX_BUFF_SIZE / 2 ==> ok
    {
      ok := respParser.buffer.Release(RESP_RELEASE_SZ, respond);
    }

    /** Bytes were read: parse, and hand each reply to the oldest query sent; with all replies in, lay down the
        flag and try to write the next batch. */
    method RespHandler(chunk: Bytes, beyond: char) returns (multibuf: seq<Bytes>, ghost stales: seq<char>)
      requires Valid() && |chunk| <= respParser.buffer.base.SizeAvail()
      modifies this, respParser`errorStatus, respParser.buffer, respParser.buffer.base, respParser.buffer.base.cdata
      ensures Valid() && phase != Parsing
      ensures var p := Arrived(old(State()), chunk);
              var t := Turns(Turned(p, Parsing), stales);
              GoesOn(Turned(p, Parsing), stales) && phase == t.phase
              && State() == if phase == Resting then Managed(t.p) else t.p
    {
      hide Turn, Turns, GoesOn, ParserMachine.ParseOne, Managed;
      stales := ReplyLoop(chunk, beyond);
      multibuf := [];
      if phase == Resting {
        multibuf := ReqProcManager();
      }
    }

    /** The parsing loop. */
    method ReplyLoop(chunk: Bytes, beyond: char) returns (ghost stales: seq<char>)
      requires Valid() && |chunk| <= respParser.buffer.base.SizeAvail()
      modifies this, respParser`errorStatus, respParser.buffer, respParser.buffer.base, respParser.buffer.base.cdata
      ensures Valid() && phase != Parsing
      ensures var p := Arrived(old(State()), chunk);
              GoesOn(Turned(p, Parsing), stales) && Turned(State(), phase) == Turns(Turned(p, Parsing), stales)
    {
      hide Turn, Turns, GoesOn, ParserMachine.ParseOne;
      respParser.buffer.AcceptChunk(chunk, respond);
      phase := Parsing;
      stales := [];
      ghost var start := Turned(State(), Parsing);
      NoTurns(start);
      while phase == Parsing
        invariant Valid() && Turned(State(), phase) == Turns(start, stales) && GoesOn(start, stales)
        invariant respParser.buffer.base.cdata == old(respParser.buffer.base.cdata)
        decreases phase == Parsing, |respParser.buffer.Unread()|, respParser.buffer.incomplArr
      {
        ghost var s := respParser.buffer.Stale(beyond);
        TurnsSnoc(start, stales, s);
        stales := stales + [s];
        ReplyTurn(beyond);
      }
    }

    /** One turn of the loop. */
    method ReplyTurn(beyond: char)
      requires Valid() && phase == Parsing
      modifies this, respParser`errorStatus, respParser.buffer, respParser.buffer.base, respParser.buffer.base.cdata
      ensures Valid() && respParser.buffer.base.cdata == old(respParser.buffer.base.cdata)
      ensures Turned(State(), phase) == Turn(old(State()), old(respParser.buffer.Stale(beyond)))
      ensures phase == Parsing ==> var u, v := respParser.buffer.Unread(), old(respParser.buffer.Unread());
                                   |u| < |v| ||
                                   (|u| == |v| && !respParser.buffer.incomplArr && old(respParser.buffer.incomplArr))
    {
      hide ParserMachine.ParseOne, ParserMachine.Accept, InputBuff.Unread;
      var st := ParseNext(beyond);
      if st == Thrown {
        phase := ParseFault;
      } else if st == More {
        Pause();
      } else if sendedQueries == [] {
        phase := SyncFault;
      } else {
        delivered := delivered + [Handed(sendedQueries[0], respond)];
        sendedQueries := sendedQueries[1..];
      }
    }

    /** The parser's step, which changes nothing but the parser's state. */
    method ParseNext(beyond: char) returns (st: Status)
      requires Valid()
      modifies this`respond
      modifies respParser`errorStatus, respParser.buffer, respParser.buffer.base, respParser.buffer.base.cdata
      ensures Valid() && respParser.buffer.base.cdata == old(respParser.buffer.base.cdata)
      ensures var r := ParserMachine.ParseOne(old(State()).parser, old(respParser.buffer.Stale(beyond)));
              State() == Consumed(old(State()), r, old(respParser.buffer.Stale(beyond))) && st == r.st
      ensures st == Done ==> var u, v := respParser.buffer.Unread(), old(respParser.buffer.Unread());
                             |u| < |v| ||
                             (|u| == |v| && !respParser.buffer.incomplArr && old(respParser.buffer.incomplArr))
    {
      hide ParserMachine.ParseOne;
      ghost var p, s := respParser.buffer.View(respond), respParser.buffer.Stale(beyond);
      st, respond := respParser.ParseOne(respond, beyond);
      if st == Done {
        DoneShrinks(p, s);
      }
    }

    /** Read on, report the work done, or lay down the flag. */
    method Pause()
      requires Valid()
      modifies this`phase, this`reqProcRunning
      ensures Valid() && Turned(State(), phase) == Paused(old(State()))
    {
      if sendedQueries != [] {
        phase := Reading;
      } else if stopInProgress && queryQueue == [] {
        phase := Finished;
      } else {
        reqProcRunning := false;
        phase := Resting;
      }
    }

    /** Once: the callbacks of queries sent, then of queries waiting, are called with code 110. */
    method SocketErrorHandler()
      requires Valid()
      modifies this
      ensures Valid() && State() == Failed(old(State()))
    {
      if !errorStatus {
        errorStatus := true;
        stopInProgress := true;
        SocErrorCallbacks();
      }
    }

    method SocErrorCallbacks()
      modifies this`sendedQueries, this`queryQueue, this`aborted
      ensures sendedQueries == [] && queryQueue == []
      ensures aborted == old(aborted) + old(sendedQueries) + old(queryQueue)
    {
      while sendedQueries != []
        invariant aborted + sendedQueries == old(aborted) + old(sendedQueries) && queryQueue == old(queryQueue)
        decreases |sendedQueries|
      {
        assert sendedQueries == [sendedQueries[0]] + sendedQueries[1..];
        aborted := aborted + [sendedQueries[0]];
        sendedQueries := sendedQueries[1..];
      }
      ghost var mid := aborted;
      assert mid == old(aborted) + old(sendedQueries);
      while queryQueue != []
        invariant aborted + queryQueue == mid + old(queryQueue) && sendedQueries == []
        decreases |queryQueue|
      {
        assert queryQueue == [queryQueue[0]] + queryQueue[1..];
        aborted := aborted + [queryQueue[0]];
        queryQueue := queryQueue[1..];
      }
    }
  }
}

/** The RESP parser over the input buffer, statement by statement, proved against ParserSpec. */
module Parser {
  import opened ByteStrings
  import opened Resp
  import opened ParserSpec
  import opened ParserMachine
  import opened Buffers

  class RespProto {
    const buffer: InputBuff
    var errorStatus: bool

    ghost predicate Valid()
      reads this, buffer, buffer.base
    {
      buffer.Valid()
    }

    constructor ()
      ensures Valid() && fresh(buffer) && fresh(buffer.base) && fresh(buffer.base.cdata)
      ensures !errorStatus && buffer.View(BLANK) == FRESH && buffer.held == 0
    {
      buffer := new InputBuff();
      errorStatus := false;
    }

    /** cursor[i] for a cursor at `at`: memory, or what lies behind the allocation. */
    function Peek(at: nat, beyond: char): char
      reads this, buffer, buffer.base, buffer.base.cdata
    {
      if at < buffer.base.cdata.Length then buffer.base.cdata[at] else beyond
    }

    static lemma SliceOfSlice(data: array<char>, from: nat, n: nat, i: nat, j: nat)
      requires i <= j <= n && from + n <= data.Length
      ensures data[from + i..from + j] == data[from..from + n][i..j]
    {
      var part := data[from..from + n][i..j];
      assert forall k :: 0 <= k < j - i ==> part[k] == data[from + i + k];
    }

    method ReadSimpleString(target: RespData, cursor: nat, sz: nat) returns (st: Status, t: RespData)
      requires Valid() && sz >= 3 && cursor + sz == buffer.base.topOffset
      modifies buffer`unparsedOffset
      ensures var r := ParserSpec.ReadSimpleString(buffer.base.cdata[cursor..cursor + sz], target);
              st == r.st && t == r.t
              && buffer.unparsedOffset == if st == Done then cursor + r.used else old(buffer.unparsedOffset)
    {
      var data := buffer.base.cdata;
      ghost var u := data[cursor..cursor + sz];
      var i := 0;
      while data[cursor + i] != '\r'
        invariant i + 2 <= sz
        invariant forall j :: 0 <= j < i ==> u[j] != '\r'
        decreases sz - i
      {
        if sz - i - 2 == 0 {
          assert u[sz - 2] == data[cursor + i];
          assert FirstCR(u) + 2 > sz;
          return More, target;
        }
        assert u[i] == data[cursor + i];
        i := i + 1;
      }
      FirstCRAt(u, i);
      SliceOfSlice(data, cursor, sz, 0, i);
      t := target.(sres := data[cursor..cursor + i]);
      buffer.unparsedOffset := cursor + i + 2;
      st := Done;
    }

    method ReadInteger(target: RespData, cursor: nat, sz: nat) returns (st: Status, t: RespData)
      requires Valid() && sz >= 3 && cursor + sz == buffer.base.topOffset
      modifies buffer`unparsedOffset
      ensures var r := ParserSpec.ReadInteger(buffer.base.cdata[cursor..cursor + sz], target);
              st == r.st && t == r.t
              && buffer.unparsedOffset == if st == Done then cursor + r.used else old(buffer.unparsedOffset)
    {
      var data := buffer.base.cdata;
      ghost var u := data[cursor..cursor + sz];
      t := target.(ires := 0);
      var i := 0;
      while data[cursor + i] != '\r'
        invariant i + 2 <= sz
        invariant forall j :: 0 <= j < i ==> u[j] != '\r'
        invariant t == target.(ires := Int32Value(u[..i]))
        decreases sz - i
      {
        if sz - i - 2 == 0 {
          assert u[sz - 2] == data[cursor + i];
          assert FirstCR(u) + 2 > sz;
          return More, t;
        }
        assert u[i] == data[cursor + i];
        assert u[..i + 1][..i] == u[..i];
        t := t.(ires := Wrap32(t.ires * 10 + DigitValue(data[cursor + i])));
        i := i + 1;
      }
      FirstCRAt(u, i);
      t := t.(kind := Integer);
      buffer.unparsedOffset := cursor + i + 2;
      st := Done;
    }

    /** The length loop of bulk strings and array headers: it stops at a carriage return, which may be
        the leftover byte behind the filled region, or just behind that region. */
    method ReadLength(cursor: nat, sz: nat, beyond: char) returns (complete: bool, i: nat, n: nat)
      requires Valid() && cursor + sz == buffer.base.topOffset
      ensures var u := buffer.base.cdata[cursor..cursor + sz];
              i == FirstCR(u) && n == SizeValue(u[..i])
              && (complete <==> i < sz || buffer.Stale(beyond) == '\r')
    {
      ghost var u := buffer.base.cdata[cursor..cursor + sz];
      n, i := 0, 0;
      while Peek(cursor + i, beyond) != '\r'
        invariant i <= sz
        invariant forall j :: 0 <= j < i ==> u[j] != '\r'
        invariant n == SizeValue(u[..i])
        decreases sz - i
      {
        if sz - i == 0 {
          FirstCRAt(u, i);
          return false, i, n;
        }
        assert u[i] == buffer.base.cdata[cursor + i];
        assert u[..i + 1][..i] == u[..i];
        n := (n * 10 + DigitValue(Peek(cursor + i, beyond))) % SIZE_RANGE;
        i := i + 1;
      }
      FirstCRAt(u, i);
      complete := true;
    }

    method ReadBulkString(target: RespData, cursor: nat, sz: nat, beyond: char) returns (st: Status, t: RespData)
      requires Valid() && sz >= 4 && cursor + sz == buffer.base.topOffset
      modifies buffer`unparsedOffset
      ensures var r := ParserSpec.ReadBulkString(buffer.base.cdata[cursor..cursor + sz], buffer.Stale(beyond), target);
              st == r.st && t == r.t
              && buffer.unparsedOffset == if st == Done then cursor + r.used else old(buffer.unparsedOffset)
    {
      hide FirstCR, SizeValue;
      var data := buffer.base.cdata;
      ghost var u := data[cursor..cursor + sz];
      assert u[0] == data[cursor];
      if data[cursor] == '-' {
        t := target.(isnull := true);
        buffer.unparsedOffset := cursor + 4;
        return Done, t;
      }
      var complete, i, bulkSize := ReadLength(cursor, sz, beyond);
      if !complete {
        return More, target;
      }
      if sz - i < (bulkSize + 4) % SIZE_RANGE {
        return More, target;
      }
      if bulkSize > BULK_MAX {
        return Thrown, target;
      }
      assert (bulkSize + 4) % SIZE_RANGE == bulkSize + 4;
      SliceOfSlice(data, cursor, sz, i + 2, i + 2 + bulkSize);
      t := target.(sres := data[cursor + i + 2..cursor + i + 2 + bulkSize], kind := BulkStr);
      buffer.unparsedOffset := cursor + bulkSize + i + 4;
      st := Done;
    }

    method InitArray(target: RespData, cursor: nat, sz: nat, beyond: char) returns (st: Status, t: RespData)
      requires Valid() && sz >= 3 && cursor + sz == buffer.base.topOffset && cursor == buffer.unparsedOffset + 1
      modifies this`errorStatus, buffer`unparsedOffset, buffer`incomplArr
      ensures var r := ParserSpec.InitArray(buffer.base.cdata[cursor..cursor + sz], buffer.Stale(beyond), target);
              st == r.st && t == r.t
              && buffer.unparsedOffset == (if r.used == 0 then old(buffer.unparsedOffset) else cursor + r.used)
              && buffer.incomplArr == (old(buffer.incomplArr) || r.inc)
      decreases sz, target, 2
    {
      hide ParserSpec.FillArray, FirstCR, SizeValue, Resize, InputBuff.Tight;
      ghost var u := buffer.base.cdata[cursor..cursor + sz];
      assert u[0] == buffer.base.cdata[cursor];
      if buffer.base.cdata[cursor] == '0' {
        t := target.(isnull := true);
        buffer.unparsedOffset := cursor + 3;
        return Done, t;
      }
      var complete, i, arraySize := ReadLength(cursor, sz, beyond);
      if !complete {
        return More, target;
      }
      if arraySize > VECTOR_MAX {
        return Thrown, target;
      }
      t := target.(ares := Resize(target.ares, arraySize));
      buffer.unparsedOffset := cursor + i + 2;
      assert buffer.Unread() == Skip(u, i + 2);
      st, t := FillArray(t, beyond);
      if st == More {
        buffer.incomplArr := true;
      }
    }

    method FillArray(target: RespData, beyond: char) returns (st: Status, t: RespData)
      requires Valid()
      modifies this`errorStatus, buffer`unparsedOffset, buffer`incomplArr
      ensures var r := ParserSpec.FillArray(target, old(buffer.Unread()), buffer.Stale(beyond));
              st == r.st && t == r.t
              && buffer.unparsedOffset == old(buffer.unparsedOffset) + r.used
              && buffer.incomplArr == (old(buffer.incomplArr) || r.inc)
      decreases |buffer.Unread()|, target, 1
    {
      hide ParserSpec.FillArray, ParserSpec.ReadData, FillElems, Skip, InputBuff.Tight;
      FillArrayCases(target, buffer.Unread(), buffer.Stale(beyond));
      t := target;
      if target.ares == [] {
        return Done, t;
      }
      if buffer.UnparsedSize() == 0 {
        return More, t;
      }
      ghost var s, w0 := buffer.Stale(beyond), buffer.Unread();
      ghost var whole := FillElems(target.ares, w0, s);
      ghost var used: nat := 0;
      buffer.UnreadAfter(buffer.unparsedOffset, w0, 0);
      var i := 0;
      while i < |t.ares|
        invariant i <= |t.ares| == |target.ares|
        invariant t == target.(ares := t.ares) && t.ares[i..] == target.ares[i..]
        invariant buffer.unparsedOffset == old(buffer.unparsedOffset) + used
        invariant buffer.Unread() == Skip(w0, used)
        invariant buffer.incomplArr == old(buffer.incomplArr)
        invariant Prepend(t.ares[..i], used, FillElems(target.ares[i..], Skip(w0, used), s)) == whole
        decreases |target.ares| - i
      {
        var e := t.ares[i];
        SameSlot(t.ares, target.ares, i);
        ghost var o := Element(e, buffer.Unread(), s);
        FillStep(t.ares, target.ares, i, o, buffer.Unread(), used, s);
        SkipSkip(w0, used, o.used);
        st, e := ReadElement(e, beyond);
        SlotsBehind(t.ares, target.ares, i, e);
        t := t.(ares := t.ares[i := e]);
        if st != Done {
          return;
        }
        used := used + o.used;
        buffer.UnreadAfter(old(buffer.unparsedOffset), w0, used);
        i := i + 1;
      }
      FillNothing(Skip(w0, used), s);
      assert target.ares[i..] == [] && t.ares[..i] == t.ares;
      st := Done;
    }

    /** The body of the element loop. */
    method ReadElement(e: RespData, beyond: char) returns (st: Status, t: RespData)
      requires Valid()
      modifies this`errorStatus, buffer`unparsedOffset, buffer`incomplArr
      ensures var o := Element(e, old(buffer.Unread()), buffer.Stale(beyond));
              st == o.st && t == o.t
              && buffer.unparsedOffset == old(buffer.unparsedOffset) + o.used
              && buffer.incomplArr == (old(buffer.incomplArr) || o.inc)
      decreases |buffer.Unread()|, e, 4
    {
      hide ParserSpec.FillArray, ParserSpec.ReadData, InputBuff.Tight;
      if e.kind == Array {
        st, t := FillArray(e, beyond);
      } else if e.kind != Empty {
        st, t := Done, e;
      } else {
        st, t := ReadData(e, beyond);
      }
    }

    static lemma SameSlot(ts: seq<RespData>, es: seq<RespData>, i: nat)
      requires i < |ts| == |es| && ts[i..] == es[i..]
      ensures ts[i] == es[i] && es[i] in es
    {
      assert ts[i] == ts[i..][0] && es[i] == es[i..][0];
    }

    static lemma SlotsBehind(ts: seq<RespData>, es: seq<RespData>, i: nat, e: RespData)
      requires i < |ts| == |es| && ts[i..] == es[i..]
      ensures ts[i := e][i + 1..] == es[i + 1..]
    {
      assert ts[i := e][i + 1..] == ts[i..][1..] == es[i..][1..];
    }

    static lemma FillNothing(w: Bytes, s: char)
      ensures FillElems([], w, s) == Fill(Done, [], 0, false)
    {
    }

    static ghost function Prepend(done: seq<RespData>, used: nat, r: Fill): Fill {
      Fill(r.st, done + r.es, used + r.used, r.inc)
    }

    static ghost function Element(e: RespData, w: Bytes, s: char): (o: Outcome)
      ensures o.st == Done ==> !o.inc
    {
      if e.kind == Array then ParserSpec.FillArray(e, w, s)
      else if e.kind != Empty then Outcome(Done, e, 0, false)
      else ParserSpec.ReadData(w, s, e)
    }

    /** One turn of the element loop. */
    static lemma FillStep(ts: seq<RespData>, es: seq<RespData>, i: nat, o: Outcome, w: Bytes, used: nat, s: char)
      requires i < |ts| == |es| && ts[i..] == es[i..] && o == Element(es[i], w, s)
      ensures Prepend(ts[..i], used, FillElems(es[i..], w, s)) ==
              if o.st != Done then Fill(o.st, ts[i := o.t], used + o.used, o.inc)
              else Prepend(ts[i := o.t][..i + 1], used + o.used, FillElems(es[i + 1..], Skip(w, o.used), s))
    {
      hide ParserSpec.FillArray, ParserSpec.ReadData, Skip, InputBuff.Tight;
      var rest := es[i..];
      assert rest[0] == es[i] && rest[1..] == es[i + 1..] == ts[i + 1..];
      if o.st != Done {
        assert ts[i := o.t] == ts[..i] + ([o.t] + ts[i + 1..]);
      } else {
        assert ts[i := o.t][..i + 1] == ts[..i] + [o.t];
      }
    }

    method ReadData(target: RespData, beyond: char) returns (st: Status, t: RespData)
      requires Valid()
      modifies this`errorStatus, buffer`unparsedOffset, buffer`incomplArr
      ensures var r := ParserSpec.ReadData(old(buffer.Unread()), buffer.Stale(beyond), target);
              st == r.st && t == r.t
              && buffer.unparsedOffset == old(buffer.unparsedOffset) + r.used
              && buffer.incomplArr == (old(buffer.incomplArr) || r.inc)
      decreases |buffer.Unread()|, target, 3
    {
      hide ParserSpec.ReadSimpleString, ParserSpec.ReadInteger, ParserSpec.ReadBulkString, ParserSpec.InitArray;
      hide InputBuff.Tight;
      var size := buffer.UnparsedSize();
      var cursor := buffer.unparsedOffset;
      ghost var w := buffer.Unread();
      var c := Peek(Min(cursor, buffer.base.topOffset), beyond);
      assert size > 0 ==> w[0] == c && w[1..] == buffer.base.cdata[cursor + 1..cursor + size];
      t := target;
      match c
      case '+' =>
        if size < 4 {
          return More, t;
        }
        st, t := ReadSimpleString(t, cursor + 1, size - 1);
        if st == Done {
          t := t.(kind := SimpleStr);
        }
      case '-' =>
        if size < 4 {
          return More, t;
        }
        st, t := ReadSimpleString(t, cursor + 1, size - 1);
        if st == Done {
          t := t.(kind := ErrorStr);
        }
      case ':' =>
        if size < 4 {
          return More, t;
        }
        st, t := ReadInteger(t, cursor + 1, size - 1);
      case '$' =>
        if size < 5 {
          return More, t;
        }
        st, t := ReadBulkString(t, cursor + 1, size - 1, beyond);
        if st == Done {
          t := t.(kind := BulkStr);
        }
      case '*' =>
        if size < 4 {
          return More, t;
        }
        st, t := InitArray(t, cursor + 1, size - 1, beyond);
      case _ =>
        errorStatus := true;
        st := Thrown;
    }

    /** One step of the parsing loop: exactly the machine's step, with the actual leftover byte. */
    method ParseOne(respond: RespData, beyond: char) returns (st: Status, t: RespData)
      requires Valid()
      modifies this`errorStatus, buffer, buffer.base, buffer.base.cdata
      ensures Valid() && buffer.base.cdata == old(buffer.base.cdata)
      ensures Parsed(st, buffer.View(t)) == ParserMachine.ParseOne(old(buffer.View(respond)), old(buffer.Stale(beyond)))
      ensures buffer.comlated <==> st == Done
      ensures buffer.held == StillHeld(old(buffer.View(respond)), old(buffer.held), old(buffer.Stale(beyond)))
      ensures st == Done ==> buffer.Compact()
    {
      hide ParserSpec.FillArray, ParserSpec.ReadData;
      t := respond;
      buffer.comlated := false;
      if buffer.base.topOffset <= buffer.unparsedOffset {
        return More, t;
      }
      if !buffer.incomplArr {
        t := BLANK;
        st, t := ReadData(t, beyond);
      } else {
        st, t := FillArray(t, beyond);
        if st == Done {
          buffer.incomplArr := false;
        }
      }
      if st == Done {
        buffer.comlated := true;
        buffer.ManageMem(t);
      }
    }
  }
}

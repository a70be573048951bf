/** The growable byte block under both buffers, and the input buffer with its compaction. */
module Buffers {
  import opened ByteStrings
  import opened Resp
  import opened ParserSpec
  import opened ParserMachine

  const MAX_BUFF_SIZE: nat := 10485760
  const BASIC_BLOCK_SIZE: nat := 1024
  const RESP_RELEASE_SZ: nat := 2048

  function Min(a: nat, b: nat): nat {
    if a <= b then a else b
  }

  function Max(a: nat, b: nat): nat {
    if a >= b then a else b
  }

  /** Enough whole blocks for twice the data, and one more. */
  function CalculateMem(top: nat, block: nat): nat
    requires block > 0
  {
    ((top + top) / block + 2) * block
  }

  lemma MemSuffices(top: nat, block: nat)
    requires block > 0
    ensures 2 * top + block < CalculateMem(top, block) <= 2 * top + 2 * block
  {
    var q := (top + top) / block;
    assert top + top == q * block + (top + top) % block;
    assert (q + 2) * block == q * block + 2 * block;
  }

  class BuffAbstract {
    var cdata: array<char>
    var topOffset: nat
    var reserved: nat
    var size: nat

    /** `reserved` may exceed what is allocated (RemallocFreeMem records the uncapped figure). */
    ghost predicate Valid()
      reads this
    {
      topOffset <= size <= cdata.Length == Min(reserved, MAX_BUFF_SIZE)
    }

    /** The filled bytes. */
    ghost function Contents(): Bytes
      reads this, cdata
      requires Valid()
    {
      cdata[..topOffset]
    }

    constructor ()
      ensures Valid() && fresh(cdata) && topOffset == size == 0 && reserved == 2 * BASIC_BLOCK_SIZE
    {
      reserved := CalculateMem(0, BASIC_BLOCK_SIZE);
      cdata := new char[2 * BASIC_BLOCK_SIZE];
      topOffset, size := 0, 0;
    }

    function SizeAvail(): nat
      reads this
      requires Valid()
    {
      size - topOffset
    }

    /** realloc: a block of the given length that begins with the old bytes. */
    method Realloc(length: nat)
      modifies this`cdata
      ensures fresh(cdata) && cdata.Length == length
      ensures forall i :: 0 <= i < length && i < old(cdata).Length ==> cdata[i] == old(cdata[i])
    {
      var block := new char[length];
      forall i | 0 <= i < length && i < cdata.Length {
        block[i] := cdata[i];
      }
      cdata := block;
    }

    /** Make room for n more bytes. The result false is the source's out_of_range exception. A caller
        whose `reserved` is uncapped must have checked the bound itself, as the output buffer does. */
    method Release(n: nat) returns (ok: bool)
      requires Valid() && (n > 0 || topOffset < reserved)
      requires reserved <= MAX_BUFF_SIZE || topOffset + n <= MAX_BUFF_SIZE
      modifies this
      ensures Valid() && topOffset == old(topOffset) && Contents() == old(Contents())
      ensures cdata == old(cdata) || fresh(cdata)
      ensures ok ==> SizeAvail() >= n
      ensures topOffset + n <= MAX_BUFF_SIZE ==> ok
      ensures !ok ==> cdata == old(cdata) && size == old(size) && reserved == old(reserved)
      ensures cdata.Length >= old(cdata.Length) && size >= old(size)
      ensures old(reserved) <= MAX_BUFF_SIZE ==> reserved <= MAX_BUFF_SIZE
      ensures reserved != old(reserved) ==>
                old(reserved) - topOffset <= n && reserved == Min(CalculateMem(topOffset, n), MAX_BUFF_SIZE)
    {
      if n < size - topOffset {
        return true;
      }
      var reservedFree := reserved - topOffset;
      if reservedFree <= n {
        if topOffset + n > MAX_BUFF_SIZE {
          return false;
        }
        MemSuffices(topOffset, n);
        reserved := Min(CalculateMem(topOffset, n), MAX_BUFF_SIZE);
        Realloc(reserved);
        assert cdata[..topOffset] == old(cdata[..topOffset]);
      }
      size := topOffset + n;
      return true;
    }

    /** A new block in place of the current one, whose owner keeps it. The block is capped, the figure
        recorded for it is not. */
    method RemallocFreeMem()
      requires Valid()
      modifies this
      ensures Valid() && fresh(cdata) && topOffset == size == 0
      ensures reserved == CalculateMem(old(topOffset), Max(old(reserved) - old(topOffset), BASIC_BLOCK_SIZE))
    {
      hide CalculateMem;
      var wanted := CalculateMem(topOffset, Max(reserved - topOffset, BASIC_BLOCK_SIZE));
      reserved := Min(wanted, MAX_BUFF_SIZE);
      cdata := new char[reserved];
      reserved := wanted;
      Reset(true);
    }

    /** n bytes were written behind the filled region. */
    method Accept(n: nat)
      requires Valid() && n <= SizeAvail()
      modifies this`topOffset
      ensures Valid() && topOffset == old(topOffset) + n
    {
      topOffset := topOffset + n;
    }

    method Reset(soft: bool)
      requires cdata.Length == Min(reserved, MAX_BUFF_SIZE)
      modifies this
      ensures Valid() && topOffset == size == 0
      ensures cdata == old(cdata) || fresh(cdata)
      ensures soft ==> cdata == old(cdata) && reserved == old(reserved)
      ensures !soft ==> reserved == 2 * BASIC_BLOCK_SIZE
    {
      topOffset, size := 0, 0;
      if !soft {
        reserved := CalculateMem(topOffset, BASIC_BLOCK_SIZE);
        Realloc(reserved);
      }
    }

    /** memcpy of `bytes` behind the filled region. */
    method Write(bytes: Bytes)
      requires Valid() && |bytes| <= SizeAvail()
      modifies cdata
      ensures cdata[..topOffset] == old(cdata[..topOffset])
      ensures cdata[topOffset..topOffset + |bytes|] == bytes
    {
      forall i | 0 <= i < |bytes| {
        cdata[topOffset + i] := bytes[i];
      }
    }

    /** `operator<<`: room, copy, accept. */
    method Append(bytes: Bytes) returns (ok: bool)
      requires Valid() && (bytes != [] || topOffset < reserved)
      requires reserved <= MAX_BUFF_SIZE || topOffset + |bytes| <= MAX_BUFF_SIZE
      modifies this, cdata
      ensures Valid()
      ensures cdata == old(cdata) || fresh(cdata)
      ensures topOffset + |bytes| <= MAX_BUFF_SIZE ==> ok
      ensures Contents() == if ok then old(Contents()) + bytes else old(Contents())
    {
      ok := Release(|bytes|);
      if ok {
        Write(bytes);
        Accept(|bytes|);
        assert cdata[..topOffset] == old(Contents()) + bytes;
      }
    }

    /** Move the bytes from `from` on to the front; source and target do not overlap. */
    method MoveToFront(from: nat)
      requires Valid() && from <= topOffset && topOffset - from <= from
      modifies this`topOffset, cdata
      ensures Valid() && Contents() == old(cdata[from..topOffset])
    {
      var len := topOffset - from;
      forall i | 0 <= i < len {
        cdata[i] := cdata[from + i];
      }
      topOffset := len;
    }
  }

  class InputBuff {
    const base: BuffAbstract
    var incomplArr: bool
    var unparsedOffset: nat
    var comlated: bool
    /** The bytes received since the end of the last reply delivered. */
    ghost var held: nat

    ghost predicate Valid()
      reads this, base
    {
      base.Valid() && base.reserved <= MAX_BUFF_SIZE && Tight()
    }

    /** Beside the bytes held no more than half the limit, or as much again, is filled. */
    ghost predicate Tight()
      reads this`held, base`topOffset
    {
      base.topOffset <= MAX_BUFF_SIZE / 2 + held || base.topOffset <= 2 * held
    }

    constructor ()
      ensures Valid() && fresh(base) && fresh(base.cdata) && base.topOffset == 0
      ensures unparsedOffset == 0 && !incomplArr && held == 0
    {
      base := new BuffAbstract();
      incomplArr, unparsedOffset, comlated, held := false, 0, false, 0;
    }

    /** Nothing is filled, or less than half the reserve, or the unread bytes are more than half of what is filled;
        or the offset has run past the filled bytes. */
    ghost predicate Compact()
      reads this, base, base.cdata
      requires Valid()
    {
      base.topOffset == 0 || 2 * base.topOffset < base.reserved || base.topOffset < 2 * |Unread()| ||
      base.topOffset < unparsedOffset
    }

    /** The filled bytes from the parse offset on. */
    ghost function Unread(): Bytes
      reads this, base, base.cdata
      requires Valid()
    {
      if unparsedOffset <= base.topOffset then base.cdata[unparsedOffset..base.topOffset] else []
    }

    /** What is unread once the parse offset, standing at `from`, has moved on by n. */
    lemma UnreadAfter(from: nat, before: Bytes, n: nat)
      requires Valid() && unparsedOffset == from + n
      requires before == if from <= base.topOffset then base.cdata[from..base.topOffset] else []
      ensures Unread() == Skip(before, n)
    {
    }

    /** The byte past the filled region; `beyond` stands for what lies behind the allocation. */
    ghost function Stale(beyond: char): char
      reads this, base, base.cdata
      requires Valid()
    {
      if base.topOffset < base.cdata.Length then base.cdata[base.topOffset] else beyond
    }

    /** The abstract parser state, for the caller's reply variable. */
    ghost function View(resp: RespData): PState
      reads this, base, base.cdata
      requires Valid()
    {
      PState(Unread(), if unparsedOffset <= base.topOffset then 0 else unparsedOffset - base.topOffset,
             incomplArr, resp)
    }

    function UnparsedSize(): nat
      reads this, base
    {
      if base.topOffset < unparsedOffset then 0 else base.topOffset - unparsedOffset
    }

    method Reset(soft: bool)
      requires Valid()
      modifies this`unparsedOffset, base
      ensures base.topOffset == 0 && unparsedOffset == 0 && Valid()
      ensures base.cdata == old(base.cdata) || fresh(base.cdata)
      ensures soft ==> base.cdata == old(base.cdata) && base.reserved == old(base.reserved)
    {
      base.Reset(soft);
      unparsedOffset := 0;
    }

    /** Compaction after a complete reply: what is still to be parsed does not change, and what is filled is not
        much more. */
    method ManageMem(ghost resp: RespData)
      requires Valid()
      modifies this`unparsedOffset, this`held, base, base.cdata
      ensures Valid() && View(resp) == old(View(resp)) && Compact()
      ensures held == if View(resp).skip == 0 then |Unread()| else old(held)
      ensures base.cdata == old(base.cdata) && base.reserved == old(base.reserved)
    {
      ghost var left := if unparsedOffset <= base.topOffset then |Unread()| else held;
      if unparsedOffset == base.topOffset {
        Reset(true);
        held := left;
        return;
      }
      if base.reserved > base.topOffset * 2 {
        held := left;
        return;
      }
      // An offset past the filled bytes makes the source's unsigned difference huge.
      if unparsedOffset > base.topOffset || base.topOffset - unparsedOffset > unparsedOffset {
        held := left;
        return;
      }
      base.MoveToFront(unparsedOffset);
      unparsedOffset, held := 0, left;
      assert Unread() == base.Contents();
    }

    /** Room for the next read; growing the block moves nothing the parser can see. */
    method Release(n: nat, ghost resp: RespData) returns (ok: bool)
      requires Valid() && n > 0
      modifies base
      ensures Valid() && View(resp) == old(View(resp))
      ensures base.cdata == old(base.cdata) || fresh(base.cdata)
      ensures ok ==> base.SizeAvail() >= n
      ensures base.topOffset + n <= MAX_BUFF_SIZE ==> ok
      ensures held + n <= MAX_BUFF_SIZE / 2 ==> ok
    {
      ghost var before := base.Contents();
      ok := base.Release(n);
      assert unparsedOffset <= base.topOffset ==> Unread() == before[unparsedOffset..];
    }

    /** Bytes read from the socket arrive: the parser sees them appended. */
    method AcceptChunk(chunk: Bytes, ghost resp: RespData)
      requires Valid() && |chunk| <= base.SizeAvail()
      modifies this`held, base, base.cdata
      ensures Valid() && View(resp) == Accept(old(View(resp)), chunk) && held == old(held) + |chunk|
      ensures base.cdata == old(base.cdata)
    {
      base.Write(chunk);
      base.Accept(|chunk|);
      held := held + |chunk|;
      ghost var p := old(View(resp));
      assert base.cdata[..base.topOffset] == old(base.cdata[..base.topOffset]) + chunk;
      if p.skip == 0 {
        assert Unread() == p.pend + chunk;
      } else if p.skip <= |chunk| {
        assert Unread() == chunk[p.skip..];
      }
    }
  }
}

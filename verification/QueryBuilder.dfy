/** The query builder: parts are printed behind a reserved hole, the prefix is patched into it, and
    direct buffers are spliced in only when the query is handed to the socket. */
module QueryBuilder {
  import opened ByteStrings
  import opened Resp

  /** Room for "*4294967295\r\n" as the source computes it: ten digits and three more bytes. */
  const PREF_MAX: nat := 13

  const NUL: char := 0 as char

  /** An argument of a query. Text and Many are read as C strings. */
  datatype Part = Text(s: Bytes) | Many(items: seq<Bytes>) | Number(n: int) | Direct(data: Bytes)

  /** What strlen and %s see of a string: everything before its first NUL. */
  function CStr(s: Bytes): (r: Bytes)
    ensures NUL !in r
    ensures NUL !in s ==> r == s
  {
    if s == [] || s[0] == NUL then [] else [s[0]] + CStr(s[1..])
  }

  function CStrs(ss: seq<Bytes>): seq<Bytes> {
    if ss == [] then [] else [CStr(ss[0])] + CStrs(ss[1..])
  }

  /** The byte strings an argument contributes to the command. */
  function Payload(p: Part): seq<Bytes> {
    match p
    case Text(s) => [CStr(s)]
    case Many(ss) => CStrs(ss)
    case Number(n) => [IntText(n)]
    case Direct(d) => [d]
  }

  function Payloads(ps: seq<Part>): seq<Bytes> {
    if ps == [] then [] else Payload(ps[0]) + Payloads(ps[1..])
  }

  /** Arguments contribute in their order, each what it contributes alone. */
  lemma {:induction false} PayloadsAppend(ps: seq<Part>, qs: seq<Part>)
    ensures Payloads(ps + qs) == Payloads(ps) + Payloads(qs)
  {
    hide Payload;
    if ps == [] {
      assert ps + qs == qs;
    } else {
      assert (ps + qs)[1..] == ps[1..] + qs;
      PayloadsAppend(ps[1..], qs);
    }
  }

  lemma PayloadsOne(p: Part)
    ensures Payloads([p]) == Payload(p)
  {
    assert [p][1..] == [];
  }

  /** Each text as an argument of its own. */
  function Texts(ss: seq<Bytes>): (ps: seq<Part>)
    ensures |ps| == |ss| && forall i :: 0 <= i < |ss| ==> ps[i] == Text(ss[i])
  {
    if ss == [] then [] else [Text(ss[0])] + Texts(ss[1..])
  }

  lemma {:induction false} TextsInOrder(ss: seq<Bytes>)
    requires forall s :: s in ss ==> NUL !in s
    ensures Payloads(Texts(ss)) == ss
  {
    if ss != [] {
      assert ss[0] in ss && ss == [ss[0]] + ss[1..];
      TextsInOrder(ss[1..]);
      PayloadsAppend([Text(ss[0])], Texts(ss[1..]));
      PayloadsOne(Text(ss[0]));
    }
  }

  /** A number contributes its decimal text. */
  lemma NumberRead(n: int)
    ensures |Payload(Number(n))| == 1
    ensures var t := Payload(Number(n))[0];
            if n >= 0 then IntValue(t) == n else t[0] == '-' && IntValue(t[1..]) == -n
  {
    hide Dec;
    IntValueOfDec(if n >= 0 then n else -n);
  }

  function Bulks(bs: seq<Bytes>): (vs: seq<Reply>)
    ensures |vs| == |bs| && forall i :: 0 <= i < |bs| ==> vs[i] == Bulk(bs[i])
  {
    if bs == [] then [] else [Bulk(bs[0])] + Bulks(bs[1..])
  }

  /** A command on the wire: an array of bulk strings. */
  function Command(bs: seq<Bytes>): Reply {
    Arr(Bulks(bs))
  }

  lemma {:induction false} BulksAppend(xs: seq<Bytes>, ys: seq<Bytes>)
    ensures Bulks(xs + ys) == Bulks(xs) + Bulks(ys)
  {
  }

  // ---- C string printing

  /** snprintf into q at pos with the given limit: at most limit - 1 characters and a NUL. */
  function Printed(q: Bytes, pos: nat, limit: nat, text: Bytes): (r: Bytes)
    requires limit >= 1 && pos + limit <= |q|
    ensures |r| == |q|
  {
    var out := if |text| < limit then text else text[..limit - 1];
    q[..pos] + out + [NUL] + q[pos + |out| + 1..]
  }

  /** std::string::resize upwards. */
  function Grown(q: Bytes, n: nat): (r: Bytes)
    requires n >= |q|
    ensures |r| == n && r[..|q|] == q
  {
    q + seq(n - |q|, _ => NUL)
  }

  /** A length cast to unsigned and printed with %d. */
  function LenText(n: nat): (r: Bytes)
    ensures '\r' !in r && NUL !in r
  {
    IntText(Wrap32(n))
  }

  /** From 2^31 on the printed length is another number's. */
  lemma LenTextExact(n: nat)
    ensures LenText(n) == Dec(n) <==> n <= INT_MAX
  {
    hide Dec;
    var m := Wrap32(n);
    if m >= 0 {
      IntValueOfDec(n);
      IntValueOfDec(m);
    }
  }

  function BulkText(part: Bytes): Bytes {
    ['$'] + LenText(|part|) + CRLF + part + CRLF
  }

  lemma LineSame(a: Bytes, x: Bytes, b: Bytes, y: Bytes)
    requires '\r' !in a && '\r' !in b && a + CRLF + x == b + CRLF + y
    ensures a == b && x == y
  {
    var u := a + CRLF + x;
    FirstCRAt(u, |a|);
    FirstCRAt(u, |b|);
    assert a == u[..|a|] && b == u[..|b|] && x == u[|a| + 2..] && y == u[|b| + 2..];
  }

  /** In any company a part's text is its bulk string's only if its length prints right. */
  lemma BulkTextSame(part: Bytes, x: Bytes, y: Bytes)
    ensures BulkText(part) + x == Enc(Bulk(part)) + y <==> |part| <= INT_MAX && x == y
  {
    hide Dec, LenText;
    LenTextExact(|part|);
    var a, b, rest := LenText(|part|), Dec(|part|), part + CRLF;
    assert BulkText(part) + x == ['$'] + (a + CRLF + (rest + x));
    assert Enc(Bulk(part)) + y == ['$'] + (b + CRLF + (rest + y));
    if BulkText(part) + x == Enc(Bulk(part)) + y {
      assert a + CRLF + (rest + x) == (BulkText(part) + x)[1..] == b + CRLF + (rest + y);
      LineSame(a, rest + x, b, rest + y);
      assert x == (rest + x)[|rest|..] && y == (rest + y)[|rest|..];
    }
  }

  lemma BulkTextLong(part: Bytes)
    ensures |BulkText(part)| > INT_MAX <==> |part| + 15 > INT_MAX
    ensures |BulkText(part)| == |part| + |LenText(|part|)| + 5
    ensures |part| <= INT_MAX ==> |LenText(|part|)| == |Dec(|part|)| <= 10
  {
    hide Dec;
    LenTextExact(|part|);
    DecDigits(|part|, 9);
    DecDigits(|part|, 10);
    assert Pow10(9) == 1_000_000_000 && Pow10(10) == 10_000_000_000;
  }

  lemma BulkTextExact(part: Bytes)
    ensures BulkText(part) == Enc(Bulk(part)) <==> |part| <= INT_MAX
  {
    BulkTextSame(part, [], []);
    assert BulkText(part) + [] == BulkText(part) && Enc(Bulk(part)) + [] == Enc(Bulk(part));
  }

  const BILLION: nat := 1_000_000_000

  /** A printed string, or the failure of a print whose length an int cannot hold: the negative result, taken
      for a size, makes the string's next operation throw. */
  datatype Built = Built(query: Bytes) | TooLong

  /** What add_query_part prints: the bulk string, or, from ten length digits on, the bulk string
      with its last byte lost to snprintf's terminator. */
  function AddedPart(part: Bytes): Bytes {
    var t := BulkText(part);
    if |part| < BILLION then t else t[..|t| - 1] + [NUL]
  }

  /** The query after add_query_part. A failed print, one byte short of the old size, erases the last byte. */
  function PartAdded(q: Bytes, part: Bytes): Built {
    if |BulkText(part)| <= INT_MAX then Built(q + AddedPart(part))
    else if q == [] then TooLong
    else Built(q[..|q| - 1])
  }

  /** A part is added right exactly if it is shorter than 10^9 bytes: then its text fits its reserved space. */
  lemma AddedPartExact(q: Bytes, part: Bytes)
    ensures PartAdded(q, part) == Built(q + Enc(Bulk(part))) <==> |part| < BILLION
    ensures |part| < BILLION ==> AddedPart(part) == Enc(Bulk(part))
  {
    hide Dec, LenText;
    var t, e := BulkText(part), Enc(Bulk(part));
    BulkTextExact(part);
    BulkTextLong(part);
    assert e[|e| - 1] == '\n';
    SameBehind(q, AddedPart(part), e);
    if |part| >= BILLION && |t| <= INT_MAX {
      assert AddedPart(part)[|t| - 1] == NUL;
    } else if |part| >= BILLION {
      assert q != [] ==> |q[..|q| - 1]| < |q + e|;
    }
  }

  // ---- splicing

  type Ext = (nat, Bytes)

  predicate Sorted(ext: seq<Ext>, from: nat, to: nat) {
    (forall i :: 0 <= i < |ext| ==> from <= ext[i].0 <= to) &&
    forall i, j :: 0 <= i < j < |ext| ==> ext[i].0 <= ext[j].0
  }

  /** The pieces of the multibuffer from offset prev on. */
  function Pieces(q: Bytes, ext: seq<Ext>, prev: nat): seq<Bytes>
    requires prev <= |q| && Sorted(ext, prev, |q|)
  {
    if ext == [] then [q[prev..]]
    else [q[prev..ext[0].0], ext[0].1] + Pieces(q, ext[1..], ext[0].0)
  }

  /** What reaches the wire. */
  function Spliced(q: Bytes, ext: seq<Ext>, prev: nat): Bytes
    requires prev <= |q| && Sorted(ext, prev, |q|)
  {
    if ext == [] then q[prev..]
    else q[prev..ext[0].0] + ext[0].1 + Spliced(q, ext[1..], ext[0].0)
  }

  lemma PiecesCons(q: Bytes, ext: seq<Ext>, prev: nat)
    requires prev <= |q| && ext != [] && Sorted(ext, prev, |q|)
    ensures Pieces(q, ext, prev) == [q[prev..ext[0].0], ext[0].1] + Pieces(q, ext[1..], ext[0].0)
  {
  }

  lemma PiecesEnd(q: Bytes, prev: nat)
    requires prev <= |q|
    ensures Pieces(q, [], prev) == [q[prev..]]
  {
  }

  lemma {:induction false} PiecesSpliced(q: Bytes, ext: seq<Ext>, prev: nat)
    requires prev <= |q| && Sorted(ext, prev, |q|)
    ensures Concat(Pieces(q, ext, prev)) == Spliced(q, ext, prev)
    decreases |ext|
  {
    if ext == [] {
      ConcatOne(q[prev..]);
    } else {
      var rest := Pieces(q, ext[1..], ext[0].0);
      PiecesSpliced(q, ext[1..], ext[0].0);
      var ps := Pieces(q, ext, prev);
      assert ps[0] == q[prev..ext[0].0] && ps[1..][0] == ext[0].1 && ps[1..][1..] == rest;
    }
  }

  /** Appending text after the last splice. */
  lemma {:induction false} SplicedAppend(q: Bytes, x: Bytes, ext: seq<Ext>, prev: nat)
    requires prev <= |q| && Sorted(ext, prev, |q|)
    ensures Sorted(ext, prev, |q + x|) && Spliced(q + x, ext, prev) == Spliced(q, ext, prev) + x
    decreases |ext|
  {
    if ext == [] {
      assert (q + x)[prev..] == q[prev..] + x;
    } else {
      var p := ext[0].0;
      SplicedAppend(q, x, ext[1..], p);
      assert (q + x)[prev..p] == q[prev..p];
      var a, b := q[prev..p] + ext[0].1, Spliced(q, ext[1..], p);
      assert a + (b + x) == (a + b) + x;
    }
  }

  lemma SplicedCons(q: Bytes, x: Ext, ext: seq<Ext>, prev: nat)
    requires prev <= |q| && Sorted([x] + ext, prev, |q|)
    ensures prev <= x.0 <= |q| && Sorted(ext, x.0, |q|)
    ensures Spliced(q, [x] + ext, prev) == q[prev..x.0] + x.1 + Spliced(q, ext, x.0)
  {
    assert ([x] + ext)[0] == x && ([x] + ext)[1..] == ext;
    assert forall i :: 0 <= i < |ext| ==> ext[i] == ([x] + ext)[i + 1];
  }

  lemma SplicedNone(q: Bytes, prev: nat)
    requires prev <= |q|
    ensures Spliced(q, [], prev) == q[prev..]
  {
  }

  lemma SortedSnoc(ext: seq<Ext>, x: Ext, from: nat, to: nat)
    requires Sorted(ext, from, to) && x.0 == to && from <= to
    ensures Sorted(ext + [x], from, to)
  {
  }

  /** Recording one more splice at the end of q. */
  lemma {:induction false} SplicedSnoc(q: Bytes, data: Bytes, ext: seq<Ext>, prev: nat)
    requires prev <= |q| && Sorted(ext, prev, |q|)
    ensures Sorted(ext + [(|q|, data)], prev, |q|)
    ensures Spliced(q, ext + [(|q|, data)], prev) == Spliced(q, ext, prev) + data
    decreases |ext|
  {
    hide Spliced, Sorted;
    var x := (|q|, data);
    SortedSnoc(ext, x, prev, |q|);
    if ext == [] {
      assert [] + [x] == [x] + [];
      SplicedCons(q, x, [], prev);
      SplicedNone(q, prev);
      SplicedNone(q, |q|);
      assert q[prev..] == q[prev..|q|] && q[|q|..] == [];
    } else {
      var y, rest := ext[0], ext[1..];
      assert ext == [y] + rest && ext + [x] == [y] + (rest + [x]);
      SplicedCons(q, y, rest, prev);
      SplicedCons(q, y, rest + [x], prev);
      SplicedSnoc(q, data, rest, y.0);
      var a, b := q[prev..y.0] + y.1, Spliced(q, rest, y.0);
      assert a + (b + data) == (a + b) + data;
    }
  }

  /** ext' is ext moved by d. */
  predicate Moved(ext: seq<Ext>, ext': seq<Ext>, d: int) {
    |ext'| == |ext| &&
    forall i :: 0 <= i < |ext| ==> ext'[i].0 == ext[i].0 + d && ext'[i].1 == ext[i].1
  }

  /** Only what lies behind prev matters, wherever it stands. */
  lemma {:induction false} SplicedMoved(q: Bytes, ext: seq<Ext>, prev: nat, q': Bytes, ext': seq<Ext>, prev': nat)
    requires prev <= |q| && Sorted(ext, prev, |q|) && prev' <= |q'| && q[prev..] == q'[prev'..]
    requires Moved(ext, ext', prev' - prev)
    ensures Sorted(ext', prev', |q'|) && Spliced(q, ext, prev) == Spliced(q', ext', prev')
    decreases |ext|
  {
    assert |q| - prev == |q'| - prev';
    if ext != [] {
      var n := ext[0].0 - prev;
      assert q[ext[0].0..] == q[prev..][n..] && q'[ext'[0].0..] == q'[prev'..][n..];
      assert q[prev..ext[0].0] == q[prev..][..n] && q'[prev'..ext'[0].0] == q'[prev'..][..n];
      SplicedMoved(q, ext[1..], ext[0].0, q', ext'[1..], ext'[0].0);
    }
  }

  /** No splice in the first prev bytes: they are sent as they are. */
  lemma SplicedFront(q: Bytes, ext: seq<Ext>, prev: nat)
    requires prev <= |q| && Sorted(ext, prev, |q|)
    ensures Sorted(ext, 0, |q|) && Spliced(q, ext, 0) == q[..prev] + Spliced(q, ext, prev)
  {
    if ext == [] {
      assert q[0..] == q[..prev] + q[prev..];
    } else {
      var p, rest := ext[0].0, Spliced(q, ext[1..], ext[0].0);
      assert q[0..p] == q[..prev] + q[prev..p];
      Regroup(q[..prev], q[prev..p], ext[0].1, rest);
    }
  }

  predicate Fits(p: Part) {
    match p
    case Text(s) => |CStr(s)| < BILLION
    case Many(ss) => forall s :: s in ss ==> |CStr(s)| < BILLION
    case Number(n) => |IntText(n)| < BILLION
    case Direct(d) => |d| < 10_000_000
  }

  class Query {
    var query: Bytes
    var pcount: nat
    var extBuffs: seq<Ext>
    /** The byte strings added so far. */
    ghost var parts: seq<Bytes>

    constructor ()
      ensures query == [] && pcount == 0 && extBuffs == [] && parts == []
    {
      query, pcount, extBuffs, parts := [], 0, [], [];
    }

    /** While building: a hole of PREF_MAX bytes, then the parts, to be spliced. */
    ghost predicate Building()
      reads this
    {
      pcount == |parts| && Holds(query, extBuffs, parts)
    }

    static ghost predicate Holds(q: Bytes, ext: seq<Ext>, parts: seq<Bytes>) {
      |q| >= PREF_MAX && Sorted(ext, PREF_MAX, |q|) &&
      (if parts == [] then |q| == PREF_MAX else |q| > PREF_MAX && q[PREF_MAX] == '$') &&
      Spliced(q, ext, PREF_MAX) == EncAll(Bulks(parts))
    }

    static lemma OneMore(parts: seq<Bytes>, part: Bytes)
      ensures EncAll(Bulks(parts + [part])) == EncAll(Bulks(parts)) + Enc(Bulk(part))
    {
      BulksAppend(parts, [part]);
      EncAllAppend(Bulks(parts), Bulks([part]));
      assert EncAll(Bulks([part])[1..]) == [];
    }

    /** Print one part as a bulk string at the end of the query. The result false is the source's out_of_range
        exception. */
    method AddQueryPart(part: Bytes) returns (ok: bool)
      modifies this`query
      ensures ok <==> PartAdded(old(query), part).Built?
      ensures ok ==> query == PartAdded(old(query), part).query
    {
      var sz, oldSz := |part|, |query|;
      query := Grown(query, oldSz + PREF_MAX + sz + 2);
      var text := BulkText(part);
      BulkTextLong(part);
      if |text| > INT_MAX {
        if oldSz == 0 {
          return false;
        }
        query := query[..oldSz - 1];
        return true;
      }
      PartPrinted(old(query), query, part);
      query := Printed(query, oldSz, PREF_MAX + sz + 2, text);
      var addedSize := |text|;
      query := query[..oldSz + addedSize];
      ok := true;
    }

    static lemma PartPrinted(q: Bytes, q': Bytes, part: Bytes)
      requires |BulkText(part)| <= INT_MAX && q' == Grown(q, |q| + PREF_MAX + |part| + 2)
      ensures |BulkText(part)| <= PREF_MAX + |part| + 2
      ensures Printed(q', |q|, PREF_MAX + |part| + 2, BulkText(part))[..|q| + |BulkText(part)|] == q + AddedPart(part)
    {
      hide Dec, LenText, BulkText;
      BulkTextLong(part);
      DecDigits(|part|, 9);
      DecDigits(|part|, 10);
      assert Pow10(9) == BILLION && Pow10(10) == 10 * BILLION;
    }

    method AddText(part: Bytes)
      requires Building() && |part| < BILLION
      modifies this
      ensures Building() && parts == old(parts) + [part]
    {
      TextHeld(query, extBuffs, parts, part);
      BulkTextLong(part);
      hide Holds, AddedPart, BulkText;
      var ok := AddQueryPart(part);
      assert ok;
      pcount := pcount + 1;
      parts := parts + [part];
    }

    static lemma TextHeld(q: Bytes, ext: seq<Ext>, parts: seq<Bytes>, part: Bytes)
      requires Holds(q, ext, parts) && |part| < BILLION
      ensures Holds(q + AddedPart(part), ext, parts + [part])
    {
      SplicedAppend(q, AddedPart(part), ext, PREF_MAX);
      OneMore(parts, part);
      AddedPartExact(q, part);
      assert AddedPart(part)[0] == '$';
      hide Spliced, EncAll, Bulks, AddedPart;
    }

    /** A direct buffer leaves only its length line and line end in the query. */
    method AddDirect(data: Bytes)
      requires Building() && |data| < 10_000_000
      modifies this
      ensures Building() && parts == old(parts) + [data]
    {
      var pref := DirectLine(data);
      // The line is printed into PREF_MAX bytes on the stack, terminator included.
      DirectLineFits(data);
      assert |pref| + 1 <= PREF_MAX && pref == ['$'] + Dec(|data|) + CRLF + CRLF;
      DirectHeld(query, extBuffs, parts, data);
      hide Holds, Dec;
      query := query + pref;
      extBuffs := extBuffs + [(|query| - 2, data)];
      pcount := pcount + 1;
      parts := parts + [data];
    }

    static lemma {:induction false} DirectHeld(q: Bytes, ext: seq<Ext>, parts: seq<Bytes>, data: Bytes)
      requires Holds(q, ext, parts)
      ensures var q' := q + (['$'] + Dec(|data|) + CRLF + CRLF);
              Holds(q', ext + [(|q'| - 2, data)], parts + [data])
    {
      DirectSplice(q, ext, data);
      OneMore(parts, data);
      assert (['$'] + Dec(|data|) + CRLF + CRLF)[0] == '$';
      hide Spliced, EncAll, Bulks, Dec, Sorted;
    }

    static function DirectLine(data: Bytes): Bytes {
      ['$'] + LenText(|data|) + CRLF + CRLF
    }

    /** The printed line fits exactly while the length, cast and printed as an int, has at most seven characters;
        it fits and is right exactly below 10^7 bytes. */
    static lemma DirectLineFits(data: Bytes)
      ensures |DirectLine(data)| + 1 <= PREF_MAX <==> -1_000_000 < Wrap32(|data|) < 10_000_000
      ensures |DirectLine(data)| + 1 <= PREF_MAX && DirectLine(data) == ['$'] + Dec(|data|) + CRLF + CRLF <==>
              |data| < 10_000_000
    {
      hide Dec;
      var n, w := |data|, Wrap32(|data|);
      DecDigits(if w < 0 then -w else w, if w < 0 then 6 else 7);
      assert Pow10(6) == 1_000_000 && Pow10(7) == 10_000_000;
      LenTextExact(n);
      assert LenText(n) == (['$'] + LenText(n))[1..] && Dec(n) == (['$'] + Dec(n))[1..];
      if DirectLine(data) == ['$'] + Dec(n) + CRLF + CRLF {
        assert LenText(n) == DirectLine(data)[1..|DirectLine(data)| - 4] == Dec(n);
      }
    }

    /** The line is appended, the data spliced in before its line end. */
    static lemma DirectSplice(q: Bytes, ext: seq<Ext>, data: Bytes)
      requires |q| >= PREF_MAX && Sorted(ext, PREF_MAX, |q|)
      ensures var q' := q + (['$'] + Dec(|data|) + CRLF + CRLF);
              var ext' := ext + [(|q'| - 2, data)];
              Sorted(ext', PREF_MAX, |q'|)
              && Spliced(q', ext', PREF_MAX) == Spliced(q, ext, PREF_MAX) + Enc(Bulk(data))
    {
      hide Dec, Spliced;
      var line := ['$'] + Dec(|data|) + CRLF;
      var q' := q + (line + CRLF);
      assert q' == q + line + CRLF;
      SplicedAppend(q, line, ext, PREF_MAX);
      SplicedSnoc(q + line, data, ext, PREF_MAX);
      SplicedAppend(q + line, CRLF, ext + [(|q + line|, data)], PREF_MAX);
      var s := Spliced(q, ext, PREF_MAX);
      assert s + line + data + CRLF == s + (line + data + CRLF);
    }

    method BuildPart(p: Part)
      requires Building() && Fits(p)
      modifies this
      ensures Building() && parts == old(parts) + Payload(p)
    {
      match p
      case Text(s) => AddText(CStr(s));
      case Number(n) => AddText(IntText(n));
      case Direct(d) => AddDirect(d);
      case Many(ss) =>
        for i := 0 to |ss|
          invariant Building() && parts + CStrs(ss[i..]) == old(parts) + CStrs(ss)
        {
          assert ss[i] in ss && ss[i..][0] == ss[i] && ss[i..][1..] == ss[i + 1..];
          AddText(CStr(ss[i]));
        }
    }

    /** The recursive overloads, one argument after the other. */
    method BuildNext(ps: seq<Part>)
      requires Building() && forall p :: p in ps ==> Fits(p)
      modifies this
      ensures Building() && parts == old(parts) + Payloads(ps)
      decreases |ps|
    {
      hide Fits, Spliced, EncAll, Bulks, Payload, Sorted;
      if ps != [] {
        ghost var before := parts;
        BuildPart(ps[0]);
        assert forall p :: p in ps[1..] ==> p in ps;
        BuildNext(ps[1..]);
        assert (before + Payload(ps[0])) + Payloads(ps[1..]) == before + (Payload(ps[0]) + Payloads(ps[1..]));
      }
    }

    /** Count the digits, print the array header right-aligned into the hole, restore the byte its
        terminator destroyed, and trim the front. */
    method InsQueryPrefix() returns (trimmed: nat)
      requires |query| > PREF_MAX && query[PREF_MAX] == '$' && pcount < BILLION
      modifies this`query
      ensures query == Header(pcount) + old(query)[PREF_MAX..]
      ensures trimmed + |Header(pcount)| == PREF_MAX
    {
      hide Dec;
      var prefLen, t := 1, 10;
      while pcount / t > 0
        invariant 1 <= prefLen <= 9 && t == Pow10(prefLen)
        invariant prefLen > 1 ==> Pow10(prefLen - 1) <= pcount
        decreases BILLION - t
      {
        assert t <= pcount by {
          QuotientPositive(pcount, t);
        }
        assert prefLen < 9 by {
          assert Pow10(9) == BILLION;
        }
        t := t * 10;
        prefLen := prefLen + 1;
      }
      assert pcount < t;
      DecLength(pcount, prefLen);
      prefLen := prefLen + 3;
      var text := Header(pcount);
      var at := PREF_MAX - prefLen;
      Patched(query, text, at);
      query := query[..at] + text + [NUL] + query[PREF_MAX + 1..];
      query := query[PREF_MAX := '$'];
      query := query[at..];
      trimmed := at;
    }

    static lemma QuotientPositive(n: nat, t: nat)
      requires t > 0 && n / t > 0
      ensures t <= n
    {
    }

    static lemma Patched(q: Bytes, text: Bytes, at: nat)
      requires |q| > PREF_MAX && q[PREF_MAX] == '$' && at + |text| == PREF_MAX
      ensures (q[..at] + text + [NUL] + q[PREF_MAX + 1..])[PREF_MAX := '$'][at..] == text + q[PREF_MAX..]
    {
    }

    /** Build the whole query. Its spliced bytes are the command of all the arguments' payloads. */
    method BuildResp(ps: seq<Part>)
      requires query == [] && pcount == 0 && extBuffs == [] && parts == []
      requires (forall p :: p in ps ==> Fits(p)) && 1 <= |Payloads(ps)| < BILLION
      modifies this
      ensures Sorted(extBuffs, 0, |query|)
      ensures Spliced(query, extBuffs, 0) == Enc(Command(Payloads(ps)))
      ensures forall ss ::
                ps == Texts(ss) && (forall s :: s in ss ==> NUL !in s) ==>
                  Spliced(query, extBuffs, 0) == Enc(Command(ss))
    {
      hide EncAll, Bulks, Payloads, Dec, Fits;
      query := Grown(query, PREF_MAX);
      assert query[PREF_MAX..] == [];
      NothingYet();
      BuildNext(ps);
      ghost var q, ext := query, extBuffs;
      var trimmed := InsQueryPrefix();
      var i := 0;
      while i < |extBuffs|
        invariant i <= |extBuffs| == |ext|
        invariant forall j :: i <= j < |ext| ==> extBuffs[j] == ext[j]
        invariant forall j :: 0 <= j < i ==> extBuffs[j] == (ext[j].0 - trimmed, ext[j].1)
        invariant query == Header(pcount) + q[PREF_MAX..] && pcount == |parts| && parts == Payloads(ps)
      {
        extBuffs := extBuffs[i := (extBuffs[i].0 - trimmed, extBuffs[i].1)];
        i := i + 1;
      }
      Retargeted(q, ext, extBuffs, Header(pcount), trimmed);
      forall ss | ps == Texts(ss) && forall s :: s in ss ==> NUL !in s
        ensures Spliced(query, extBuffs, 0) == Enc(Command(ss))
      {
        TextsInOrder(ss);
      }
    }

    static lemma NothingYet()
      ensures EncAll(Bulks([])) == []
    {
    }

    /** Offsets recorded behind the hole and shifted by the trim point at the same splices. */
    static lemma {:induction false} Retargeted(q: Bytes, ext: seq<Ext>, ext': seq<Ext>, header: Bytes, trimmed: nat)
      requires |q| >= PREF_MAX && Sorted(ext, PREF_MAX, |q|) && trimmed + |header| == PREF_MAX
      requires |ext'| == |ext| && forall j :: 0 <= j < |ext| ==> ext'[j] == (ext[j].0 - trimmed, ext[j].1)
      ensures var q' := header + q[PREF_MAX..];
              Sorted(ext', 0, |q'|) && Spliced(q', ext', 0) == header + Spliced(q, ext, PREF_MAX)
    {
      hide Spliced;
      var q' := header + q[PREF_MAX..];
      assert q'[|header|..] == q[PREF_MAX..] && q'[..|header|] == header;
      SplicedMoved(q, ext, PREF_MAX, q', ext', |header|);
      SplicedFront(q', ext', |header|);
    }

    /** Scatter the query into the buffers handed to the socket. */
    method GetMultibuffer() returns (res: seq<Bytes>)
      requires Sorted(extBuffs, 0, |query|)
      ensures res == Pieces(query, extBuffs, 0)
    {
      hide Pieces;
      res := [];
      var prevPos, i := 0, 0;
      while i < |extBuffs|
        invariant 0 <= i <= |extBuffs| && prevPos == (if i == 0 then 0 else extBuffs[i - 1].0) <= |query|
        invariant Sorted(extBuffs[i..], prevPos, |query|)
        invariant res + Pieces(query, extBuffs[i..], prevPos) == Pieces(query, extBuffs, 0)
      {
        var pos := extBuffs[i];
        assert extBuffs[i..][0] == pos && extBuffs[i..][1..] == extBuffs[i + 1..];
        ghost var done := res;
        PiecesCons(query, extBuffs[i..], prevPos);
        res := res + [query[prevPos..pos.0]];
        res := res + [pos.1];
        assert res == done + [query[prevPos..pos.0], pos.1];
        assert res + Pieces(query, extBuffs[i + 1..], pos.0)
            == done + ([query[prevPos..pos.0], pos.1] + Pieces(query, extBuffs[i + 1..], pos.0));
        prevPos := pos.0;
        i := i + 1;
      }
      PiecesEnd(query, prevPos);
      assert extBuffs[i..] == [];
      res := res + [query[prevPos..]];
    }
  }

  // ---- the fast builders

  /** Resize to the limit, print, resize to the printed length (as it would have been untruncated). */
  function PrintResized(text: Bytes, limit: nat): Built
    requires limit >= 1
  {
    var q := Printed(Grown([], limit), 0, limit, text);
    if |text| > INT_MAX then TooLong
    else if |text| <= limit then Built(q[..|text|])
    else Built(Grown(q, |text|))
  }

  /** The print yields a given text if and only if that is what is printed, it fits, and an int holds its length. */
  lemma PrintResizedExact(text: Bytes, limit: nat, e: Bytes)
    requires limit >= 1 && NUL !in text && NUL !in e
    ensures PrintResized(text, limit) == Built(e) <==> text == e && |text| < limit && |text| <= INT_MAX
    ensures PrintResized(text, limit).TooLong? <==> |text| > INT_MAX
  {
    var q := Printed(Grown([], limit), 0, limit, text);
    if |text| < limit {
      assert q[..|text|] == text;
    } else if |text| <= INT_MAX {
      assert q[limit - 1] == NUL;
      assert PrintResized(text, limit).query[limit - 1] == NUL;
    }
  }

  lemma CommandEncodings(a: Bytes, b: Bytes)
    ensures Enc(Command([a])) == ['*', '1', '\r', '\n'] + Enc(Bulk(a))
    ensures Enc(Command([a, b])) == ['*', '2', '\r', '\n'] + (Enc(Bulk(a)) + Enc(Bulk(b)))
    ensures NUL !in a ==> NUL !in BulkText(a) && NUL !in Enc(Bulk(a))
  {
    assert Header(1) == ['*', '1', '\r', '\n'] && Header(2) == ['*', '2', '\r', '\n'];
    var one, two := Bulks([a]), Bulks([a, b]);
    assert one[1..] == [] && EncAll(one) == Enc(Bulk(a)) + [];
    assert two[1..] == [Bulk(b)] && two[1..][1..] == [];
    assert EncAll(two) == Enc(Bulk(a)) + (Enc(Bulk(b)) + []);
  }

  /** The texts printed for one and two parts are the commands exactly when their lengths print right. */
  lemma CommandTexts(a: Bytes, b: Bytes)
    ensures ['*', '1', '\r', '\n'] + BulkText(a) == Enc(Command([a])) <==> |a| <= INT_MAX
    ensures ['*', '2', '\r', '\n'] + BulkText(a) + BulkText(b) == Enc(Command([a, b])) <==>
            |a| <= INT_MAX && |b| <= INT_MAX
  {
    hide BulkText, Enc, Command;
    CommandEncodings(a, b);
    BulkTextExact(a);
    BulkTextExact(b);
    BulkTextSame(a, BulkText(b), Enc(Bulk(b)));
    var h1, h2 := ['*', '1', '\r', '\n'], ['*', '2', '\r', '\n'];
    SameBehind(h1, BulkText(a), Enc(Bulk(a)));
    SameBehind(h2, BulkText(a) + BulkText(b), Enc(Bulk(a)) + Enc(Bulk(b)));
    assert h2 + BulkText(a) + BulkText(b) == h2 + (BulkText(a) + BulkText(b));
  }

  lemma SameBehind(h: Bytes, x: Bytes, y: Bytes)
    ensures h + x == h + y <==> x == y
  {
    assert x == (h + x)[|h|..] && y == (h + y)[|h|..];
  }

  /** A command without arguments. Exact up to five length digits. */
  method FastBuildOne(cmd: Bytes) returns (built: Built)
    requires NUL !in cmd
    ensures built == Built(Enc(Command([cmd]))) <==> |cmd| < 100_000
    ensures built.TooLong? <==> |cmd| + 19 > INT_MAX
  {
    hide Enc, Command, Dec, LenText;
    var maxSize := PREF_MAX + |cmd| + 2;
    var text := ['*', '1', '\r', '\n'] + BulkText(cmd);
    built := PrintResized(text, maxSize);
    CommandEncodings(cmd, []);
    CommandTexts(cmd, []);
    PrintResizedExact(text, maxSize, Enc(Command([cmd])));
    BulkTextLong(cmd);
    LenTextExact(|cmd|);
    DecDigits(|cmd|, 5);
    DecDigits(|cmd|, 9);
    assert Pow10(5) == 100_000 && Pow10(9) == BILLION;
  }

  /** A command with one argument. Exact up to fifteen length digits in all, while an int holds the length of the
      printed text; beyond that the source throws. */
  method FastBuildTwo(cmd: Bytes, key: Bytes) returns (built: Built)
    requires NUL !in cmd && NUL !in key
    ensures var digits := |Dec(|cmd|)| + |Dec(|key|)|;
            (built.TooLong? <==> 14 + digits + |cmd| + |key| > INT_MAX)
            && (built == Built(Enc(Command([cmd, key]))) <==> digits <= 15 && !built.TooLong?)
  {
    hide Enc, Command, Dec, LenText;
    var maxSize := PREF_MAX * 2 + |cmd| + |key| + 4;
    var text := ['*', '2', '\r', '\n'] + BulkText(cmd) + BulkText(key);
    built := PrintResized(text, maxSize);
    CommandEncodings(cmd, key);
    CommandEncodings(key, cmd);
    CommandTexts(cmd, key);
    PrintResizedExact(text, maxSize, Enc(Command([cmd, key])));
    BulkTextLong(cmd);
    BulkTextLong(key);
  }

  /** What the three-part builder means to print: the count says two, and the last length has no dollar sign. */
  function ThreeText(cmd: Bytes, key: Bytes, val: Bytes): Bytes {
    Enc(Command([cmd, key])) + (Dec(|val|) + CRLF + val + CRLF)
  }

  /** A command with two arguments, as the source prints it. What comes out, up to 26 length digits in all and while
      an int holds its length, is the two-part command followed by stray bytes; it is never the command. */
  method FastBuildThree(cmd: Bytes, key: Bytes, val: Bytes) returns (built: Built)
    requires NUL !in cmd && NUL !in key && NUL !in val
    ensures var digits := |Dec(|cmd|)| + |Dec(|key|)| + |Dec(|val|)|;
            (built.TooLong? <==> 18 + digits + |cmd| + |key| + |val| > INT_MAX)
            && (built == Built(ThreeText(cmd, key, val)) <==> digits <= 26 && !built.TooLong?)
    ensures built != Built(Enc(Command([cmd, key, val])))
  {
    hide Enc, Command, Dec, LenText, PrintResized, Bulks, BulkText;
    var maxSize := PREF_MAX * 3 + |cmd| + |key| + |val| + 6;
    var two := ['*', '2', '\r', '\n'] + BulkText(cmd) + BulkText(key);
    var text := two + (LenText(|val|) + CRLF + val + CRLF);
    built := PrintResized(text, maxSize);
    ThreeLong(cmd, key, val);
    ThreePrinted(cmd, key, val, text);
    PrintResizedExact(text, maxSize, ThreeText(cmd, key, val));
    ThreeAnnounced(cmd, key, val);
    PrintedSecond(text, maxSize);
  }

  lemma ThreeLong(cmd: Bytes, key: Bytes, val: Bytes)
    ensures var text := ['*', '2', '\r', '\n'] + BulkText(cmd) + BulkText(key) + (LenText(|val|) + CRLF + val + CRLF);
            var total := 18 + |Dec(|cmd|)| + |Dec(|key|)| + |Dec(|val|)| + |cmd| + |key| + |val|;
            (|text| > INT_MAX <==> total > INT_MAX) && (total <= INT_MAX ==> |text| == total)
  {
    hide Dec, LenText;
    BulkTextLong(cmd);
    BulkTextLong(key);
    BulkTextLong(val);
  }

  lemma ThreePrinted(cmd: Bytes, key: Bytes, val: Bytes, text: Bytes)
    requires NUL !in cmd && NUL !in key && NUL !in val
    requires text == ['*', '2', '\r', '\n'] + BulkText(cmd) + BulkText(key) + (LenText(|val|) + CRLF + val + CRLF)
    ensures NUL !in text && NUL !in ThreeText(cmd, key, val) && |text| > 1 && text[1] == '2'
    ensures |cmd| <= INT_MAX && |key| <= INT_MAX && |val| <= INT_MAX ==> text == ThreeText(cmd, key, val)
  {
    hide Enc, Command, Dec, LenText, BulkText, Bulks;
    CommandEncodings(cmd, key);
    CommandEncodings(key, cmd);
    CommandTexts(cmd, key);
    LenTextExact(|val|);
  }

  /** Truncated or not, the second byte is printed. */
  lemma PrintedSecond(text: Bytes, limit: nat)
    requires limit > 2 && |text| > 1
    ensures PrintResized(text, limit).Built? ==>
              |PrintResized(text, limit).query| > 1 && PrintResized(text, limit).query[1] == text[1]
  {
  }

  lemma ThreeAnnounced(a: Bytes, b: Bytes, c: Bytes)
    ensures |Enc(Command([a, b, c]))| > 1 && Enc(Command([a, b, c]))[1] == '3'
  {
    assert Header(3)[1] == '3';
  }
}

/** RESP replies as trees, their wire encoding, and the values the client hands to callbacks. */
module Resp {
  import opened ByteStrings

  /** The reply grammar. Num carries a non-negative integer; Nil is the null bulk string. */
  datatype Reply =
    | Str(text: Bytes)
    | Err(text: Bytes)
    | Num(n: nat)
    | Bulk(data: Bytes)
    | Nil
    | Arr(items: seq<Reply>)

  datatype RespType = SimpleStr | ErrorStr | Integer | BulkStr | Array | Empty

  /** The fields of `resp_data`; a value, copied and overwritten by the parser. */
  datatype RespData = RespData(kind: RespType, sres: Bytes, ires: int, ares: seq<RespData>, isnull: bool)

  const BLANK := RespData(Empty, [], 0, [], false)

  /** The largest bulk length whose end can still be computed in size_t. */
  const BULK_MAX: nat := SIZE_RANGE - 5

  /** std::vector<resp_data>::max_size(): resize throws length_error above it. */
  const VECTOR_MAX: nat := 0x7FFF_FFFF_FFFF_FFFF / 80

  predicate Wf(v: Reply)
    decreases v
  {
    match v
    case Str(s) => '\r' !in s
    case Err(s) => '\r' !in s
    case Num(n) => n <= INT_MAX
    case Bulk(s) => |s| <= BULK_MAX
    case Nil => true
    case Arr(es) => |es| <= VECTOR_MAX && forall e :: e in es ==> Wf(e)
  }

  function Header(n: nat): Bytes {
    ['*'] + Dec(n) + CRLF
  }

  /** The wire form of a reply. */
  function Enc(v: Reply): (b: Bytes)
    ensures |b| >= 3
    decreases v, 0
  {
    match v
    case Str(s) => ['+'] + s + CRLF
    case Err(s) => ['-'] + s + CRLF
    case Num(n) => [':'] + Dec(n) + CRLF
    case Bulk(s) => ['$'] + Dec(|s|) + CRLF + s + CRLF
    case Nil => ['$', '-', '1'] + CRLF
    case Arr(es) => Header(|es|) + EncAll(es)
  }

  function EncAll(vs: seq<Reply>): (b: Bytes)
    ensures |b| >= 3 * |vs|
    decreases vs, 1
  {
    if vs == [] then [] else Enc(vs[0]) + EncAll(vs[1..])
  }

  /** What the parser stores for a completely read reply. An array keeps the tag Empty:
      the source never sets the array tag (src/proto.cpp:275-282). */
  function Val(v: Reply): RespData
    decreases v, 0
  {
    match v
    case Str(s) => BLANK.(kind := SimpleStr, sres := s)
    case Err(s) => BLANK.(kind := ErrorStr, sres := s)
    case Num(n) => BLANK.(kind := Integer, ires := n)
    case Bulk(s) => BLANK.(kind := BulkStr, sres := s)
    case Nil => BLANK.(kind := BulkStr, isnull := true)
    case Arr(es) => BLANK.(ares := Vals(es), isnull := es == [])
  }

  function Vals(vs: seq<Reply>): (ts: seq<RespData>)
    ensures |ts| == |vs|
    decreases vs, 1
  {
    if vs == [] then [] else [Val(vs[0])] + Vals(vs[1..])
  }

  /** The reply's last line is an empty simple string or error: the parser asks for a fourth byte. */
  predicate EndsBlank(v: Reply)
    decreases v
  {
    match v
    case Str(s) => s == []
    case Err(s) => s == []
    case Arr(es) => es != [] && EndsBlank(es[|es| - 1])
    case _ => false
  }

  /** How many bytes must have arrived before the parser can finish the reply. */
  function Need(v: Reply): nat {
    |Enc(v)| + if EndsBlank(v) then 1 else 0
  }

  predicate AllWf(vs: seq<Reply>) {
    forall v :: v in vs ==> Wf(v)
  }

  /** A scalar, or an array of scalars. */
  predicate Flat(v: Reply) {
    v.Arr? ==> forall e :: e in v.items ==> !e.Arr?
  }

  predicate AllFlat(vs: seq<Reply>) {
    forall v :: v in vs ==> Flat(v)
  }

  lemma {:induction false} EncAllAppend(us: seq<Reply>, vs: seq<Reply>)
    ensures EncAll(us + vs) == EncAll(us) + EncAll(vs)
  {
    if us == [] {
      assert us + vs == vs;
    } else {
      assert (us + vs)[1..] == us[1..] + vs;
      EncAllAppend(us[1..], vs);
    }
  }

  lemma {:induction false} ValsAppend(us: seq<Reply>, vs: seq<Reply>)
    ensures Vals(us + vs) == Vals(us) + Vals(vs)
  {
    if us == [] {
      assert us + vs == vs;
    } else {
      assert (us + vs)[1..] == us[1..] + vs;
      ValsAppend(us[1..], vs);
    }
  }

  lemma {:induction false} ValsAt(vs: seq<Reply>, i: nat)
    requires i < |vs|
    ensures Vals(vs)[i] == Val(vs[i])
  {
    if i > 0 {
      ValsAt(vs[1..], i - 1);
    }
  }

  lemma OneReply(v: Reply)
    ensures EncAll([v]) == Enc(v) && Vals([v]) == [Val(v)]
  {
    hide Enc, Val;
    assert [v][1..] == [] && Enc(v) + [] == Enc(v);
  }
}

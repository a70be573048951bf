/** The two other readers of bulk strings, and their agreement with the parser's own. */
module BulkReaders {
  import opened ByteStrings
  import opened Resp
  import opened ParserSpec
  import opened WholeReply
  import opened Stops

  /** parse_string: Done for true, More for false; data and size are its in-out parameters afterwards. */
  datatype StringResult = StringResult(st: Status, data: Bytes, size: nat)

  /** try_bulk_parse: its result and its two out-parameters. */
  datatype Span = Span(isBulk: bool, begin: nat, size: nat)

  function StringParse(data: Bytes, size: nat): StringResult
    requires data != ['$']
  {
    if data == [] then StringResult(More, [], size)
    else if data[0] != '$' then StringResult(Thrown, data, size)
    else if data[1] == '-' then StringResult(Done, [], size)
    else
      var k := 1 + FirstCR(data[1..]);
      if k == |data| then StringResult(More, data, 0)
      else
        var n := SizeValue(data[1..k]);
        if |data| < (n + k + 4) % SIZE_RANGE then StringResult(More, data, n)
        else if n + k + 4 >= SIZE_RANGE then StringResult(Thrown, data, n)
        else StringResult(Done, data[k + 2..k + 2 + n], n)
  }

  function BulkSpan(w: Bytes, s: char): Span
    requires w != []
  {
    if w[0] != '$' then Span(false, 0, 0)
    else if |w| < 5 then Span(true, 0, 0)
    else if w[1] == '-' then Span(true, 3, 0)
    else
      var k := FirstCR(w[1..]);
      if k == |w| - 1 && s != '\r' then Span(true, 0, 0)
      else
        var n := SizeValue(w[1..1 + k]);
        if |w| - 1 - k == (n + 4) % SIZE_RANGE then Span(true, (|w| - 1 + SIZE_RANGE - n - 1) % SIZE_RANGE, n)
        else Span(true, 0, 0)
  }

  lemma {:induction false} SizeValueSnoc(b: Bytes, from: nat, i: nat)
    requires from <= i < |b|
    ensures SizeValue(b[from..i + 1]) == (SizeValue(b[from..i]) * 10 + DigitValue(b[i])) % SIZE_RANGE
  {
    assert b[from..i + 1][..i - from] == b[from..i];
  }

  /** A dollar sign alone would be read past its end by the source. A length too large for the string's resize is
      the source's length_error. */
  method ParseString(data: Bytes, size: nat) returns (r: StringResult)
    requires data != ['$'] && |data| < SIZE_RANGE
    ensures r == StringParse(data, size)
  {
    hide StringParse, FirstCR, SizeValue;
    StringByKind(data, size);
    if data == [] {
      return StringResult(More, [], size);
    }
    if data[0] != '$' {
      return StringResult(Thrown, data, size);
    }
    if data[1] == '-' {
      return StringResult(Done, [], size);
    }
    ghost var u := data[1..];
    var bulkSize, i := 0, 1;
    NoDigits(data, 1);
    while data[i] != '\r'
      invariant 1 <= i < |data|
      invariant forall j :: 0 <= j < i - 1 ==> u[j] != '\r'
      invariant bulkSize == SizeValue(data[1..i])
      decreases |data| - i
    {
      assert u[i - 1] == data[i];
      if i == |data| - 1 {
        FirstCRAt(u, i);
        StringByLength(data, size, i + 1, SizeValue(data[1..i + 1]));
        return StringResult(More, data, 0);
      }
      SizeValueSnoc(data, 1, i);
      bulkSize := (bulkSize * 10 + DigitValue(data[i])) % SIZE_RANGE;
      i := i + 1;
    }
    assert u[i - 1] == data[i];
    FirstCRAt(u, i - 1);
    StringByLength(data, size, i, bulkSize);
    if |data| < (bulkSize + i + 4) % SIZE_RANGE {
      return StringResult(More, data, bulkSize);
    }
    if bulkSize + i + 4 >= SIZE_RANGE {
      return StringResult(Thrown, data, bulkSize);
    }
    assert (bulkSize + i + 4) % SIZE_RANGE == bulkSize + i + 4;
    var rest := data[i + 2..];
    rest := rest[..bulkSize];
    assert rest == data[i + 2..i + 2 + bulkSize];
    r := StringResult(Done, rest, bulkSize);
  }

  lemma StringByKind(data: Bytes, size: nat)
    requires data != ['$']
    ensures data == [] ==> StringParse(data, size) == StringResult(More, [], size)
    ensures data != [] && data[0] != '$' ==> StringParse(data, size) == StringResult(Thrown, data, size)
    ensures data != [] && data[0] == '$' && data[1] == '-' ==> StringParse(data, size) == StringResult(Done, [], size)
  {
  }

  lemma NoDigits(b: Bytes, from: nat)
    requires from <= |b|
    ensures SizeValue(b[from..from]) == 0
  {
  }

  /** The rest of StringParse, with the length's end k and its value n known. */
  lemma StringByLength(data: Bytes, size: nat, k: nat, n: nat)
    requires |data| >= 2 && data[0] == '$' && data[1] != '-'
    requires k == 1 + FirstCR(data[1..]) && n == SizeValue(data[1..k])
    ensures StringParse(data, size) ==
            if k == |data| then StringResult(More, data, 0)
            else if |data| < (n + k + 4) % SIZE_RANGE then StringResult(More, data, n)
            else if n + k + 4 >= SIZE_RANGE then StringResult(Thrown, data, n)
            else StringResult(Done, data[k + 2..k + 2 + n], n)
  {
    hide FirstCR, SizeValue;
  }

  /** w is the buffer's block up to the given size, s the byte behind it. */
  method TryBulkParse(w: Bytes, s: char) returns (r: Span)
    requires 0 < |w| < SIZE_RANGE
    ensures r == BulkSpan(w, s)
  {
    if w[0] != '$' {
      return Span(false, 0, 0);
    }
    var sz := |w| - 1;
    if sz < 4 {
      return Span(true, 0, 0);
    }
    if w[1] == '-' {
      return Span(true, 3, 0);
    }
    ghost var u := w[1..];
    var bulkSize, i := 0, 0;
    while (if i < sz then w[1 + i] else s) != '\r'
      invariant i <= sz
      invariant forall j :: 0 <= j < i ==> u[j] != '\r'
      invariant bulkSize == SizeValue(w[1..1 + i])
      decreases sz - i
    {
      if sz - i == 0 {
        FirstCRAt(u, i);
        return Span(true, 0, 0);
      }
      assert u[i] == w[1 + i];
      SizeValueSnoc(w, 1, 1 + i);
      bulkSize := (bulkSize * 10 + DigitValue(w[1 + i])) % SIZE_RANGE;
      i := i + 1;
    }
    assert i < sz ==> u[i] == w[1 + i];
    FirstCRAt(u, i);
    if sz - i == (bulkSize + 4) % SIZE_RANGE {
      return Span(true, (sz + SIZE_RANGE - bulkSize - 1) % SIZE_RANGE, bulkSize);
    }
    r := Span(true, 0, 0);
  }

  /** The part of a bulk string's bytes behind its type byte. */
  lemma BulkBody(data: Bytes, q: nat)
    requires 1 <= q <= |Enc(Bulk(data))|
    ensures var whole := Enc(Bulk(data));
            whole[..q][0] == '$' && whole[..q][1..] == (Dec(|data|) + (CRLF + data + CRLF))[..q - 1]
            && |whole| == |Dec(|data|)| + |data| + 5
  {
    hide Dec;
    assert Enc(Bulk(data)) == ['$'] + (Dec(|data|) + (CRLF + data + CRLF));
  }

  lemma {:induction false} LengthOf(data: Bytes, u: Bytes)
    requires |data| <= BULK_MAX && u != [] && u <= Dec(|data|) + (CRLF + data + CRLF)
    ensures var d, k := |Dec(|data|)|, FirstCR(u);
            u[0] != '-' && (if |u| <= d then k == |u| else k == d)
            && SizeValue(u[..k]) <= |data| && (k == d ==> SizeValue(u[..k]) == |data|)
            && (|data| >= 1 ==> SizeValue(u[..k]) >= 1)
  {
    hide FirstCR, SizeValue;
    var digits, after := Dec(|data|), CRLF + data + CRLF;
    var k := LengthStop(|data|, after, u);
    assert u[0] == (digits + after)[0] == digits[0];
    if k == |digits| {
      assert u[..k] == digits;
      SizeValueOfDec(|data|);
    }
  }

  /** Where the parts of a bulk string lie. */
  lemma Layout(data: Bytes, q: nat)
    requires |Enc(Bulk(data))| < SIZE_RANGE && 2 <= q <= |Enc(Bulk(data))|
    ensures var w := Enc(Bulk(data))[..q];
            var d := |Dec(|data|)|;
            var k := FirstCR(w[1..]);
            w[0] == '$' && w[1] != '-'
            && (if q <= d + 1 then k == q - 1 else k == d)
            && SizeValue(w[1..1 + k]) <= |data| && (k == d ==> SizeValue(w[1..1 + k]) == |data|)
            && (|data| >= 1 ==> SizeValue(w[1..1 + k]) >= 1)
            && |Enc(Bulk(data))| == d + |data| + 5
  {
    hide Enc, Dec, FirstCR, SizeValue;
    BulkBody(data, q);
    var w := Enc(Bulk(data))[..q];
    var u := w[1..];
    LengthOf(data, u);
    assert u[0] == w[1] && w[1..1 + FirstCR(u)] == u[..FirstCR(u)];
  }

  lemma PayloadAt(data: Bytes)
    ensures var w, d := Enc(Bulk(data)), |Dec(|data|)|; |w| == d + |data| + 5 && w[d + 3..d + 3 + |data|] == data
  {
  }

  /** The outcome of the two readers, once the length's end k and its value n are known. */
  lemma {:induction false} ByLength(w: Bytes, s: char, size: nat, k: nat, n: nat)
    requires 2 <= |w| < SIZE_RANGE && w[0] == '$' && w[1] != '-'
    requires k == FirstCR(w[1..]) && n == SizeValue(w[1..1 + k]) && n + k + 5 < SIZE_RANGE
    ensures StringParse(w, size) ==
            if k == |w| - 1 then StringResult(More, w, 0)
            else if |w| < n + k + 5 then StringResult(More, w, n)
            else StringResult(Done, w[k + 3..k + 3 + n], n)
    ensures BulkSpan(w, s) == if |w| >= 5 && |w| == n + k + 5 then Span(true, k + 3, n) else Span(true, 0, 0)
  {
    hide FirstCR, SizeValue;
    assert w[1..1 + k] == w[1..k + 1];
  }

  /** On a complete bulk string all three readers find the same payload. */
  lemma {:induction false} ReadersAgree(data: Bytes, s: char, size: nat)
    requires |Enc(Bulk(data))| < SIZE_RANGE
    ensures var w := Enc(Bulk(data));
            var span := BulkSpan(w, s);
            StringParse(w, size) == StringResult(Done, data, |data|)
            && span.isBulk && span.begin + span.size <= |w| && w[span.begin..span.begin + span.size] == data
            && ReadScalar(w, s, BLANK) == Outcome(Done, BLANK.(sres := data, kind := BulkStr), |w|, false)
  {
    hide Enc, Dec, FirstCR, SizeValue, ReadScalar, StringParse, BulkSpan;
    var w, d := Enc(Bulk(data)), |Dec(|data|)|;
    assert w[..|w|] == w && w + [] == w;
    Layout(data, |w|);
    PayloadAt(data);
    ByLength(w, s, size, d, |data|);
    ReadBulk(Bulk(data), [], s, BLANK);
  }

  /** On a proper prefix of two bytes or more none of them finds one. */
  lemma ReadersWait(data: Bytes, q: nat, s: char, size: nat)
    requires |Enc(Bulk(data))| < SIZE_RANGE && 2 <= q < |Enc(Bulk(data))|
    ensures var w := Enc(Bulk(data))[..q];
            StringParse(w, size).st == More && BulkSpan(w, s) == Span(true, 0, 0)
            && ReadScalar(w, s, BLANK).st == More
  {
    hide Enc, Dec, FirstCR, SizeValue, ReadScalar, StringParse, BulkSpan;
    var w := Enc(Bulk(data))[..q];
    Layout(data, q);
    var k := FirstCR(w[1..]);
    ByLength(w, s, size, k, SizeValue(w[1..1 + k]));
    ScalarMore(Bulk(data), w, s, BLANK);
  }

  /** The null string as it comes over the wire. */
  const NULL_BULK: Bytes := ['$', '-', '1', '\r', '\n']

  /** Its result tells the null string from every bulk string, complete or not; the other reader takes it for done
      and empty. */
  lemma NullTold(data: Bytes, q: nat, s: char, s': char, size: nat)
    requires |Enc(Bulk(data))| < SIZE_RANGE && 1 <= q <= |Enc(Bulk(data))|
    ensures BulkSpan(NULL_BULK, s) != BulkSpan(Enc(Bulk(data))[..q], s')
    ensures BulkSpan(NULL_BULK, s).isBulk && BulkSpan(NULL_BULK, s).begin > 0 && BulkSpan(NULL_BULK, s).size == 0
    ensures StringParse(NULL_BULK, size) == StringResult(Done, [], size)
  {
    hide Enc, Dec, FirstCR, SizeValue, ReadScalar;
    var w := Enc(Bulk(data));
    if q < 5 {
      BulkBody(data, q);
    } else if q < |w| {
      ReadersWait(data, q, s', size);
    } else {
      var d := |Dec(|data|)|;
      assert w[..q] == w;
      Layout(data, |w|);
      ByLength(w, s', size, d, |data|);
    }
  }
}

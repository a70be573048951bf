/** Integer replies: for which numbers the parser's int accumulation is defined, and for which it is right. */
module Integers {
  import opened ByteStrings
  import opened Resp
  import opened ParserSpec
  import opened WholeReply

  lemma {:induction false} IntValueAppend(a: Bytes, b: Bytes)
    ensures IntValue(a + b) == IntValue(a) * Pow10(|b|) + IntValue(b)
    decreases |b|
  {
    if b == [] {
      assert a + b == a;
    } else {
      var n := |b| - 1;
      assert (a + b)[..|a + b| - 1] == a + b[..n];
      IntValueAppend(a, b[..n]);
      var x, p, y := IntValue(a), Pow10(n), IntValue(b[..n]);
      assert (x * p + y) * 10 == x * (10 * p) + y * 10;
    }
  }

  lemma MinusSign()
    ensures IntValue(['-']) == -3 && NoOverflow(['-'])
  {
    assert ['-'][..0] == [];
  }

  /** The minus sign counts as the digit -3. */
  lemma IntTextValue(z: int)
    ensures IntValue(IntText(z)) == if z < 0 then -z - 3 * Pow10(|Dec(-z)|) else z
  {
    hide IntValue, Pow10, Dec;
    if z < 0 {
      IntValueOfDec(-z);
      IntValueAppend(['-'], Dec(-z));
      MinusSign();
    } else {
      IntValueOfDec(z);
    }
  }

  lemma TextPrefix(n: int)
    requires n >= 10
    ensures IntText(-n)[..|IntText(-n)| - 1] == IntText(-(n / 10))
  {
    assert Dec(n) == Dec(n / 10) + [DigitChar(n % 10)];
  }

  /** The powers of ten behind numbers of up to nine digits. */
  lemma LongNumbers(n: nat)
    ensures |Dec(n)| <= 7 ==> Pow10(|Dec(n)|) <= 10_000_000
    ensures 10_000_000 <= n < 100_000_000 ==> Pow10(|Dec(n)|) == 100_000_000
    ensures 100_000_000 <= n < 1_000_000_000 ==> Pow10(|Dec(n)|) == 1_000_000_000
    ensures n < 10_000_000 ==> Pow10(|Dec(n)|) <= 10_000_000
  {
    Powers();
    DecDigits(n, 7);
    if |Dec(n)| <= 7 {
      Pow10Grows(|Dec(n)|, 7);
    }
    if 10_000_000 <= n < 100_000_000 {
      DecLength(n, 8);
    } else if 100_000_000 <= n < 1_000_000_000 {
      DecLength(n, 9);
    }
  }

  lemma Powers()
    ensures Pow10(7) == 10_000_000 && Pow10(8) == 100_000_000 && Pow10(9) == 1_000_000_000
  {
  }

  lemma {:induction false} Pow10Grows(j: nat, k: nat)
    requires j <= k
    ensures Pow10(j) <= Pow10(k)
    decreases k
  {
    if j < k {
      Pow10Grows(j, k - 1);
    }
  }

  /** A negative number is read without overflow when it has at most eight digits, or nine and is large. */
  lemma {:induction false} NegativeNoOverflow(n: int)
    requires n > 0
    ensures NoOverflow(IntText(-n)) <==> n < 100_000_000 || 852_516_360 <= n < 1_000_000_000
  {
    hide IntValue, Pow10, Dec;
    var t := IntText(-n);
    IntTextValue(-n);
    if n < 10 {
      OneDigit(n);
    } else {
      TextPrefix(n);
      IntTextValue(-(n / 10));
      NegativeNoOverflow(n / 10);
      LongNumbers(n);
      LongNumbers(n / 10);
      assert NoOverflow(t) ==
             (NoOverflow(IntText(-(n / 10))) && InInt(IntValue(IntText(-(n / 10))) * 10) && InInt(IntValue(t)));
    }
  }

  lemma OneDigit(n: int)
    requires 0 < n < 10
    ensures NoOverflow(IntText(-n))
  {
    var t := IntText(-n);
    assert t == ['-', DigitChar(n)] && t[..1] == ['-'];
    MinusSign();
  }

  /** The accumulation is defined for exactly these numbers. */
  lemma DefinedExactly(z: int)
    ensures NoOverflow(IntText(z)) <==>
            z <= INT_MAX && (z >= 0 || -z < 100_000_000 || 852_516_360 <= -z < 1_000_000_000)
  {
    if z < 0 {
      NegativeNoOverflow(-z);
    } else {
      DecNoOverflow(z);
    }
  }

  lemma {:induction false} WrapStep(x: int, d: int)
    ensures Wrap32(Wrap32(x) * 10 + d) == Wrap32(x * 10 + d)
  {
    var q := (x + INT_MAX + 1) / INT_RANGE;
    assert x == Wrap32(x) + q * INT_RANGE;
    WrapMultiple(Wrap32(x) * 10 + d, q * 10);
  }

  lemma WrapMultiple(x: int, q: int)
    ensures Wrap32(x + q * INT_RANGE) == Wrap32(x)
  {
    var y := x + INT_MAX + 1;
    var k := y / INT_RANGE;
    assert y + q * INT_RANGE == (k + q) * INT_RANGE + y % INT_RANGE;
  }

  /** Wrapping at each step comes to wrapping once. */
  lemma {:induction false} Int32IsWrapped(b: Bytes)
    ensures Int32Value(b) == Wrap32(IntValue(b))
  {
    if b != [] {
      Int32IsWrapped(b[..|b| - 1]);
      WrapStep(IntValue(b[..|b| - 1]), DigitValue(b[|b| - 1]));
    }
  }

  lemma Reading(z: int, tail: Bytes, s: char)
    ensures ReadScalar([':'] + IntText(z) + CRLF + tail, s, BLANK)
         == Outcome(Done, BLANK.(ires := Int32Value(IntText(z)), kind := Integer), |IntText(z)| + 3, false)
  {
    hide Int32Value, Dec;
    var w := [':'] + IntText(z) + CRLF + tail;
    assert w[1..] == IntText(z) + CRLF + tail;
    LineBody(IntText(z), tail);
  }

  /** A complete integer reply is read without overflow and to its number if and only if it is not negative
      and fits an int. */
  lemma IntegerRightIffInRange(z: int, tail: Bytes, s: char)
    ensures var r := ReadScalar([':'] + IntText(z) + CRLF + tail, s, BLANK);
            r.st == Done && r.used == |IntText(z)| + 3
            && (NoOverflow(IntText(z)) && r.t.ires == z <==> 0 <= z <= INT_MAX)
  {
    hide Int32Value, IntValue, Pow10, Dec, ReadScalar;
    Reading(z, tail, s);
    DefinedExactly(z);
    if NoOverflow(IntText(z)) {
      Int32ValueExact(IntText(z));
      IntTextValue(z);
      if z < 0 {
        DecDigits(-z, |Dec(-z)|);
      }
    }
  }

  /** Where overflow wraps around, some negative numbers come out right by accident: exactly those whose double
      exceeds three times the power of ten behind them by a multiple of 2^32. */
  lemma IntegerRightWithWrapAround(z: int, tail: Bytes, s: char)
    ensures ReadScalar([':'] + IntText(z) + CRLF + tail, s, BLANK).t.ires == z <==>
            0 <= z <= INT_MAX ||
            (-INT_MAX - 1 <= z < 0 && (-2 * z - 3 * Pow10(|Dec(-z)|)) % INT_RANGE == 0)
  {
    hide Int32Value, IntValue, Pow10, Dec, ReadScalar;
    Reading(z, tail, s);
    Int32IsWrapped(IntText(z));
    IntTextValue(z);
    if InInt(z) && z < 0 {
      WrapsTo(-z - 3 * Pow10(|Dec(-z)|), z);
    }
  }

  lemma WrapsTo(x: int, z: int)
    requires InInt(z)
    ensures Wrap32(x) == z <==> (x - z) % INT_RANGE == 0
  {
    var q := (x + INT_MAX + 1) / INT_RANGE;
    assert x == Wrap32(x) + q * INT_RANGE;
    MultipleDivides(q);
    if (x - z) % INT_RANGE == 0 {
      WrapMultiple(z, (x - z) / INT_RANGE);
    }
  }

  lemma MultipleDivides(q: int)
    ensures (q * INT_RANGE) % INT_RANGE == 0
  {
  }

  /** Such a number. */
  lemma NegativeRightByAccident(tail: Bytes, s: char)
    ensures ReadScalar([':'] + IntText(-2115098112) + CRLF + tail, s, BLANK).t.ires == -2115098112
  {
    hide Dec;
    IntegerRightWithWrapAround(-2115098112, tail, s);
    DecLength(2115098112, 10);
    Powers();
  }
}

/** Byte strings and the decimal numbers of the RESP protocol. */
module ByteStrings {

  type Bytes = seq<char>

  const CRLF: Bytes := ['\r', '\n']

  /** The range of size_t: unsigned arithmetic wraps here. */
  const SIZE_RANGE: nat := 0x1_0000_0000_0000_0000

  /** The range of int. */
  const INT_MAX: int := 0x7FFF_FFFF
  const INT_RANGE: int := 0x1_0000_0000

  predicate InInt(x: int) {
    -INT_MAX - 1 <= x <= INT_MAX
  }

  /** x brought into the range of int by wrapping around. */
  function Wrap32(x: int): (r: int)
    ensures InInt(r)
    ensures InInt(x) ==> r == x
  {
    (x + INT_MAX + 1) % INT_RANGE - INT_MAX - 1
  }

  function DigitChar(d: nat): char
    requires d < 10
  {
    (d + '0' as int) as char
  }

  /** The value the source computes for a byte as `c - '0'`; negative for bytes below '0'. */
  function DigitValue(c: char): int {
    c as int - '0' as int
  }

  predicate IsDigit(c: char) {
    '0' <= c <= '9'
  }

  /** Canonical decimal text of n. */
  function Dec(n: nat): (r: Bytes)
    ensures |r| >= 1
    ensures forall i :: 0 <= i < |r| ==> IsDigit(r[i])
    ensures n >= 1 ==> r[0] != '0'
  {
    if n < 10 then [DigitChar(n)] else Dec(n / 10) + [DigitChar(n % 10)]
  }

  /** Decimal text of any integer. */
  function IntText(n: int): Bytes {
    if n < 0 then ['-'] + Dec(-n) else Dec(n)
  }

  /** Left-to-right decimal accumulation in unbounded integers. */
  function IntValue(b: Bytes): int {
    if b == [] then 0 else IntValue(b[..|b| - 1]) * 10 + DigitValue(b[|b| - 1])
  }

  /** Left-to-right decimal accumulation in int. Overflow, which C++ leaves undefined, wraps around here. */
  function Int32Value(b: Bytes): (n: int)
    ensures InInt(n)
  {
    if b == [] then 0 else Wrap32(Int32Value(b[..|b| - 1]) * 10 + DigitValue(b[|b| - 1]))
  }

  /** No step of that accumulation leaves the range of int. */
  predicate NoOverflow(b: Bytes) {
    b == [] ||
    (NoOverflow(b[..|b| - 1]) && InInt(IntValue(b[..|b| - 1]) * 10) && InInt(IntValue(b)))
  }

  /** Left-to-right decimal accumulation in size_t, wrapping around. */
  function SizeValue(b: Bytes): (n: nat)
    ensures n < SIZE_RANGE
  {
    if b == [] then 0
    else (SizeValue(b[..|b| - 1]) * 10 + DigitValue(b[|b| - 1])) % SIZE_RANGE
  }

  /** Index of the first carriage return, or the length when there is none. */
  function FirstCR(b: Bytes): (k: nat)
    ensures k <= |b|
    ensures k < |b| ==> b[k] == '\r'
    ensures forall i :: 0 <= i < k ==> b[i] != '\r'
  {
    if b == [] || b[0] == '\r' then 0 else 1 + FirstCR(b[1..])
  }

  lemma FirstCRAt(b: Bytes, k: nat)
    requires k <= |b|
    requires k < |b| ==> b[k] == '\r'
    requires forall i :: 0 <= i < k ==> b[i] != '\r'
    ensures FirstCR(b) == k
  {
    assert FirstCR(b) < |b| ==> b[FirstCR(b)] == '\r';
  }

  lemma {:induction false} IntValueOfDec(n: nat)
    ensures IntValue(Dec(n)) == n
  {
    var d := Dec(n);
    if n < 10 {
      assert d[..0] == [];
    } else {
      assert d[..|d| - 1] == Dec(n / 10);
      IntValueOfDec(n / 10);
    }
  }

  lemma {:induction false} Int32ValueExact(b: Bytes)
    requires NoOverflow(b)
    ensures Int32Value(b) == IntValue(b)
  {
    if b != [] {
      Int32ValueExact(b[..|b| - 1]);
    }
  }

  lemma {:induction false} DecNoOverflow(n: nat)
    ensures NoOverflow(Dec(n)) <==> n <= INT_MAX
  {
    hide IntValue;
    var d := Dec(n);
    IntValueOfDec(n);
    if n < 10 {
      assert d[..0] == [];
      NoDigits();
    } else {
      assert d[..|d| - 1] == Dec(n / 10);
      IntValueOfDec(n / 10);
      DecNoOverflow(n / 10);
    }
  }

  lemma NoDigits()
    ensures NoOverflow([]) && IntValue([]) == 0
  {
  }

  lemma {:induction false} SizeValueOfDec(n: nat)
    requires n < SIZE_RANGE
    ensures SizeValue(Dec(n)) == n
  {
    var d := Dec(n);
    if n < 10 {
      assert d[..0] == [];
    } else {
      assert d[..|d| - 1] == Dec(n / 10);
      SizeValueOfDec(n / 10);
    }
  }

  /** A non-empty prefix of a positive number's text denotes a smaller positive number. */
  lemma {:induction false} SizeValueOfDecPrefix(n: nat, k: nat)
    requires 1 <= n < SIZE_RANGE
    requires 1 <= k <= |Dec(n)|
    ensures 1 <= SizeValue(Dec(n)[..k]) <= n
  {
    var d := Dec(n);
    if k == |d| {
      assert d[..k] == d;
      SizeValueOfDec(n);
    } else {
      assert d[..|d| - 1] == Dec(n / 10);
      assert d[..k] == Dec(n / 10)[..k];
      SizeValueOfDecPrefix(n / 10, k);
    }
  }

  function Pow10(k: nat): (p: nat)
    ensures p >= 1
  {
    if k == 0 then 1 else 10 * Pow10(k - 1)
  }

  /** Dec(n) has k digits exactly when 10^(k-1) <= n < 10^k (one digit for zero). */
  lemma {:induction false} DecLength(n: nat, k: nat)
    requires k >= 1
    requires n < Pow10(k)
    requires k > 1 ==> Pow10(k - 1) <= n
    ensures |Dec(n)| == k
  {
    if k > 1 {
      assert Pow10(k) == 10 * Pow10(k - 1);
      if k > 2 {
        assert Pow10(k - 1) == 10 * Pow10(k - 2);
      }
      DecLength(n / 10, k - 1);
    }
  }

  /** Bounding the digits bounds the number, and the reverse. */
  lemma {:induction false} DecDigits(n: nat, k: nat)
    requires k >= 1
    ensures |Dec(n)| <= k <==> n < Pow10(k)
  {
    if k == 1 {
    } else if n >= 10 {
      DecDigits(n / 10, k - 1);
    }
  }

  lemma DropConcat(a: Bytes, b: Bytes, k: nat)
    requires k <= |a|
    ensures (a + b)[k..] == a[k..] + b
  {
  }

  lemma Regroup(a: Bytes, b: Bytes, c: Bytes, d: Bytes)
    ensures (a + b) + c + d == a + (b + c + d)
  {
  }

  /** Two ways to split the same string. */
  lemma CutConcat(x: Bytes, y: Bytes, a: Bytes, b: Bytes)
    requires x + y == a + b
    ensures if |a| <= |x| then x[|a|..] + y == b else y == a[|x|..] + b
  {
    if |a| <= |x| {
      DropConcat(x, y, |a|);
      assert (a + b)[|a|..] == b;
    } else {
      DropConcat(a, b, |x|);
      assert (x + y)[|x|..] == y;
    }
  }

  lemma PrefixOfConcat(a: Bytes, b: Bytes, c: Bytes)
    requires a + b == c
    ensures a <= c && |a| <= |c| && c[..|a|] == a && c[|a|..] == b
  {
  }

  /** All the pieces one after another. */
  function Concat(bs: seq<Bytes>): Bytes {
    if bs == [] then [] else bs[0] + Concat(bs[1..])
  }

  lemma {:induction false} ConcatAppend(xs: seq<Bytes>, ys: seq<Bytes>)
    ensures Concat(xs + ys) == Concat(xs) + Concat(ys)
  {
    if xs == [] {
      assert xs + ys == ys;
    } else {
      assert (xs + ys)[1..] == xs[1..] + ys;
      ConcatAppend(xs[1..], ys);
    }
  }

  lemma ConcatOne(b: Bytes)
    ensures Concat([b]) == b
  {
    assert Concat([b][1..]) == [];
  }
}

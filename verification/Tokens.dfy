/** Replies as streams of tokens, and what a tree in the parser's hands has cost: the tokens read against the
    nodes they left behind. */
module Tokens {
  import opened ByteStrings
  import opened Resp
  import opened ParserSpec

  /** A scalar or an empty array, or the header of an array with elements. */
  datatype Token = Leaf(v: Reply) | Head(n: nat)

  predicate WfToken(k: Token) {
    match k
    case Leaf(v) => Wf(v) && (v.Arr? ==> v.items == [])
    case Head(n) => 1 <= n <= VECTOR_MAX
  }

  predicate WfTokens(ks: seq<Token>) {
    forall k :: k in ks ==> WfToken(k)
  }

  function TokenBytes(k: Token): (b: Bytes)
    ensures |b| >= 3
  {
    match k
    case Leaf(v) => Enc(v)
    case Head(n) => Header(n)
  }

  function Stream(ks: seq<Token>): (b: Bytes)
    ensures |b| >= 3 * |ks|
  {
    if ks == [] then [] else TokenBytes(ks[0]) + Stream(ks[1..])
  }

  function TokensOf(v: Reply): (ks: seq<Token>)
    ensures ks != []
    decreases v, 0
  {
    if v.Arr? && v.items != [] then [Head(|v.items|)] + AllTokens(v.items) else [Leaf(v)]
  }

  function AllTokens(vs: seq<Reply>): (ks: seq<Token>)
    ensures |ks| >= |vs|
    decreases vs, 1
  {
    if vs == [] then [] else TokensOf(vs[0]) + AllTokens(vs[1..])
  }

  lemma {:induction false} StreamAppend(a: seq<Token>, b: seq<Token>)
    ensures Stream(a + b) == Stream(a) + Stream(b)
  {
    hide TokenBytes;
    if a == [] {
      assert a + b == b;
    } else {
      assert (a + b)[1..] == a[1..] + b;
      StreamAppend(a[1..], b);
    }
  }

  lemma {:induction false} AllTokensAppend(us: seq<Reply>, vs: seq<Reply>)
    ensures AllTokens(us + vs) == AllTokens(us) + AllTokens(vs)
  {
    hide TokensOf;
    if us == [] {
      assert us + vs == vs;
    } else {
      assert (us + vs)[1..] == us[1..] + vs;
      AllTokensAppend(us[1..], vs);
    }
  }

  /** The tokens of a reply are its bytes. */
  lemma {:induction false} TokensStream(v: Reply)
    requires Wf(v)
    ensures Stream(TokensOf(v)) == Enc(v) && WfTokens(TokensOf(v))
    decreases v, 0
  {
    if v.Arr? && v.items != [] {
      assert TokensOf(v)[1..] == AllTokens(v.items);
      AllTokensStream(v.items);
    } else {
      assert TokensOf(v)[1..] == [] && Enc(v) + [] == Enc(v);
    }
  }

  lemma {:induction false} AllTokensStream(vs: seq<Reply>)
    requires AllWf(vs)
    ensures Stream(AllTokens(vs)) == EncAll(vs) && WfTokens(AllTokens(vs))
    decreases vs, 1
  {
    hide Enc, TokensOf, WfToken;
    if vs != [] {
      assert vs[0] in vs;
      TokensStream(vs[0]);
      AllTokensStream(vs[1..]);
      StreamAppend(TokensOf(vs[0]), AllTokens(vs[1..]));
    }
  }

  // ---- the weight of a tree

  /** A slot nothing has been read into; an interrupted integer may have left digits there. */
  predicate Unfilled(t: RespData) {
    t.kind == Empty && t.ares == [] && !t.isnull
  }

  /** The nodes that something has been read into. */
  function Weight(t: RespData): nat
    decreases t, 0
  {
    (if Unfilled(t) then 0 else 1) + Weights(t.ares)
  }

  function Weights(ts: seq<RespData>): nat
    decreases ts, 1
  {
    if ts == [] then 0 else Weight(ts[0]) + Weights(ts[1..])
  }

  /** The same, without the slot itself if it would be read into again. */
  function Live(t: RespData): (n: nat)
    ensures n <= Weight(t)
    ensures t.kind != Empty ==> n == Weight(t)
  {
    (if t.kind == Empty then 0 else 1) + Weights(t.ares)
  }

  function Lives(ts: seq<RespData>): (n: nat)
    ensures n <= Weights(ts)
  {
    if ts == [] then 0 else Live(ts[0]) + Lives(ts[1..])
  }

  lemma {:induction false} WeightsAppend(a: seq<RespData>, b: seq<RespData>)
    ensures Weights(a + b) == Weights(a) + Weights(b) && Lives(a + b) == Lives(a) + Lives(b)
  {
    hide Weight, Live;
    if a == [] {
      assert a + b == b;
    } else {
      assert (a + b)[1..] == a[1..] + b;
      WeightsAppend(a[1..], b);
    }
  }

  lemma {:induction false} BlankWeights(ts: seq<RespData>)
    requires forall t :: t in ts ==> Unfilled(t)
    ensures Weights(ts) == 0
  {
    if ts != [] {
      assert ts[0] in ts;
      assert Weights(ts[0].ares) == 0;
      BlankWeights(ts[1..]);
    }
  }

  /** Resizing drops nodes and adds none. */
  lemma ResizeWeights(ts: seq<RespData>, n: nat)
    ensures Weights(Resize(ts, n)) <= Weights(ts)
  {
    hide Weights;
    if n <= |ts| {
      assert ts == ts[..n] + ts[n..];
      WeightsAppend(ts[..n], ts[n..]);
    } else {
      var more := seq(n - |ts|, _ => BLANK);
      WeightsAppend(ts, more);
      BlankWeights(more);
    }
  }

  /** A tree read right weighs as much as the tokens of its reply. */
  lemma {:induction false} ValWeight(v: Reply)
    ensures Weight(Val(v)) == |TokensOf(v)|
    decreases v, 0
  {
    if v.Arr? {
      ValsWeight(v.items);
    } else {
      assert Weights(Val(v).ares) == 0;
    }
  }

  lemma {:induction false} ValsWeight(vs: seq<Reply>)
    ensures Weights(Vals(vs)) == |AllTokens(vs)|
    decreases vs, 1
  {
    hide Weight, Val, TokensOf;
    if vs != [] {
      ValWeight(vs[0]);
      ValsWeight(vs[1..]);
      assert Vals(vs)[0] == Val(vs[0]) && Vals(vs)[1..] == Vals(vs[1..]);
    }
  }

  /** No node carries the array tag, which the parser never sets. */
  predicate Untagged(t: RespData)
    decreases t
  {
    t.kind != Array && forall c :: c in t.ares ==> Untagged(c)
  }

  predicate AllUntagged(ts: seq<RespData>) {
    forall t :: t in ts ==> Untagged(t)
  }

  lemma ResizeUntagged(ts: seq<RespData>, n: nat)
    requires AllUntagged(ts)
    ensures AllUntagged(Resize(ts, n))
  {
    assert Untagged(BLANK);
  }
}

/** The connection manager as a socket allocator: reuse a free cached socket, or connect a new one. */
module ConnPool {
  import opened ConnQueue

  /** holders: references given to callers; handlers: references kept by connect and timeout handlers;
      pending: sockets being connected; used: all sockets ever made. */
  datatype Pool = Pool(cache: seq<Socket>, holders: multiset<Socket>, handlers: multiset<Socket>,
                       pending: multiset<Socket>, used: set<Socket>)

  const EMPTY_POOL := Pool([], multiset{}, multiset{}, multiset{}, {})

  datatype Event =
    | Get(made: Socket)
    | Connected(s: Socket)
    | ConnectFailed(s: Socket)
    | HandlerGone(s: Socket)
    | Drop(s: Socket)
    | ClearCache

  /** The use counts a scan finds: the cache's own reference and all others. */
  function Uses(p: Pool, cache: seq<Socket>): (u: seq<nat>)
    ensures |u| == |cache| && forall i :: 0 <= i < |cache| ==> u[i] == 1 + p.holders[cache[i]] + p.handlers[cache[i]]
  {
    if cache == [] then [] else [1 + p.holders[cache[0]] + p.handlers[cache[0]]] + Uses(p, cache[1..])
  }

  function FreeAt(p: Pool): (k: nat)
    ensures k <= |p.cache|
  {
    FirstFree(Uses(p, p.cache))
  }

  predicate Enabled(p: Pool, e: Event) {
    match e
    case Get(made) => FreeAt(p) == |p.cache| ==> made !in p.used
    case Connected(s) => s in p.pending && s in p.handlers
    case ConnectFailed(s) => s in p.pending
    case HandlerGone(s) => s in p.handlers
    case Drop(s) => s in p.holders
    case ClearCache => true
  }

  /** Get takes the first free socket of the cache, or starts to connect a new one. */
  function Step(p: Pool, e: Event): Pool
    requires Enabled(p, e)
  {
    match e
    case Get(made) =>
      var k := FreeAt(p);
      if k < |p.cache| then
        p.(cache := Rotated(p.cache, k + 1), holders := p.holders + multiset{p.cache[k]})
      else
        p.(pending := p.pending + multiset{made}, handlers := p.handlers + multiset{made, made}, used := p.used + {made})
    case Connected(s) =>
      p.(cache := p.cache + [s], holders := p.holders + multiset{s}, handlers := p.handlers - multiset{s},
      pending := p.pending - multiset{s})
    case ConnectFailed(s) => p.(pending := p.pending - multiset{s})
    case HandlerGone(s) => p.(handlers := p.handlers - multiset{s})
    case Drop(s) => p.(holders := p.holders - multiset{s})
    case ClearCache => p.(cache := Busy(p.cache, Uses(p, p.cache)))
  }

  predicate Possible(p: Pool, es: seq<Event>)
    decreases |es|
  {
    es == [] || (Enabled(p, es[0]) && Possible(Step(p, es[0]), es[1..]))
  }

  function Run(p: Pool, es: seq<Event>): Pool
    requires Possible(p, es)
    decreases |es|
  {
    if es == [] then p else Run(Step(p, es[0]), es[1..])
  }

  function Cached(p: Pool, s: Socket): nat {
    multiset(p.cache)[s]
  }

  /** One holder at most; what is held is cached, once; what is being connected is not. */
  predicate Sole(p: Pool, s: Socket) {
    p.holders[s] <= Cached(p, s) && Cached(p, s) + p.pending[s] <= 1 &&
    (Cached(p, s) + p.pending[s] + p.handlers[s] > 0 ==> s in p.used)
  }

  ghost predicate Inv(p: Pool) {
    forall s: Socket :: Sole(p, s)
  }

  lemma RotatedSame(q: seq<Socket>, k: nat)
    requires k <= |q|
    ensures multiset(Rotated(q, k)) == multiset(q)
  {
    assert q == q[..k] + q[k..];
  }

  /** A scan leaves each busy socket as often as it was, and each free one not at all. */
  lemma {:induction false} BusyCount(p: Pool, cache: seq<Socket>, s: Socket)
    ensures multiset(Busy(cache, Uses(p, cache)))[s] == if p.holders[s] + p.handlers[s] > 0 then multiset(cache)[s] else 0
    decreases |cache|
  {
    if cache != [] {
      BusyCount(p, cache[1..], s);
      CountCons(cache, s);
      assert Uses(p, cache)[1..] == Uses(p, cache[1..]);
      var rest := Busy(cache[1..], Uses(p, cache[1..]));
      CountJoin(cache[0], rest, s);
    }
  }

  lemma CountCons(q: seq<Socket>, s: Socket)
    requires q != []
    ensures multiset(q)[s] == multiset(q[1..])[s] + if q[0] == s then 1 else 0
  {
    assert q == [q[0]] + q[1..];
  }

  lemma CountJoin(x: Socket, q: seq<Socket>, s: Socket)
    ensures multiset([x] + q)[s] == multiset(q)[s] + if x == s then 1 else 0
    ensures [] + q == q
  {
  }

  lemma SoleGet(p: Pool, made: Socket, s: Socket)
    requires Sole(p, s) && Sole(p, made) && Enabled(p, Get(made))
    ensures Sole(Step(p, Get(made)), s)
  {
    hide FirstFree, Rotated;
    var k := FreeAt(p);
    if k < |p.cache| {
      var x := p.cache[k];
      assert multiset(p.cache)[x] > 0;
      assert p.holders[x] == 0 by {
        assert Uses(p, p.cache)[k] == 1;
      }
      RotatedSame(p.cache, k + 1);
    }
  }

  /** No reference to the socket but the cache's own. */
  predicate Unheld(p: Pool, s: Socket) {
    p.holders[s] == 0 && p.handlers[s] == 0
  }

  /** A request is met from the cache exactly if some cached socket is free, and then with a free one; otherwise a
      new socket is made, and the cache stays as it is. */
  lemma ReusedIffFree(p: Pool, made: Socket) returns (x: Socket)
    requires Enabled(p, Get(made))
    ensures var p' := Step(p, Get(made));
            if exists s :: s in p.cache && Unheld(p, s) then
              x in p.cache && Unheld(p, x) && p'.holders == p.holders + multiset{x} && p'.pending == p.pending
              && p'.used == p.used && multiset(p'.cache) == multiset(p.cache)
            else
              x == made && made !in p.used && p'.pending == p.pending + multiset{made} && p'.cache == p.cache
              && p'.holders == p.holders
    ensures x == if FreeAt(p) < |p.cache| then p.cache[FreeAt(p)] else made
    ensures FreeAt(p) < |p.cache| <==> exists s :: s in p.cache && Unheld(p, s)
  {
    hide Rotated;
    var k, u := FreeAt(p), Uses(p, p.cache);
    if k < |p.cache| {
      x := p.cache[k];
      assert u[k] == 1 && Unheld(p, x);
      RotatedSame(p.cache, k + 1);
    } else {
      x := made;
      forall s | s in p.cache
        ensures !Unheld(p, s)
      {
        var i :| 0 <= i < |p.cache| && p.cache[i] == s;
        assert u[i] != 1;
      }
    }
  }

  lemma SoleConnected(p: Pool, x: Socket, s: Socket)
    requires Sole(p, s) && Enabled(p, Connected(x))
    ensures Sole(Step(p, Connected(x)), s)
  {
    assert multiset(p.cache + [x]) == multiset(p.cache) + multiset{x};
  }

  lemma SoleClear(p: Pool, s: Socket)
    requires Sole(p, s)
    ensures Sole(Step(p, ClearCache), s)
  {
    hide Busy, Uses;
    BusyCount(p, p.cache, s);
  }

  lemma InvStep(p: Pool, e: Event)
    requires Inv(p) && Enabled(p, e)
    ensures Inv(Step(p, e))
  {
    forall s: Socket
      ensures Sole(Step(p, e), s)
    {
      assert Sole(p, s);
      match e
      case Get(made) => SoleGet(p, made, s);
      case Connected(x) => SoleConnected(p, x, s);
      case ClearCache => SoleClear(p, s);
      case _ =>
    }
  }

  lemma {:induction false} InvRun(p: Pool, es: seq<Event>)
    requires Inv(p) && Possible(p, es)
    ensures Inv(Run(p, es))
    decreases |es|
  {
    hide Inv, Enabled, Step;
    if es != [] {
      InvStep(p, es[0]);
      InvRun(Step(p, es[0]), es[1..]);
    }
  }

  /** Over every run no two callers hold the same socket and the cache holds none twice. */
  lemma SocketsExclusive(es: seq<Event>, s: Socket)
    requires Possible(EMPTY_POOL, es)
    ensures var p := Run(EMPTY_POOL, es);
            p.holders[s] <= 1 && multiset(p.cache)[s] <= 1 && (p.holders[s] == 1 ==> s in p.cache)
  {
    hide Run, Possible;
    InvRun(EMPTY_POOL, es);
    assert Sole(Run(EMPTY_POOL, es), s);
    assert s in multiset(Run(EMPTY_POOL, es).cache) <==> s in Run(EMPTY_POOL, es).cache;
  }

  /** The manager over the real cache: each method does to the list what the system's event does. */
  class ConnManager {
    const cache: ConnQueue

    constructor ()
      ensures fresh(cache) && fresh(cache.nodes) && cache.Valid() && cache.sockets == EMPTY_POOL.cache
    {
      cache := new ConnQueue();
    }

    /** A cached socket at once, or the given new one to be connected. */
    method AsyncGet(made: Socket, uses: seq<nat>, ghost p: Pool) returns (hit: bool, soc: Socket)
      requires cache.Valid() && cache.sockets == p.cache && uses == Uses(p, p.cache) && Enabled(p, Get(made))
      modifies cache, cache.nodes
      ensures cache.Valid() && cache.sockets == Step(p, Get(made)).cache
      ensures hit <==> exists s :: s in p.cache && Unheld(p, s)
      ensures if hit then Unheld(p, soc) && soc in p.cache && Step(p, Get(made)).holders == p.holders + multiset{soc}
              else soc == made && made in Step(p, Get(made)).pending
    {
      hide Unheld, Uses, Rotated, FirstFree;
      ghost var x := ReusedIffFree(p, made);
      hit, soc := cache.GetFirstFree(uses);
      if !hit {
        soc := made;
      }
    }

    /** The new socket is connected: cached and handed over. */
    method ConnectionHandler(s: Socket, ghost p: Pool)
      requires cache.Valid() && cache.sockets == p.cache && Enabled(p, Connected(s))
      modifies cache, cache.tail
      ensures cache.Valid() && cache.sockets == Step(p, Connected(s)).cache
    {
      cache.Push(s);
    }

    method Clear(uses: seq<nat>, ghost p: Pool)
      requires cache.Valid() && cache.sockets == p.cache && uses == Uses(p, p.cache)
      modifies cache, cache.nodes
      ensures cache.Valid() && cache.sockets == Step(p, ClearCache).cache
    {
      cache.ClearFree(uses);
    }
  }
}

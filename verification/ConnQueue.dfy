/** The connection cache: scans that turn the linked list in place, one node at a time. */
module ConnQueue {

  type Socket = nat

  datatype Slot = Moved | Held(socket: Socket)

  /** Index of the first socket whose use count, as the scan finds it, is one. */
  function FirstFree(uses: seq<nat>): (k: nat)
    ensures k <= |uses|
    ensures k < |uses| ==> uses[k] == 1
    ensures forall i :: 0 <= i < k ==> uses[i] != 1
  {
    if uses == [] || uses[0] == 1 then 0 else 1 + FirstFree(uses[1..])
  }

  function Rotated(q: seq<Socket>, k: nat): seq<Socket>
    requires k <= |q|
  {
    q[k..] + q[..k]
  }

  /** The sockets found in use, in order. */
  function Busy(q: seq<Socket>, uses: seq<nat>): (r: seq<Socket>)
    requires |q| == |uses|
    ensures |r| <= |q|
  {
    if q == [] then [] else (if uses[0] == 1 then [] else [q[0]]) + Busy(q[1..], uses[1..])
  }

  lemma RotatedEnds(q: seq<Socket>)
    ensures Rotated(q, 0) == q && Rotated(q, |q|) == q
  {
  }

  lemma RotatedOnce(q: seq<Socket>, k: nat)
    requires k < |q|
    ensures var s := Rotated(q, k);
            |s| == |q| && s[0] == q[k] && s[1..] + [s[0]] == Rotated(q, k + 1) && (|q| == 1 ==> s == Rotated(q, k + 1))
  {
  }

  lemma FirstFreeIs(uses: seq<nat>, k: nat)
    requires k <= |uses| && (k < |uses| ==> uses[k] == 1) && forall i :: 0 <= i < k ==> uses[i] != 1
    ensures FirstFree(uses) == k
  {
    assert FirstFree(uses) < |uses| ==> uses[FirstFree(uses)] == 1;
  }

  lemma {:induction false} BusySnoc(q: seq<Socket>, uses: seq<nat>, k: nat)
    requires |q| == |uses| && k < |q|
    ensures Busy(q[..k + 1], uses[..k + 1]) == Busy(q[..k], uses[..k]) + if uses[k] == 1 then [] else [q[k]]
    decreases k
  {
    if k == 0 {
      assert q[..1][1..] == [] && uses[..1][1..] == [];
      assert q[..0] == [] && uses[..0] == [];
    } else {
      assert q[..k + 1][1..] == q[1..][..k] && uses[..k + 1][1..] == uses[1..][..k];
      assert q[..k][1..] == q[1..][..k - 1] && uses[..k][1..] == uses[1..][..k - 1];
      BusySnoc(q[1..], uses[1..], k - 1);
    }
  }

  /** Busy keeps exactly the busy ones: how often each socket is left, and in which order. */
  lemma {:induction false} BusyExact(q: seq<Socket>, uses: seq<nat>, x: Socket)
    requires |q| == |uses|
    ensures x in Busy(q, uses) <==> exists i :: 0 <= i < |q| && q[i] == x && uses[i] != 1
    ensures (forall i :: 0 <= i < |q| ==> uses[i] != 1) ==> Busy(q, uses) == q
    ensures (forall i :: 0 <= i < |q| ==> uses[i] == 1) ==> Busy(q, uses) == []
  {
    if q != [] {
      BusyExact(q[1..], uses[1..], x);
      assert forall i :: 0 <= i < |q| - 1 ==> q[1..][i] == q[i + 1] && uses[1..][i] == uses[i + 1];
      if uses[0] != 1 {
        assert q == [q[0]] + q[1..];
      }
      if i :| 0 <= i < |q| && q[i] == x && uses[i] != 1 && i > 0 {
        assert q[1..][i - 1] == x && uses[1..][i - 1] != 1;
      }
    }
  }

  /** The list after k looks: what is still to be looked at, then the busy ones so far. */
  function Sifted(q: seq<Socket>, uses: seq<nat>, k: nat): seq<Socket>
    requires k <= |q| == |uses|
  {
    q[k..] + Busy(q[..k], uses[..k])
  }

  lemma {:induction false} SiftedEnds(q: seq<Socket>, uses: seq<nat>)
    requires |q| == |uses|
    ensures Sifted(q, uses, 0) == q && Sifted(q, uses, |q|) == Busy(q, uses)
  {
    assert q[..|q|] == q && uses[..|q|] == uses;
  }

  lemma SiftedOnce(q: seq<Socket>, uses: seq<nat>, k: nat)
    requires k < |q| == |uses|
    ensures var s, s' := Sifted(q, uses, k), Sifted(q, uses, k + 1);
            s != [] && s[0] == q[k] &&
            if uses[k] == 1 then s[1..] == s' else s[1..] + [s[0]] == s' && (|s| == 1 ==> s == s')
  {
    BusySnoc(q, uses, k);
  }

  class Node {
    var data: Slot
    var next: Node?

    constructor ()
      ensures data == Moved && next == null
    {
      data, next := Moved, null;
    }
  }

  class ConnQueue {
    var head: Node
    var tail: Node
    var size: nat
    ghost var nodes: seq<Node>
    ghost var sockets: seq<Socket>

    /** From head to tail run distinct nodes that hold the sockets in order; the last is the dummy. */
    ghost predicate Valid()
      reads this, nodes
    {
      |nodes| == size + 1 && |sockets| == size && nodes[0] == head && nodes[size] == tail &&
      (forall i, j :: 0 <= i < j < |nodes| ==> nodes[i] != nodes[j]) &&
      (forall i :: 0 <= i < size ==> nodes[i].next == nodes[i + 1] && nodes[i].data == Held(sockets[i]))
    }

    constructor ()
      ensures Valid() && sockets == [] && fresh(nodes)
    {
      var dummy := new Node();
      head, tail, size, nodes, sockets := dummy, dummy, 0, [dummy], [];
    }

    lemma EndsListed()
      requires Valid()
      ensures head in nodes && tail in nodes
    {
      assert nodes[0] in nodes && nodes[size] in nodes;
    }

    method Push(s: Socket)
      requires Valid()
      modifies this, tail
      ensures Valid() && sockets == old(sockets) + [s]
      ensures forall n :: n in nodes ==> n in old(nodes) || fresh(n)
    {
      var p := new Node();
      tail.data := Held(s);
      tail.next := p;
      tail := p;
      size := size + 1;
      nodes, sockets := nodes + [p], sockets + [s];
    }

    /** The head node becomes the new dummy: its socket moves into the old one. */
    method HeadToTail()
      requires Valid()
      modifies this, head, tail
      ensures Valid() && size == old(size)
      ensures sockets == if size < 2 then old(sockets) else old(sockets[1..] + [sockets[0]])
      ensures forall n :: n in nodes ==> n in old(nodes)
    {
      if size < 2 {
        return;
      }
      assert nodes[0].next == nodes[1] && nodes[0] != nodes[size];
      tail.data := head.data;
      head.data := Moved;
      tail.next := head;
      tail := head;
      assert head.next == nodes[1];
      head := head.next;
      tail.next := null;
      nodes, sockets := nodes[1..] + [nodes[0]], sockets[1..] + [sockets[0]];
    }

    /** The first free socket goes to the caller and the list stands rotated just past it; with none free the
        list has come full circle. uses[i] is the use count found at the i-th look. */
    method GetFirstFree(uses: seq<nat>) returns (found: bool, result: Socket)
      requires Valid() && |uses| == size
      modifies this, nodes
      ensures Valid() && size == old(size)
      ensures found <==> FirstFree(uses) < old(size)
      ensures if found then
                result == old(sockets)[FirstFree(uses)] && sockets == Rotated(old(sockets), FirstFree(uses) + 1)
              else sockets == old(sockets)
    {
      hide Rotated, FirstFree;
      ghost var q := sockets;
      RotatedEnds(q);
      var sz := size;
      var i := 0;
      found, result := false, 0;
      while i < sz
        invariant i <= sz == size == |q| && Valid()
        invariant forall n :: n in nodes ==> n in old(nodes)
        invariant sockets == Rotated(q, i)
        invariant forall j :: 0 <= j < i ==> uses[j] != 1
      {
        RotatedOnce(q, i);
        EndsListed();
        if uses[i] == 1 {
          FirstFreeIs(uses, i);
          result := head.data.socket;
          HeadToTail();
          return true, result;
        }
        HeadToTail();
        i := i + 1;
      }
      FirstFreeIs(uses, sz);
    }

    /** The head node is deleted with its socket. */
    method DropHead()
      requires Valid() && size > 0
      modifies this
      ensures Valid() && sockets == old(sockets[1..]) && nodes == old(nodes[1..])
    {
      assert nodes[0].next == nodes[1];
      head := head.next;
      size := size - 1;
      nodes, sockets := nodes[1..], sockets[1..];
    }

    /** Free sockets are closed; the busy ones stay, in their order. */
    method ClearFree(uses: seq<nat>)
      requires Valid() && |uses| == size
      modifies this, nodes
      ensures Valid() && sockets == Busy(old(sockets), uses)
    {
      hide Sifted, Busy;
      ghost var q := sockets;
      SiftedEnds(q, uses);
      var sz := size;
      var i := 0;
      while i < sz
        invariant i <= sz == |q| == |uses| && Valid()
        invariant forall n :: n in nodes ==> n in old(nodes)
        invariant sockets == Sifted(q, uses, i)
      {
        SiftedOnce(q, uses, i);
        EndsListed();
        if uses[i] == 1 {
          DropHead();
        } else {
          HeadToTail();
        }
        i := i + 1;
      }
    }
  }
}

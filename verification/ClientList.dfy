/** The list of connected clients: heap nodes linked from first to last. */
module ClientList {

  type Message = seq<int>

  /** A connection; `received` and `closed` stand for what was sent to its socket. */
  class Client {
    const socket: int
    const addr: string
    var message: Message
    var next: Client?
    var received: seq<Message>
    var closed: bool

    constructor (sock: int, address: string)
      ensures next == null && !closed && received == [] && socket == sock && addr == address
    {
      socket, addr := sock, address;
      message, next, received, closed := [], null, [], false;
    }
  }

  // ----- removal on sequences -----

  /** `s` without the first occurrence of `x`. */
  function Without<T(==)>(s: seq<T>, x: T): (r: seq<T>) {
    if s == [] then [] else if s[0] == x then s[1..] else [s[0]] + Without(s[1..], x)
  }

  predicate Distinct<T(==)>(s: seq<T>) {
    forall i, j :: 0 <= i < j < |s| ==> s[i] != s[j]
  }

  lemma {:induction false} WithoutAt<T>(s: seq<T>, x: T, i: nat)
    requires i < |s| && s[i] == x && x !in s[..i]
    ensures Without(s, x) == s[..i] + s[i + 1..]
  {
    if i > 0 {
      assert s[0] in s[..i];
      assert s[1..][..i - 1] == s[..i][1..];
      WithoutAt(s[1..], x, i - 1);
    }
  }

  lemma OnlyAt<T>(s: seq<T>, i: nat)
    requires Distinct(s) && i < |s|
    ensures forall j :: 0 <= j < |s| && s[j] == s[i] ==> j == i
  {
  }

  lemma CutAt<T>(s: seq<T>, i: nat)
    requires Distinct(s) && i < |s|
    ensures var r := s[..i] + s[i + 1..];
            Distinct(r) && |r| == |s| - 1 && forall j :: 0 <= j < |r| ==> r[j] == s[if j < i then j else j + 1]
  {
  }

  lemma {:induction false} WithoutAbsent<T>(s: seq<T>, x: T)
    requires x !in s
    ensures Without(s, x) == s
  {
    if s != [] {
      assert s[0] in s;
      WithoutAbsent(s[1..], x);
    }
  }

  /** Only `x` goes, and everyone else keeps the place behind the same predecessors. */
  lemma {:induction false} WithoutKeepsOrder<T>(s: seq<T>, x: T)
    requires Distinct(s)
    ensures Distinct(Without(s, x)) && x !in Without(s, x)
    ensures forall y :: y in Without(s, x) <==> y in s && y != x
    ensures |Without(s, x)| == if x in s then |s| - 1 else |s|
  {
    if s != [] {
      assert forall y :: y in s <==> y == s[0] || y in s[1..];
      assert s[0] !in s[1..];
      if s[0] != x {
        WithoutKeepsOrder(s[1..], x);
        assert s[0] !in Without(s[1..], x);
      }
    }
  }

  // ----- any interleaving of additions and removals -----

  datatype Op<T> = Add(node: T) | Remove(node: T)

  /** The contents after the first `n` operations on an empty list. */
  function Contents<T(==)>(ops: seq<Op<T>>, n: nat): seq<T>
    requires n <= |ops|
  {
    if n == 0 then []
    else if ops[n - 1].Add? then Contents(ops, n - 1) + [ops[n - 1].node]
    else Without(Contents(ops, n - 1), ops[n - 1].node)
  }

  /** Nobody is added who is already there. */
  ghost predicate FreshAdds<T(!new)>(ops: seq<Op<T>>) {
    forall i :: 0 <= i < |ops| && ops[i].Add? ==> ops[i].node !in Contents(ops, i)
  }

  /** The place of the last operation on `x` before `n`, or -1. */
  function LastOp<T(==)>(ops: seq<Op<T>>, n: nat, x: T): (i: int)
    requires n <= |ops|
    ensures -1 <= i < n && (i >= 0 ==> ops[i].node == x)
    ensures forall j :: i < j < n ==> ops[j].node != x
  {
    if n == 0 then -1 else if ops[n - 1].node == x then n - 1 else LastOp(ops, n - 1, x)
  }

  /** A client is on the list exactly when the last operation on it was its addition; nobody is on it twice. */
  lemma {:induction false} ContentsExact<T(!new)>(ops: seq<Op<T>>, n: nat, x: T)
    requires n <= |ops| && FreshAdds(ops)
    ensures Distinct(Contents(ops, n))
    ensures x in Contents(ops, n) <==> LastOp(ops, n, x) >= 0 && ops[LastOp(ops, n, x)].Add?
  {
    hide FreshAdds, Distinct, Without;
    if n > 0 {
      ContentsExact(ops, n - 1, x);
      if ops[n - 1].Remove? {
        WithoutKeepsOrder(Contents(ops, n - 1), ops[n - 1].node);
      } else {
        FreshAt(ops, n - 1);
        DistinctSnoc(Contents(ops, n - 1), ops[n - 1].node);
      }
    } else {
      NoneDistinct<T>();
    }
  }

  lemma FreshAt<T(!new)>(ops: seq<Op<T>>, n: nat)
    requires n < |ops| && FreshAdds(ops) && ops[n].Add?
    ensures ops[n].node !in Contents(ops, n)
  {
  }

  lemma NoneDistinct<T>()
    ensures Distinct<T>([])
  {
  }

  lemma DistinctSnoc<T>(s: seq<T>, x: T)
    requires Distinct(s) && x !in s
    ensures Distinct(s + [x])
  {
  }

  /** The first `i` elements except `x`, in order. */
  function Others<T(==)>(s: seq<T>, x: T, i: nat): seq<T>
    requires i <= |s|
  {
    if i == 0 then [] else Others(s, x, i - 1) + if s[i - 1] == x then [] else [s[i - 1]]
  }

  lemma {:induction false} OthersAre<T>(s: seq<T>, x: T, i: nat)
    requires Distinct(s) && i <= |s|
    ensures Others(s, x, i) == Without(s[..i], x)
  {
    if i > 0 {
      OthersAre(s, x, i - 1);
      var before := s[..i - 1];
      assert s[..i] == before + [s[i - 1]];
      assert s[i - 1] !in before;
      WithoutSnoc(before, s[i - 1], x);
    }
  }

  lemma {:induction false} WithoutSnoc<T>(s: seq<T>, y: T, x: T)
    requires y !in s
    ensures Without(s + [y], x) == Without(s, x) + if y == x && x !in s then [] else [y]
  {
    if s == [] {
      assert s + [y] == [y];
    } else {
      assert (s + [y])[1..] == s[1..] + [y];
      WithoutSnoc(s[1..], y, x);
    }
  }

  // ----- the linked list -----

  ghost function NodeIn(s: seq<Client>, i: int): Client? {
    if 0 <= i < |s| then s[i] else null
  }

  /** The links that lead around node `i` are those of the list without it. */
  lemma CutLinks(s: seq<Client>, i: nat, k: nat)
    requires i < |s| && k < |s| - 1
    ensures var r, o := s[..i] + s[i + 1..], if k < i then k else k + 1;
            r[k] == s[o] && NodeIn(s, if o + 1 == i then i + 1 else o + 1) == NodeIn(r, k + 1)
  {
  }

  lemma CutEnds(s: seq<Client>, i: nat)
    requires i < |s|
    ensures var r := s[..i] + s[i + 1..];
            && NodeIn(r, 0) == NodeIn(s, if i == 0 then 1 else 0)
            && NodeIn(r, |r| - 1) == NodeIn(s, if i == |s| - 1 then i - 1 else |s| - 1)
  {
  }

  class List {
    var len: int
    var first: Client?
    var last: Client?
    ghost var nodes: seq<Client>

    ghost function NodeAt(i: int): Client?
      reads this
    {
      NodeIn(nodes, i)
    }

    /** The nodes reachable from `first` are exactly `nodes`, in this order. */
    ghost predicate Linked()
      reads this, nodes`next
    {
      && len == |nodes| && Distinct(nodes)
      && first == NodeAt(0)
      && forall i :: 0 <= i < |nodes| ==> nodes[i].next == NodeAt(i + 1)
    }

    ghost predicate Valid()
      reads this, nodes`next
    {
      Linked() && last == NodeAt(|nodes| - 1)
    }

    constructor ()
      ensures Valid() && nodes == []
    {
      len, first, last, nodes := 0, null, null, [];
    }

    method Add(n: Client)
      requires Valid() && n !in nodes && n.next == null
      modifies this, if nodes == [] then {} else {nodes[|nodes| - 1]}
      ensures Valid() && nodes == old(nodes) + [n]
    {
      if first != null {
        last.next := n;
        last := n;
      } else {
        first, last := n, n;
      }
      len := len + 1;
      nodes := nodes + [n];
    }

    /** Leads the link around node `n`; `p` is the node before it, and undefined for the first node. */
    method Bypass(n: Client, p: Client?, ghost i: nat)
      requires Valid() && i < |nodes| && n == nodes[i] && (i > 0 ==> p == NodeAt(i - 1))
      modifies `first, nodes`next
      ensures first == NodeAt(if i == 0 then 1 else 0)
      ensures forall k :: 0 <= k < |nodes| ==> nodes[k].next == NodeAt(if k + 1 == i then i + 1 else k + 1)
    {
      hide Distinct;
      OnlyAt(nodes, i);
      if i > 0 {
        OnlyAt(nodes, i - 1);
      }
      if n == first {
        first := n.next;
      } else {
        p.next := n.next;
      }
    }

    lemma IsLast(i: nat)
      requires Valid() && i < |nodes|
      ensures nodes[i] == last <==> i == |nodes| - 1
    {
      hide Distinct;
      OnlyAt(nodes, i);
    }

    /** Takes node `n` out and closes it. */
    method Unlink(n: Client, p: Client?, ghost i: nat)
      requires Valid() && i < |nodes| && n == nodes[i] && (i > 0 ==> p == NodeAt(i - 1))
      modifies this, n`closed, nodes`next
      ensures Linked() && nodes == old(nodes[..i] + nodes[i + 1..]) && n.closed
      ensures |nodes| > 1 ==> last == NodeAt(|nodes| - 1)
    {
      hide Distinct, NodeIn;
      ghost var was := nodes;
      IsLast(i);
      CutEnds(was, i);
      Bypass(n, p, i);
      if n == last {
        last := p;
      }
      n.closed := true;
      len := len - 1;
      CutAt(was, i);
      nodes := nodes[..i] + nodes[i + 1..];
      forall k | 0 <= k < |nodes|
        ensures nodes[k].next == NodeAt(k + 1)
      {
        CutLinks(was, i, k);
      }
    }

    /** Walks to `r`, remembering the node before; nothing is found when `r` is not on the list. */
    method Find(r: Client) returns (n: Client?, p: Client?, ghost i: nat)
      requires Valid() && first != null
      ensures n == null || n == r
      ensures n == null ==> r !in nodes
      ensures n != null ==> i < |nodes| && r == nodes[i] && r !in nodes[..i] && (i > 0 ==> p == NodeAt(i - 1))
    {
      n, p, i := first, *, 0;
      while n != null && n != r
        invariant i <= |nodes| && n == NodeAt(i)
        invariant i > 0 ==> p == NodeAt(i - 1)
        invariant r !in nodes[..i]
        decreases |nodes| - i
      {
        assert nodes[..i + 1] == nodes[..i] + [nodes[i]];
        p := n;
        n := n.next;
        i := i + 1;
      }
    }

    /** Removes and closes a client that is on the list; anyone else is left alone. */
    method Remove(r: Client?)
      requires Valid()
      modifies this, nodes`next, nodes`closed
      ensures Valid()
      ensures r == null ==> nodes == old(nodes)
      ensures r != null ==> nodes == Without(old(nodes), r) && (r in old(nodes) ==> r.closed)
      ensures forall c <- old(nodes) :: c != r ==> c.closed == old(c.closed)
    {
      hide Without;
      if r != null && r !in nodes {
        WithoutAbsent(nodes, r);
      }
      if first == null || r == null {
        return;
      }
      ghost var was := nodes;
      var n, p, i := Find(r);
      if n != null {
        WithoutAt(was, r, i);
        Unlink(n, p, i);
      }
      if len == 0 {
        first, last := null, null;
      } else if len == 1 {
        last := first;
      }
    }

    lemma StartOf()
      requires Valid()
      ensures first == NodeAt(0) && Distinct(nodes)
    {
    }

    lemma NextOf(i: nat)
      requires Valid() && i < |nodes|
      ensures nodes[i].next == NodeAt(i + 1)
    {
    }

    /** Sends the message of `n` to every client but `n`, once each and in order. */
    method Multicast(n: Client) returns (sent: seq<Client>)
      requires Valid()
      modifies nodes`received
      ensures Valid()
      ensures sent == Without(nodes, n)
      ensures forall c <- nodes :: c.received == old(c.received) + if c == n then [] else [n.message]
    {
      hide Distinct, Linked, Valid;
      StartOf();
      sent := [];
      var p, i := first, 0;
      while p != null
        invariant Valid() && i <= |nodes| && p == NodeAt(i)
        invariant sent == Others(nodes, n, i)
        invariant forall k :: 0 <= k < |nodes| ==>
                    nodes[k].received == old(nodes[k].received) + if k >= i || nodes[k] == n then [] else [n.message]
        decreases |nodes| - i
      {
        NextOf(i);
        OnlyAt(nodes, i);
        assert p in nodes;
        if p != n {
          p.received := p.received + [n.message];
          sent := sent + [p];
        }
        p := p.next;
        i := i + 1;
      }
      OthersAre(nodes, n, |nodes|);
      assert nodes[..|nodes|] == nodes;
    }

    /** The first client with this address and socket, if there is one. */
    method Get(addr: string, socket: int) returns (p: Client?)
      requires Valid()
      ensures p != null ==> p in nodes && p.addr == addr && p.socket == socket
      ensures p == null ==> forall c <- nodes :: !(c.addr == addr && c.socket == socket)
      ensures p != null ==> forall i :: 0 <= i < |nodes| && nodes[i].addr == addr && nodes[i].socket == socket ==>
                exists j :: 0 <= j <= i && nodes[j] == p
    {
      p := first;
      ghost var i := 0;
      while p != null
        invariant i <= |nodes| && p == NodeAt(i)
        invariant forall k :: 0 <= k < i ==> !(nodes[k].addr == addr && nodes[k].socket == socket)
        decreases |nodes| - i
      {
        if p.socket == socket && p.addr == addr {
          break;
        }
        p := p.next;
        i := i + 1;
      }
    }
  }
}

/**
 The DHT's objects: nodes, route buckets and the indexes over them, changed in
 place. Every method is proved to compute the function of the same name in
 modules DhtTable, DhtSearch and DhtState, and to keep `Valid`.
 */
module Dht {
  import opened DhtBits
  import opened Sequences
  import T = DhtTable
  import S = DhtState
  import DhtSearch
  import P = DhtPolicy

  class Node {
    var id: Id
    const addr: T.Addr
    var good: bool           // the good timer is running
    var responded: bool      // has ever responded to our query
    var inRoutes: bool       // belongs to the routing table
    var pingLost: nat
    var idChanges: nat

    constructor (id: Id, addr: T.Addr)
      ensures this.id == id && this.addr == addr
      ensures !good && !responded && !inRoutes && pingLost == 0 && idChanges == 0
    {
      this.id, this.addr := id, addr;
      good, responded, inRoutes, pingLost, idChanges := false, false, false, 0, 0;
    }

    function Info(): T.Info
      reads this`good, this`responded, this`pingLost, this`idChanges
    {
      T.Info(addr, good, responded, pingLost, idChanges)
    }

    predicate IsBad()
      reads this`good, this`responded, this`pingLost, this`idChanges
    {
      Info().IsBad()
    }
  }

  class RouteBucket {
    const prefixBits: nat
    const prefix: seq<Byte>
    var nodes: seq<Node>

    constructor (prefixBits: nat, prefix: seq<Byte>, nodes: seq<Node>)
      ensures this.prefixBits == prefixBits && this.prefix == prefix && this.nodes == nodes
    {
      this.prefixBits, this.prefix, this.nodes := prefixBits, prefix, nodes;
    }

    predicate HasPrefix() {
      prefixBits <= ID_BITS && |prefix| >= (prefixBits + 7) / 8
    }

    // The bucket shows as b when the index `all` names its nodes by the ids b lists.
    ghost predicate Shows(b: T.Bucket, all: map<Id, Node>)
      reads this
    {
      && b.bits == prefixBits && b.prefix == prefix && |b.nodes| == |nodes|
      && forall j :: 0 <= j < |nodes| ==> b.nodes[j] in all && all[b.nodes[j]] == nodes[j]
    }

    /** An id for refreshing the bucket: its prefix, random low bits in the last byte of the
        prefix, and random bytes up to the length of an id, all taken from `tail`. */
    method RandomId(tail: Id, ghost b: T.Bucket) returns (id: Id)
      requires b.bits == prefixBits && b.prefix == prefix && |prefix| == (prefixBits + 7) / 8
      ensures id == T.RefreshId(b, tail)
    {
      var bytes := prefixBits / 8;
      var bits := prefixBits % 8;
      var s := prefix;
      if bits > 0 {
        s := prefix[bytes := prefix[bytes] | (tail[bytes] & LowMask(bits))];
      }
      ghost var start := s;
      while |s| < ID_BYTES
        invariant |start| <= |s| <= ID_BYTES && s == start + tail[|start|..|s|]
      {
        s := s + [tail[|s|]];
      }
      id := s;
    }

    method RemoveNodeAt(i: nat)
      requires i < |nodes|
      modifies this`nodes, {nodes[i]}`inRoutes
      ensures nodes == RemoveAt(old(nodes), i) && !old(nodes)[i].inRoutes
    {
      nodes[i].inRoutes := false;
      nodes := nodes[..i] + nodes[i + 1..];
    }
  }

  class DHT {
    const own: Id
    var nodes: map<Id, Node>
    var nodeByAddr: map<T.Addr, Node>
    var routes: seq<RouteBucket>
    var loading: bool

    // ---------------------------------------------------------------- abstraction

    // The abstract state, kept up to date by every method and tied to the objects by Shape.
    ghost var infos: T.Infos
    ghost var addrs: map<T.Addr, Id>
    ghost var table: T.Table

    // The buckets are distinct objects that show the table, and the index by id is in order.
    ghost predicate TableShape()
      reads this`table, this`routes, this`nodes, this`infos, routes, nodes.Values
    {
      && |table| == |routes|
      && (forall i, j :: 0 <= i < j < |routes| ==> routes[i] != routes[j])
      && (forall i :: 0 <= i < |routes| ==> routes[i].Shows(table[i], nodes))
      && (forall id :: id in infos <==> id in nodes)
      && (forall id :: id in nodes ==> nodes[id].id == id && infos[id] == nodes[id].Info())
    }

    // The index by address lists nodes of the index by id.
    ghost predicate AddrShape()
      reads this`addrs, this`nodeByAddr, this`nodes
    {
      && (forall a :: a in addrs <==> a in nodeByAddr)
      && (forall a :: a in addrs ==> addrs[a] in nodes && nodes[addrs[a]] == nodeByAddr[a])
    }

    ghost predicate Shape()
      reads this, routes, nodes.Values
    {
      TableShape() && AddrShape()
    }

    ghost function View(): (s: S.State)
      reads this
    {
      S.State(own, infos, addrs, table, loading)
    }

    ghost predicate Has(n: Node)
      reads this`nodes, n`id
    {
      n.id in nodes && nodes[n.id] == n
    }

    // The flag of a node says whether it is in the routing table.
    ghost predicate Flagged()
      reads this`nodes, this`table, nodes.Values`inRoutes
    {
      forall id :: id in nodes ==> (nodes[id].inRoutes <==> T.Routed(table, id))
    }

    ghost predicate Valid()
      reads this, routes, nodes.Values
    {
      Shape() && S.Inv(View()) && Flagged()
    }

    // ---------------------------------------------------------------- searching

    method FindRoute(id: Id, start: nat, skew: nat) returns (r: int)
      requires TableShape() && start <= |routes|
      ensures r == T.FindRoute(table, id, start, skew)
    {
      var i := start;
      while i < |routes|
        invariant start <= i <= |routes|
        invariant T.FindRoute(table, id, start, skew) == T.FindRoute(table, id, i, skew)
      {
        assert routes[i].Shows(table[i], nodes);
        if PrefixMatch(routes[i].prefix, routes[i].prefixBits, id, skew) {
          return i;
        }
        i := i + 1;
      }
      return -1;
    }

    // ---------------------------------------------------------------- evicting

    ghost predicate Routing()
      reads this, routes, nodes.Values
    {
      Shape() && T.Sound(own, table) && Flagged()
    }

    method DropAt(i: nat, j: nat)
      requires Shape() && i < |routes| && j < |routes[i].nodes|
      modifies this`table, {routes[i]}`nodes, {routes[i].nodes[j]}`inRoutes
      ensures Shape()
      ensures j < |old(table[i].nodes)| && table == T.WithNodes(old(table), i, RemoveAt(old(table[i].nodes), j))
      ensures old(table[i].nodes[j]) in nodes && !nodes[old(table[i].nodes[j])].inRoutes
    {
      ghost var t := table;
      assert routes[i].Shows(t[i], nodes);
      routes[i].RemoveNodeAt(j);
      table := T.WithNodes(t, i, RemoveAt(t[i].nodes, j));
      assert routes[i].Shows(table[i], nodes);
      forall k | 0 <= k < |routes|
        ensures routes[k].Shows(table[k], nodes)
      {
        assert k != i ==> old(routes[k].Shows(t[k], nodes));
      }
    }

    method IndexOf(i: nat, n: Node) returns (j: nat)
      requires Shape() && i < |routes| && Has(n)
      ensures j == IndexWhere(table[i].nodes, T.Is(n.id))
    {
      assert routes[i].Shows(table[i], nodes) && nodes[n.id] == n;
      j := 0;
      while j < |routes[i].nodes| && routes[i].nodes[j] != n
        invariant j <= |routes[i].nodes|
        invariant forall k :: 0 <= k < j ==> routes[i].nodes[k] != n
      {
        j := j + 1;
      }
      IndexWhereUnique(table[i].nodes, T.Is(n.id), j);
    }

    // A removal by pointer: the first occurrence in the bucket, if there is one.
    method DropFrom(i: nat, n: Node)
      requires Shape() && i < |routes| && Has(n)
      modifies this`table, {routes[i]}`nodes, {n}`inRoutes
      ensures Shape()
      ensures table == T.WithNodes(old(table), i, RemoveFirst(old(table[i].nodes), T.Is(n.id)))
      ensures n.inRoutes == (old(n.inRoutes) && n.id !in old(table[i].nodes))
    {
      hide TableShape, AddrShape, IndexWhere;
      BucketSize(i);
      var j := IndexOf(i, n);
      if j < |routes[i].nodes| {
        DropAt(i, j);
      }
    }

    lemma BucketSize(i: nat)
      requires TableShape() && i < |routes|
      ensures |table| == |routes| && |table[i].nodes| == |routes[i].nodes|
      ensures forall j :: 0 <= j < |table[i].nodes| ==>
        table[i].nodes[j] in nodes && nodes[table[i].nodes[j]] == routes[i].nodes[j]
    {
      assert routes[i].Shows(table[i], nodes);
    }

    method EvictAt(i: nat, j: nat)
      requires Routing() && i < |routes| && j < |routes[i].nodes|
      modifies this`table, {routes[i]}`nodes, nodes.Values`inRoutes
      ensures Routing()
      ensures j < |old(table[i].nodes)| && table == T.WithNodes(old(table), i, RemoveAt(old(table[i].nodes), j))
    {
      ghost var t := table;
      assert routes[i].Shows(t[i], nodes);
      DropAt(i, j);
      T.EvictionKeepsSound(own, t, i, j);
      forall id | id in nodes
        ensures nodes[id].inRoutes <==> T.Routed(table, id)
      {
        T.EvictionRouted(own, t, i, j, id);
      }
    }

    // The place of the first bad node of a bucket.
    method FirstBad(i: nat) returns (j: nat)
      requires Shape() && i < |routes|
      ensures j == IndexWhere(table[i].nodes, T.BadIn(infos))
    {
      assert routes[i].Shows(table[i], nodes);
      j := 0;
      while j < |routes[i].nodes| && !routes[i].nodes[j].IsBad()
        invariant j <= |routes[i].nodes|
        invariant forall k :: 0 <= k < j ==> !T.BadIn(infos)(table[i].nodes[k])
      {
        j := j + 1;
      }
      IndexWhereUnique(table[i].nodes, T.BadIn(infos), j);
    }

    // The place of the first node that never responded.
    method FirstSilent(i: nat) returns (j: nat)
      requires Shape() && i < |routes|
      ensures j == IndexWhere(table[i].nodes, T.SilentIn(infos))
    {
      assert routes[i].Shows(table[i], nodes);
      j := 0;
      while j < |routes[i].nodes| && routes[i].nodes[j].responded
        invariant j <= |routes[i].nodes|
        invariant forall k :: 0 <= k < j ==> !T.SilentIn(infos)(table[i].nodes[k])
      {
        j := j + 1;
      }
      IndexWhereUnique(table[i].nodes, T.SilentIn(infos), j);
    }

    // The place of the first node that is not good and never responded.
    method FirstUseless(i: nat) returns (j: nat)
      requires Shape() && i < |routes|
      ensures j == IndexWhere(table[i].nodes, T.UselessIn(infos))
    {
      assert routes[i].Shows(table[i], nodes);
      j := 0;
      while j < |routes[i].nodes| && (routes[i].nodes[j].good || routes[i].nodes[j].responded)
        invariant j <= |routes[i].nodes|
        invariant forall k :: 0 <= k < j ==> !T.UselessIn(infos)(table[i].nodes[k])
      {
        j := j + 1;
      }
      IndexWhereUnique(table[i].nodes, T.UselessIn(infos), j);
    }

    // Remove a bad node to free space.
    method EvictBad(i: nat)
      requires Routing() && i < |routes|
      modifies this`table, {routes[i]}`nodes, nodes.Values`inRoutes
      ensures Routing()
      ensures table == T.WithNodes(old(table), i, T.WithoutBad(infos, old(table[i].nodes)))
    {
      assert routes[i].Shows(table[i], nodes);
      if |routes[i].nodes| >= T.K {
        var j := FirstBad(i);
        if j < |routes[i].nodes| {
          EvictAt(i, j);
        }
      }
    }

    // Prefer responded nodes.
    method EvictSilent(i: nat, n: Node)
      requires Routing() && i < |routes| && Has(n)
      modifies this`table, {routes[i]}`nodes, nodes.Values`inRoutes
      ensures Routing()
      ensures table == T.WithNodes(old(table), i, T.WithoutSilent(infos, i, old(table[i].nodes), n.id))
    {
      hide AddrShape, Flagged;
      assert routes[i].Shows(table[i], nodes);
      if i > 0 && |routes[i].nodes| >= T.K && n.responded {
        var j := FirstSilent(i);
        if j < |routes[i].nodes| {
          EvictAt(i, j);
        }
      }
    }

    // Remove a non-good node that never responded.
    method EvictUseless(i: nat)
      requires Routing() && i < |routes|
      modifies this`table, {routes[i]}`nodes, nodes.Values`inRoutes
      ensures Routing()
      ensures table == T.WithNodes(old(table), i, T.WithoutUseless(infos, i, old(table[i].nodes)))
    {
      assert routes[i].Shows(table[i], nodes);
      if i > 0 && |routes[i].nodes| >= T.K {
        var j := FirstUseless(i);
        if j < |routes[i].nodes| {
          EvictAt(i, j);
        }
      }
    }

    method MakeRoom(i: nat, n: Node)
      requires Routing() && i < |routes| && Has(n)
      modifies this`table, {routes[i]}`nodes, nodes.Values`inRoutes
      ensures Routing()
      ensures table == T.WithNodes(old(table), i, T.MakeRoom(infos, i, old(table[i].nodes), n.id))
    {
      EvictBad(i);
      EvictSilent(i, n);
      EvictUseless(i);
    }

    // ---------------------------------------------------------------- splitting

    method HasGoodNodes(i: nat) returns (yes: bool)
      requires Shape() && i < |routes|
      ensures yes <==> exists id :: id in table[i].nodes && T.Good(infos, id)
    {
      assert routes[i].Shows(table[i], nodes);
      var j := 0;
      while j < |routes[i].nodes|
        invariant j <= |routes[i].nodes|
        invariant forall k :: 0 <= k < j ==> !T.Good(infos, table[i].nodes[k])
      {
        if routes[i].nodes[j].good {
          assert T.Good(infos, table[i].nodes[j]);
          return true;
        }
        j := j + 1;
      }
      return false;
    }

    /** Counts the questionable nodes among the first K, stopping at `limit` of them. The pings
        sent to them are not modelled. */
    method PingQuestionable(i: nat, limit: int) returns (q: nat)
      requires Shape() && i < |routes|
      ensures q == T.Questionable(infos, table[i].nodes, limit)
    {
      assert routes[i].Shows(table[i], nodes);
      ghost var stable := T.Stable(table[i].nodes);
      var j := 0;
      q := 0;
      while j < |routes[i].nodes| && j < T.K && q < limit
        invariant j <= |stable|
        invariant q + T.NotGood(infos, stable[j..]) == T.NotGood(infos, stable)
        invariant limit >= 0 ==> q <= limit
        invariant limit < 0 ==> q == 0
      {
        assert stable[j..][1..] == stable[j + 1..];
        if !routes[i].nodes[j].good {
          q := q + 1;
        }
        j := j + 1;
      }
    }

    // A list of nodes shows as a list of ids under the index.
    ghost predicate ShowAs(ns: seq<Node>, ids: seq<Id>)
      reads this`nodes
    {
      |ns| == |ids| && forall k :: 0 <= k < |ids| ==> ids[k] in nodes && nodes[ids[k]] == ns[k]
    }

    // Shares out the nodes of r by the bit after r's prefix: those with it clear, and those with it set.
    method Distribute(r: RouteBucket, ghost e: T.Bucket) returns (n1: seq<Node>, n2: seq<Node>)
      requires r.Shows(e, nodes) && e.bits < ID_BITS
      requires forall id :: id in nodes ==> nodes[id].id == id
      ensures ShowAs(n1, Filter(e.nodes, T.OnSide(e.bits, false)))
      ensures ShowAs(n2, Filter(e.nodes, T.OnSide(e.bits, true)))
    {
      hide Filter;
      var j := 0;
      n1, n2 := [], [];
      while j < |r.nodes|
        invariant j <= |r.nodes|
        invariant ShowAs(n1, Filter(e.nodes[..j], T.OnSide(e.bits, false)))
        invariant ShowAs(n2, Filter(e.nodes[..j], T.OnSide(e.bits, true)))
      {
        assert nodes[e.nodes[j]] == r.nodes[j];
        FilterNext(e.nodes, j, T.OnSide(e.bits, false));
        FilterNext(e.nodes, j, T.OnSide(e.bits, true));
        if Bit(r.nodes[j].id, r.prefixBits) {
          n2 := n2 + [r.nodes[j]];
        } else {
          n1 := n1 + [r.nodes[j]];
        }
        j := j + 1;
      }
      assert e.nodes[..j] == e.nodes;
    }

    // The two halves of bucket r, with their nodes: the new bit clear in b1 and set in b2.
    method Halve(r: RouteBucket, ghost e: T.Bucket) returns (b1: RouteBucket, b2: RouteBucket)
      requires r.Shows(e, nodes) && e.bits < ID_BITS
      requires forall id :: id in nodes ==> nodes[id].id == id
      ensures fresh(b1) && fresh(b2) && b1 != b2
      ensures b1.Shows(T.Half(e, false), nodes) && b2.Shows(T.Half(e, true), nodes)
    {
      var n1, n2 := Distribute(r, e);
      var bits := r.prefixBits;
      var byte := bits / 8;
      var p1 := if |r.prefix| <= byte then r.prefix + [0] else r.prefix;
      var p2 := p1[byte := p1[byte] | BitMask(bits % 8)];
      b1 := new RouteBucket(bits + 1, p1, n1);
      b2 := new RouteBucket(bits + 1, p2, n2);
    }

    method ReplaceRoute0(h0: RouteBucket, h1: RouteBucket, ghost e0: T.Bucket, ghost e1: T.Bucket)
      requires Shape() && |routes| > 0
      requires h0 != h1 && h0 !in routes && h1 !in routes && h0.Shows(e0, nodes) && h1.Shows(e1, nodes)
      modifies this`table, this`routes
      ensures Shape() && table == [e0, e1] + old(table)[1..] && routes == [h0, h1] + old(routes)[1..]
    {
      ghost var t, rs := table, routes;
      routes := [h0, h1] + routes[1..];
      table := [e0, e1] + table[1..];
      forall k | 0 <= k < |routes|
        ensures routes[k].Shows(table[k], nodes)
      {
        if k >= 2 {
          assert routes[k] == rs[k - 1] && table[k] == t[k - 1];
          assert rs[k - 1].Shows(t[k - 1], nodes);
        }
      }
    }

    method Divide()
      requires Shape() && |routes| > 0 && table[0].bits < ID_BITS
      modifies this`table, this`routes
      ensures Shape() && table == T.Divided(own, old(table))
      ensures forall k :: 0 <= k < |routes| ==> routes[k] in old(routes) || fresh(routes[k])
    {
      ghost var e := table[0];
      assert routes[0].Shows(e, nodes);
      var b1, b2 := Halve(routes[0], e);
      if Bit(own, routes[0].prefixBits) {
        ReplaceRoute0(b2, b1, T.Half(e, true), T.Half(e, false));
      } else {
        ReplaceRoute0(b1, b2, T.Half(e, false), T.Half(e, true));
      }
    }

    method SplitRoute0() returns (split: bool)
      requires Routing() && T.Wf(own, table) && |routes| > 0
      modifies this`table, this`routes
      ensures Routing()
      ensures split == T.SplitRoute0(own, infos, old(table), loading).Some?
      ensures table == if split then T.Divided(own, old(table)) else old(table)
      ensures forall k :: 0 <= k < |routes| ==> routes[k] in old(routes) || fresh(routes[k])
    {
      hide T.Divided, T.PrefixOf, T.BucketOk, T.NotGood, AddrShape, T.Routed;
      assert routes[0].Shows(table[0], nodes);
      split := false;
      if |routes[0].nodes| < T.K || routes[0].prefixBits >= ID_BITS {
        return;
      }
      if |routes| > 1 {
        var good := HasGoodNodes(1);
        if !good && !loading {
          return;
        }
      }
      T.DividedKeepsSound(own, table);
      Divide();
      split := true;
    }

    // ---------------------------------------------------------------- adding

    // Gives bucket i a new node list.
    method SetNodes(i: nat, ns: seq<Node>, ghost ids: seq<Id>)
      requires Shape() && i < |routes| && ShowAs(ns, ids)
      modifies this`table, {routes[i]}`nodes
      ensures Shape() && table == T.WithNodes(old(table), i, ids)
    {
      ghost var t := table;
      routes[i].nodes := ns;
      table := T.WithNodes(t, i, ids);
      assert old(routes[i].Shows(t[i], nodes));
      assert routes[i].Shows(table[i], nodes);
      forall k | 0 <= k < |routes|
        ensures routes[k].Shows(table[k], nodes)
      {
        assert k != i ==> old(routes[k].Shows(t[k], nodes));
      }
    }

    // A stable node that was seen again moves to the end of the K stable ones.
    method Refresh(i: nat, j: nat)
      requires Routing() && i < |routes| && j < |routes[i].nodes|
      modifies this`table, {routes[i]}`nodes
      ensures Routing() && j < |old(table[i].nodes)|
      ensures table == T.WithNodes(old(table), i, T.Refreshed(old(table[i].nodes), j))
    {
      hide T.BucketOk, T.Routed;
      assert routes[i].Shows(table[i], nodes);
      T.RefreshKeepsSound(own, table, i, j);
      var ns := routes[i].nodes;
      T.RefreshedAt(ns, j);
      T.RefreshedAt(table[i].nodes, j);
      ghost var ids := T.Refreshed(table[i].nodes, j);
      if j < T.K {
        var rest := RemoveAt(ns, j);
        ns := if |rest| < T.K then rest + [ns[j]] else rest[..T.K - 1] + [ns[j]] + rest[T.K - 1..];
      }
      SetNodes(i, ns, ids);
    }

    method Append(i: nat, n: Node)
      requires Routing() && i < |routes| && Has(n) && i == T.Owner(own, |table|, n.id)
      requires |table[i].nodes| < 2 * T.K && n.id !in table[i].nodes
      modifies this`table, {routes[i]}`nodes, {n}`inRoutes
      ensures Routing()
      ensures table == T.WithNodes(old(table), i, old(table[i].nodes) + [n.id])
    {
      hide T.Owner, T.Routed, T.Sound, TableShape, AddrShape;
      T.NewcomerKeepsSound(own, table, i, n.id);
      NewcomerShows(i, n);
      OthersDiffer(n);
      SetRouted(n);
      SetNodes(i, routes[i].nodes + [n], table[i].nodes + [n.id]);
    }

    method SetRouted(n: Node)
      requires Shape()
      modifies {n}`inRoutes
      ensures Shape() && n.inRoutes
    {
      hide RouteBucket.Shows;
      n.inRoutes := true;
    }

    // Every other id is another node's.
    lemma OthersDiffer(n: Node)
      requires TableShape() && Has(n)
      ensures forall x :: x in nodes && x != n.id ==> nodes[x] != n
    {
    }

    lemma NewcomerShows(i: nat, n: Node)
      requires TableShape() && i < |routes| && Has(n)
      ensures i < |table| && ShowAs(routes[i].nodes + [n], table[i].nodes + [n.id])
    {
      assert routes[i].Shows(table[i], nodes);
    }

    // Takes n into bucket i after room has been made; asks to be tried again after a split.
    method Admit(i: nat, n: Node) returns (again: bool)
      requires Routing() && T.Wf(own, table) && i < |routes| && Has(n) && i == T.Owner(own, |table|, n.id)
      requires n.id !in table[i].nodes
      modifies this`table, this`routes, {routes[i]}`nodes, {n}`inRoutes
      ensures Routing()
      ensures var r := T.Admit(own, infos, old(table), i, n.id, loading);
        table == r.table && again == r.TryAgain?
      ensures forall k :: 0 <= k < |routes| ==> routes[k] in old(routes) || fresh(routes[k])
    {
      hide T.Routed, T.Divided, T.WithNodes, T.Sound, TableShape, AddrShape, Flagged;
      BucketSize(i);
      again := false;
      if loading && i == 0 && |routes[0].nodes| >= T.K {
        again := SplitRoute0();
        if again {
          return;
        }
      }
      if |routes[i].nodes| >= T.K {
        var q := PingQuestionable(i, |routes[i].nodes| - T.K + 1);
        if |routes[i].nodes| >= T.K + q {
          if i == 0 {
            again := SplitRoute0();
          }
          return;
        }
      }
      Append(i, n);
    }

    // One attempt to add n, whose bucket is i.
    method Attempt(i: nat, n: Node) returns (again: bool)
      requires Routing() && T.Wf(own, table) && i < |routes| && Has(n) && i == T.Owner(own, |table|, n.id)
      modifies this`table, this`routes, {routes[i]}`nodes, nodes.Values`inRoutes
      ensures Routing()
      ensures var r := T.AttemptIn(own, infos, old(table), i, n.id, loading);
        table == r.table && again == r.TryAgain?
      ensures forall k :: 0 <= k < |routes| ==> routes[k] in old(routes) || fresh(routes[k])
    {
      hide T.Routed, T.PrefixOf, T.Sound, IndexWhere, TableShape, AddrShape, Flagged;
      BucketSize(i);
      var j := IndexOf(i, n);
      if j < |routes[i].nodes| {
        Refresh(i, j);
        return false;
      }
      T.MakeRoomKeepsWf(own, infos, table, i, n.id);
      MakeRoom(i, n);
      again := Admit(i, n);
    }

    method AddRootIfEmpty()
      requires Routing() && T.Wf(own, table)
      modifies this`table, this`routes
      ensures Routing() && table == T.Rooted(old(table))
      ensures forall k :: 0 <= k < |routes| ==> routes[k] in old(routes) || fresh(routes[k])
    {
      T.RootedKeepsWf(own, table);
      if routes == [] {
        var b := new RouteBucket(0, [], []);
        routes := [b];
        table := T.Rooted(table);
      }
    }

    // One turn of the adding loop: find the bucket and try.
    method Turn(n: Node) returns (again: bool)
      requires Routing() && T.Wf(own, table) && table != [] && Has(n)
      modifies this`table, this`routes, routes`nodes, nodes.Values`inRoutes
      ensures Routing()
      ensures var t := old(table);
        table == T.AttemptIn(own, infos, t, T.Owner(own, |t|, n.id), n.id, loading).table &&
        again == T.AttemptIn(own, infos, t, T.Owner(own, |t|, n.id), n.id, loading).TryAgain?
      ensures forall k :: 0 <= k < |routes| ==> routes[k] in old(routes) || fresh(routes[k])
    {
      hide T.AttemptIn, T.Wf, T.Sound, T.Routed, T.Owner;
      var i := FindRoute(n.id, 0, 0);
      T.FindRouteInWf(own, table, n.id);
      assert routes[i] in routes;
      again := Attempt(i, n);
    }

    method AddRoute(n: Node)
      requires Routing() && T.Wf(own, table) && Has(n)
      modifies this`table, this`routes, routes`nodes, nodes.Values`inRoutes
      ensures Routing()
      ensures table == T.AddRoute(own, infos, old(table), n.id, loading)
    {
      hide Shape;
      hide T.Sound, T.Routed;
      hide T.Wf, T.AttemptIn, T.FindRoute, T.Owner;
      T.RootedKeepsWf(own, table);
      AddRootIfEmpty();
      while true
        invariant Routing() && T.Wf(own, table) && table != []
        invariant forall k :: 0 <= k < |routes| ==> routes[k] in old(routes) || fresh(routes[k])
        invariant T.AddRoute(own, infos, table, n.id, loading) == T.AddRoute(own, infos, old(table), n.id, loading)
        decreases T.SplitsLeft(table)
      {
        T.AddRouteTurn(own, infos, table, n.id, loading);
        var again := Turn(n);
        if !again {
          return;
        }
      }
    }

    // ---------------------------------------------------------------- the indexes

    method RemoveRoute(n: Node)
      requires Routing() && T.Wf(own, table) && Has(n)
      modifies this`table, routes`nodes, {n}`inRoutes
      ensures Routing() && table == T.RemoveRoute(old(table), n.id)
    {
      hide T.Sound, RemoveFirst, T.Wf, T.BucketOk, T.Routed, T.FindRoute, TableShape, AddrShape;
      T.RemoveRouteRemoves(own, table, n.id);
      WfIsSound(table);
      var i := FindRoute(n.id, 0, 0);
      if i == -1 {
        return;
      }
      T.RoutedWhereFound(own, table, n.id);
      OthersDiffer(n);
      ShapeSizes();
      assert routes[i] in routes;
      DropFrom(i, n);
      WfIsSound(table);
    }

    lemma WfIsSound(t: T.Table)
      ensures T.Wf(own, t) ==> T.Sound(own, t)
    {
    }

    lemma ShapeSizes()
      requires TableShape()
      ensures |table| == |routes|
    {
    }

    method ForgetAddr(a: T.Addr)
      requires AddrShape()
      modifies this`nodeByAddr, this`addrs
      ensures AddrShape() && addrs == old(addrs) - {a}
    {
      nodeByAddr := nodeByAddr - {a};
      addrs := addrs - {a};
    }

    // Takes an unrouted node out of the index by id.
    method ForgetId(id: Id)
      requires TableShape() && Flagged() && !T.Routed(table, id)
      modifies this`nodes, this`infos
      ensures TableShape() && Flagged() && infos == old(infos) - {id} && nodes == old(nodes) - {id}
    {
      hide T.Routed;
      T.UnroutedIsNowhere(table, id);
      nodes := nodes - {id};
      infos := infos - {id};
      forall k | 0 <= k < |routes|
        ensures routes[k].Shows(table[k], nodes)
      {
        assert old(routes[k].Shows(table[k], nodes));
      }
    }

    lemma ValidMeans(n: Node)
      requires Valid() && Has(n)
      ensures Routing() && T.Wf(own, table)
      ensures n.id in infos && infos[n.id].addr == n.addr
      ensures n.addr in addrs && addrs[n.addr] == n.id && forall a :: a in addrs && a != n.addr ==> addrs[a] != n.id
    {
    }

    // A node goes: out of the routing table and out of both indexes.
    method RemoveNode(n: Node)
      requires Valid() && Has(n)
      modifies this`table, this`nodes, this`nodeByAddr, this`infos, this`addrs, routes`nodes, {n}`inRoutes
      ensures Valid() && View() == S.RemoveNode(old(View()), old(n.id))
      ensures nodes == old(nodes) - {old(n.id)}
    {
      hide S.Inv, T.Wf, T.Sound, T.Routed, T.RemoveRoute, TableShape, AddrShape, Flagged;
      ghost var s, id := View(), n.id;
      ValidMeans(n);
      S.RemoveNodeForgets(s, id);
      RemoveRoute(n);
      Unindex(n);
    }

    // Takes an unrouted node out of both indexes.
    method Unindex(n: Node)
      requires Shape() && Flagged() && Has(n) && !T.Routed(table, n.id)
      requires n.addr in addrs && addrs[n.addr] == n.id && forall a :: a in addrs && a != n.addr ==> addrs[a] != n.id
      modifies this`nodes, this`nodeByAddr, this`infos, this`addrs
      ensures Shape() && Flagged()
      ensures infos == old(infos) - {n.id} && nodes == old(nodes) - {n.id} && addrs == old(addrs) - {n.addr}
    {
      hide T.Routed, TableShape, Flagged;
      var id := n.id;
      ForgetAddr(n.addr);
      ForgetId(id);
    }

    method IndexById(n: Node)
      requires TableShape() && Flagged() && n.id !in nodes && !n.inRoutes && !T.Routed(table, n.id)
      modifies this`nodes, this`infos
      ensures TableShape() && Flagged() && infos == old(infos)[n.id := n.Info()] && nodes == old(nodes)[n.id := n]
    {
      hide T.Routed;
      nodes := nodes[n.id := n];
      infos := infos[n.id := n.Info()];
      forall k | 0 <= k < |routes|
        ensures routes[k].Shows(table[k], nodes)
      {
        assert old(routes[k].Shows(table[k], nodes));
      }
    }

    method IndexByAddr(n: Node)
      requires AddrShape() && Has(n)
      modifies this`nodeByAddr, this`addrs
      ensures AddrShape() && addrs == old(addrs)[n.addr := n.id]
    {
      nodeByAddr := nodeByAddr[n.addr := n];
      addrs := addrs[n.addr := n.id];
    }

    method AddNode(n: Node)
      requires Valid() && n.id != own && n.id !in nodes && n.id !in infos && n.addr !in addrs
      requires !n.inRoutes && n.Info() == T.Info(n.addr, false, false, 0, 0)
      modifies this`table, this`nodes, this`nodeByAddr, this`infos, this`addrs, this`routes
      modifies routes`nodes, nodes.Values`inRoutes, {n}`inRoutes
      ensures Valid() && View() == S.AddNode(old(View()), n.id, n.addr)
      ensures Has(n)
    {
      hide S.Inv, T.Sound, T.Routed, T.AddRoute, TableShape, AddrShape, Flagged, T.Wf;
      ghost var s := View();
      S.InvMeans(s);
      S.AddNodeKeepsInv(s, n.id, n.addr);
      Index(n);
      AddRoute(n);
    }

    // Files an unrouted node in both indexes.
    method Index(n: Node)
      requires Shape() && Flagged() && n.id !in nodes && n.addr !in addrs && !n.inRoutes && !T.Routed(table, n.id)
      modifies this`nodes, this`nodeByAddr, this`infos, this`addrs
      ensures Shape() && Flagged() && Has(n)
      ensures infos == old(infos)[n.id := n.Info()]
      ensures nodes == old(nodes)[n.id := n] && addrs == old(addrs)[n.addr := n.id]
    {
      hide T.Routed, TableShape, Flagged;
      IndexById(n);
      IndexByAddr(n);
    }

    // Moves an unrouted node to a new id in the index by id.
    method RekeyById(n: Node, newId: Id)
      requires TableShape() && Flagged() && Has(n) && newId !in nodes
      requires !T.Routed(table, n.id) && !T.Routed(table, newId)
      modifies this`nodes, this`infos, {n}`id, {n}`idChanges
      ensures TableShape() && Flagged() && n.id == newId && old(n.id) in old(infos)
      ensures var i := old(infos)[old(n.id)];
        infos == (old(infos) - {old(n.id)})[newId := i.(idChanges := i.idChanges + 1)]
      ensures nodes == (old(nodes) - {old(n.id)})[newId := n]
    {
      hide T.Routed, TableShape, Flagged;
      FlagOff(n);
      ForgetId(n.id);
      NotIndexed(n);
      n.idChanges := n.idChanges + 1;
      n.id := newId;
      IndexById(n);
    }

    // Moves an unrouted node to a new id; the index by address keeps the node.
    method Rekey(n: Node, newId: Id)
      requires Shape() && Flagged() && Has(n) && newId !in nodes
      requires !T.Routed(table, n.id) && !T.Routed(table, newId)
      requires n.addr in addrs && addrs[n.addr] == n.id && forall a :: a in addrs && a != n.addr ==> addrs[a] != n.id
      modifies this`nodes, this`infos, this`addrs, {n}`id, {n}`idChanges
      ensures Shape() && Flagged() && Has(n) && n.id == newId && old(n.id) in old(infos)
      ensures var i := old(infos)[old(n.id)];
        infos == (old(infos) - {old(n.id)})[newId := i.(idChanges := i.idChanges + 1)]
      ensures addrs == old(addrs)[n.addr := newId]
      ensures nodes == (old(nodes) - {old(n.id)})[newId := n]
    {
      hide T.Routed, TableShape, Flagged;
      RekeyById(n, newId);
      addrs := addrs[n.addr := newId];
    }

    lemma FlagOff(n: Node)
      requires TableShape() && Flagged() && Has(n) && !T.Routed(table, n.id)
      ensures !n.inRoutes && n.id in infos && infos[n.id] == n.Info()
    {
    }

    lemma NotIndexed(n: Node)
      requires TableShape() && n.id !in nodes
      ensures n !in nodes.Values
    {
    }

    method ChangeNodeId(n: Node, newId: Id)
      requires Valid() && Has(n) && newId != own && newId !in nodes && newId !in infos && n.id in infos
      modifies this`table, this`nodes, this`infos, this`addrs, this`routes
      modifies routes`nodes, nodes.Values`inRoutes, {n}`id, {n}`idChanges
      ensures Valid() && Has(n) && n.id == newId
      ensures T.Wf(own, T.RemoveRoute(old(table), old(n.id)))
      ensures View() == S.ChangeNodeId(old(View()), old(n.id), newId)
    {
      hide S.Inv, T.Sound, T.Routed, T.AddRoute, T.RemoveRoute, TableShape, Flagged, T.Wf, AddrShape, RouteBucket.Shows;
      ghost var s, id := View(), n.id;
      S.InvMeans(s);
      S.ChangeNodeIdKeepsInv(s, id, newId);
      ValidMeans(n);
      T.RemoveRouteRemoves(own, table, id);
      RemoveRoute(n);
      Rekey(n, newId);
      assert View() == S.Moved(s, id, newId);
      AddRoute(n);
    }

    // ---------------------------------------------------------------- messages

    // The index by id is in order for every node but n, whose flags are changing.
    ghost predicate OrderedExcept(n: Node)
      reads this`table, this`routes, this`nodes, this`infos, routes, nodes.Values, n
    {
      && Has(n)
      && |table| == |routes|
      && (forall i, j :: 0 <= i < j < |routes| ==> routes[i] != routes[j])
      && (forall i :: 0 <= i < |routes| ==> routes[i].Shows(table[i], nodes))
      && (forall id :: id in infos <==> id in nodes)
      && (forall id :: id in nodes ==> nodes[id].id == id && (id != n.id ==> infos[id] == nodes[id].Info()))
    }

    ghost method Note(n: Node)
      requires OrderedExcept(n)
      modifies this`infos
      ensures TableShape() && infos == old(infos)[n.id := n.Info()]
    {
      infos := infos[n.id := n.Info()];
    }

    method Mark(n: Node, fromNode: bool)
      requires TableShape() && Has(n)
      modifies this`infos, {n}`responded, {n}`pingLost, {n}`good
      ensures TableShape() && infos == old(infos)[n.id := n.Info()]
      ensures var i := old(n.Info());
        var i1 := if fromNode then i.(responded := true, pingLost := 0) else i;
        n.Info() == if i1.responded then i1.(good := true) else i1
    {
      hide RouteBucket.Shows;
      if fromNode {
        n.responded := true;
        n.pingLost := 0;
      }
      if n.responded {
        n.good := true;
      }
      Note(n);
    }

    method CountLost(n: Node)
      requires TableShape() && Has(n)
      modifies this`infos, {n}`pingLost
      ensures TableShape() && infos == old(infos)[n.id := old(n.Info()).(pingLost := old(n.pingLost) + 1)]
    {
      hide RouteBucket.Shows;
      n.pingLost := n.pingLost + 1;
      Note(n);
    }

    method LostPing(n: Node)
      requires Valid() && Has(n)
      modifies this`infos, {n}`pingLost
      ensures Valid() && View() == S.Apply(old(View()), S.LostPing(n.id))
    {
      hide S.Inv, T.Sound, T.Routed, T.Wf, TableShape, Flagged;
      S.ApplyKeepsInv(View(), S.LostPing(n.id));
      InfoOf(n);
      CountLost(n);
    }

    method StopGood(n: Node)
      requires TableShape() && Has(n)
      modifies this`infos, {n}`good
      ensures TableShape() && infos == old(infos)[n.id := old(n.Info()).(good := false)]
    {
      hide RouteBucket.Shows;
      n.good := false;
      Note(n);
    }

    // The good timer of a node runs out.
    method Expire(n: Node)
      requires Valid() && Has(n)
      modifies this`infos, {n}`good
      ensures Valid() && View() == S.Apply(old(View()), S.Expired(n.id))
    {
      hide S.Inv, T.Sound, T.Routed, T.Wf, TableShape, Flagged;
      S.ApplyKeepsInv(View(), S.Expired(n.id));
      InfoOf(n);
      StopGood(n);
    }

    // Notes that a message came from a node, or that the node was mentioned in one.
    method Seen(n: Node, fromNode: bool)
      requires Valid() && Has(n) && n.id in infos
      modifies this`infos, {n}`responded, {n}`pingLost, {n}`good
      ensures Valid() && View() == S.Seen(old(View()), n.id, fromNode)
    {
      hide S.Inv, T.Sound, T.Routed, T.Wf, TableShape, Flagged;
      S.SeenKeepsInv(View(), n.id, fromNode);
      InfoOf(n);
      Mark(n, fromNode);
    }

    lemma InfoOf(n: Node)
      requires TableShape() && Has(n)
      ensures n.id in infos && infos[n.id] == n.Info()
    {
    }

    // Puts a known node into the routing table, or refreshes it there.
    method Reroute(n: Node)
      requires Valid() && Has(n) && n.id in infos
      modifies this`table, this`routes, routes`nodes, nodes.Values`inRoutes
      ensures Valid() && View() == S.Routing(old(View()), n.id)
    {
      hide S.Inv, T.Sound, T.Routed, T.AddRoute, TableShape, Flagged, T.Wf;
      S.InvMeans(View());
      S.RoutingKeepsInv(View(), n.id);
      AddRoute(n);
    }

    // A known address answers under a new id: black-listed on the second change.
    method Reidentified(n: Node, id: Id) returns (kept: bool)
      requires Valid() && Has(n) && n.id in infos && id != own && id !in nodes && id !in infos
      modifies this`table, this`nodes, this`nodeByAddr, this`infos, this`addrs, this`routes
      modifies routes`nodes, nodes.Values`inRoutes, {n}`id, {n}`idChanges, {n}`inRoutes
      ensures Valid() && kept == (old(infos)[old(n.id)].idChanges == 0)
      ensures T.Wf(own, T.RemoveRoute(old(table), old(n.id)))
      ensures kept ==> View() == S.ChangeNodeId(old(View()), old(n.id), id)
      ensures !kept ==> View() == S.RemoveNode(old(View()), old(n.id))
      ensures kept ==> Has(n) && n.id == id && id in infos
    {
      hide S.Inv, T.Sound, T.Routed, T.AddRoute, T.RemoveRoute, Flagged, T.Wf, RouteBucket.Shows;
      S.ChangeNodeIdKeepsInv(View(), n.id, id);
      assert infos[n.id] == n.Info();
      if n.idChanges > 0 {
        RemoveNode(n);
        kept := false;
      } else {
        ChangeNodeId(n, id);
        kept := true;
      }
    }

    lemma ByAddrIsIndexed(addr: T.Addr)
      requires Shape()
      ensures addr in addrs <==> addr in nodeByAddr
      ensures addr in addrs ==> Has(nodeByAddr[addr]) && nodeByAddr[addr].id == addrs[addr] && addrs[addr] in infos
    {
    }

    lemma ByIdIsIndexed(id: Id)
      requires Shape()
      ensures id in nodes <==> id in infos
      ensures id in nodes ==> Has(nodes[id]) && nodes[id].id == id
    {
    }

    method FoundNode(id: Id, addr: T.Addr, fromNode: bool, usable: bool) returns (n: Node?)
      requires Valid()
      modifies this`table, this`nodes, this`nodeByAddr, this`infos, this`addrs, this`routes
      modifies routes`nodes, nodes.Values
      ensures Valid() && View() == S.FoundNode(old(View()), id, addr, fromNode, usable)
      ensures n != null <==> P.Accepted(old(View()), id, addr, fromNode, usable)
      ensures n != null ==> id in nodes && nodes[id] == n
    {
      hide S.Inv, T.Sound, T.Routed, T.AddRoute, T.RemoveRoute, Flagged, T.Wf, TableShape, AddrShape;
      if !usable || id == own {
        return null;
      }
      ByIdIsIndexed(id);
      ByAddrIsIndexed(addr);
      if id in nodes {
        n := nodes[id];
        Reroute(n);
      } else if addr in nodeByAddr {
        n := nodeByAddr[addr];
        if !fromNode {
          return null;
        }
        var kept := Reidentified(n, id);
        if !kept {
          return null;
        }
      } else {
        n := new Node(id, addr);
        AddNode(n);
      }
      Seen(n, fromNode);
    }

    // ---------------------------------------------------------------- looking for nodes

    predicate Wanted(n: Node, onlyGood: bool, exclude: set<Id>)
      reads n
    {
      !n.IsBad() && (onlyGood ==> n.good) && n.pingLost < 2 && n.id !in exclude
    }

    // Takes what is wanted of bucket i, up to the limit.
    method Gather(a: seq<Node>, i: nat, limit: nat, onlyGood: bool, exclude: set<Id>, ghost ids: seq<Id>)
      returns (r: seq<Node>, ghost out: seq<Id>)
      requires TableShape() && i < |routes| && ShowAs(a, ids) && |a| < limit
      ensures var p := DhtSearch.EligibleIn(infos, onlyGood, exclude);
        ShowAs(r, out) && out == DhtSearch.Gathered(ids, table[i].nodes, p, limit)
      ensures ShowAs(r, DhtSearch.Gathered(ids, table[i].nodes, DhtSearch.EligibleIn(infos, onlyGood, exclude), limit))
    {
      ghost var p := DhtSearch.EligibleIn(infos, onlyGood, exclude);
      ghost var more := table[i].nodes;
      assert routes[i].Shows(table[i], nodes);
      r, out := a, ids;
      var j := 0;
      while j < |routes[i].nodes|
        invariant j <= |more| == |routes[i].nodes| && ShowAs(r, out) && |r| < limit
        invariant DhtSearch.Gathered(out, more[j..], p, limit) == DhtSearch.Gathered(ids, more, p, limit)
      {
        var n := routes[i].nodes[j];
        assert nodes[more[j]] == n && n.id == more[j];
        assert p(more[j]) == Wanted(n, onlyGood, exclude);
        assert n in r <==> more[j] in out;
        assert more[j..][1..] == more[j + 1..];
        if Wanted(n, onlyGood, exclude) && n !in r {
          r := r + [n];
          out := out + [more[j]];
          if |r| >= limit {
            return;
          }
        }
        j := j + 1;
      }
    }

    // Takes what is wanted of the bucket found at a skew.
    method SearchAt(target: Id, skew: nat, a: seq<Node>, limit: nat, onlyGood: bool, exclude: set<Id>,
                    ghost ids: seq<Id>)
      returns (r: seq<Node>, ghost out: seq<Id>)
      requires TableShape() && T.Wf(own, table) && skew < ID_BITS && ShowAs(a, ids) && |a| < limit
      ensures ShowAs(r, out)
      ensures var p := DhtSearch.EligibleIn(infos, onlyGood, exclude);
        DhtSearch.SearchFrom(table, target, ids, skew, p, limit)
          == DhtSearch.SearchFrom(table, target, out, skew + 1, p, limit)
    {
      hide RouteBucket.Shows, T.Sound, T.Wf, DhtSearch.Gathered, T.FindRoute;
      r, out := a, ids;
      var i := FindRoute(target, 0, skew);
      if i >= 0 { r, out := Gather(a, i, limit, onlyGood, exclude, ids); }
    }

    method FindNodes(target: Id, maxCount: int, onlyGood: bool, exclude: set<Id>)
      returns (a: seq<Node>)
      requires TableShape() && T.Wf(own, table)
      ensures ShowAs(a, DhtSearch.FindNodes(own, infos, table, target, maxCount, onlyGood, exclude))
    {
      hide TableShape, T.Wf, DhtSearch.FindNodes, DhtSearch.Gathered, T.FindRoute;
      ghost var p := DhtSearch.EligibleIn(infos, onlyGood, exclude);
      DhtSearch.SearchLoopFinds(own, infos, table, target, maxCount, onlyGood, exclude);
      var limit := if maxCount < 1 then 1 else maxCount;
      a := [];
      ghost var ids: seq<Id> := [];
      var skew := 0;
      while skew < ID_BITS
        invariant skew <= ID_BITS && ShowAs(a, ids) && |a| < limit
        invariant DhtSearch.SearchFrom(table, target, ids, skew, p, limit)
               == DhtSearch.SearchFrom(table, target, [], 0, p, limit)
      {
        a, ids := SearchAt(target, skew, a, limit, onlyGood, exclude, ids);
        skew := skew + 1;
        if |a| >= limit { return; }
      }
    }

    // ---------------------------------------------------------------- upkeep

    method TrimBucket(i: nat)
      requires Routing() && i < |routes|
      modifies this`table, {routes[i]}`nodes, nodes.Values`inRoutes
      ensures Routing()
      ensures table == T.WithNodes(old(table), i, T.Trimmed(infos, old(table[i].nodes)))
    {
      hide T.NotGood, T.BucketOk, T.Routed;
      assert routes[i].Shows(table[i], nodes);
      if |routes[i].nodes| > T.K {
        var q := PingQuestionable(i, |routes[i].nodes| - T.K);
        if |routes[i].nodes| > T.K + q {
          EvictAt(i, T.K); // too many candidates, trim one
        }
      }
    }

    method TrimCandidates()
      requires Routing()
      modifies this`table, routes`nodes, nodes.Values`inRoutes
      ensures Routing() && table == T.TrimCandidates(infos, old(table))
    {
      hide T.Trimmed, T.BucketOk, T.Routed, RouteBucket.Shows;
      ghost var t := table;
      var i := 1;
      while i < |routes|
        invariant Routing() && |table| == |t| && (|routes| > 0 ==> i <= |routes|)
        invariant forall k :: 0 <= k < |t| ==> table[k].bits == t[k].bits && table[k].prefix == t[k].prefix
        invariant forall k :: 0 <= k < |t| ==>
          table[k].nodes == if 1 <= k < i then T.Trimmed(infos, t[k].nodes) else t[k].nodes
      {
        assert routes[i] in routes;
        TrimBucket(i);
        i := i + 1;
      }
      var r := T.TrimCandidates(infos, t);
      assert forall k :: 0 <= k < |t| ==> table[k] == r[k];
    }

    method RefreshId(i: nat, tail: Id) returns (id: Id)
      requires TableShape() && T.Wf(own, table) && i < |routes|
      ensures T.FindRoute(table, id, 0, 0) == i
    {
      hide T.FindRoute, T.RefreshId, T.BucketOk;
      assert routes[i].Shows(table[i], nodes);
      T.RefreshIdInBucket(own, table, i, tail);
      id := routes[i].RandomId(tail, table[i]);
    }
  }
}

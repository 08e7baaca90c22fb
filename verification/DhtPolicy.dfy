/**
 What the routing table's policy and the messages a DHT receives come to, in terms of which nodes
 are known, what is known of them and which of them are routed.
 */
module DhtPolicy {
  import opened DhtBits
  import opened Sequences
  import opened DhtTable
  import opened DhtState

  // ---------------------------------------------------------------- making room

  // If some node of s is one of those, then one of those is not in r.
  ghost predicate OneGone(s: seq<Id>, r: seq<Id>, p: Id -> bool) {
    (exists x :: x in s && p(x)) ==> exists x :: x in s && p(x) && x !in r
  }

  lemma RemoveFirstGone(s: seq<Id>, p: Id -> bool)
    requires Distinct(s)
    ensures var r := RemoveFirst(s, p);
      && Distinct(r) && OneGone(s, r, p) && |r| >= |s| - 1
      && (forall x :: x in r ==> x in s) && (|r| == |s| ==> r == s)
  {
    RemoveFirstDistinct(s, p);
    var i := IndexWhere(s, p);
    if i < |s| {
      RemoveAtDistinct(s, i);
      assert s[i] in s && p(s[i]) && s[i] !in RemoveFirst(s, p);
    }
  }

  lemma OneGoneLater(s: seq<Id>, m: seq<Id>, r: seq<Id>, p: Id -> bool)
    requires OneGone(m, r, p) && (forall x :: x in m ==> x in s) && (forall x :: x in r ==> x in m)
    ensures OneGone(s, r, p)
  {
    if x :| x in s && p(x) {
      if x in m {
        var y :| y in m && p(y) && y !in r;
        assert y in s;
      } else {
        assert x !in r;
      }
    }
  }

  /** Room is made in a full bucket only, and is never more than one place. One bad node goes, if
      there is one; and away from bucket 0, as long as the bucket is still full after that, one that
      never responded, for a newcomer that has; and one that never responded and is not good. */
  lemma MakeRoomMeans(ns: Infos, i: nat, nodes: seq<Id>, id: Id)
    requires Distinct(nodes)
    ensures var r := MakeRoom(ns, i, nodes, id);
      && (|nodes| < K ==> r == nodes)
      && (|nodes| >= K ==> OneGone(nodes, r, BadIn(ns)))
      && (|r| >= K && i > 0 && Responded(ns, id) ==> OneGone(nodes, r, SilentIn(ns)))
      && (|r| >= K && i > 0 ==> OneGone(nodes, r, UselessIn(ns)))
      && (|nodes| >= K ==> |r| >= K - 1)
      && |nodes| - |r| <= (if i == 0 then 1 else if Responded(ns, id) then 3 else 2)
  {
    hide OneGone;
    var n1 := WithoutBad(ns, nodes);
    var n2 := WithoutSilent(ns, i, n1, id);
    var r := WithoutUseless(ns, i, n2);
    RemoveFirstGone(nodes, BadIn(ns));
    RemoveFirstGone(n1, SilentIn(ns));
    RemoveFirstGone(n2, UselessIn(ns));
    if |nodes| >= K { GoneStays(nodes, n1, r, BadIn(ns)); }
    if |r| >= K && i > 0 {
      if Responded(ns, id) {
        OneGoneLater(nodes, n1, n2, SilentIn(ns));
        GoneStays(nodes, n2, r, SilentIn(ns));
      }
      OneGoneLater(nodes, n2, r, UselessIn(ns));
    }
  }

  lemma GoneStays(s: seq<Id>, m: seq<Id>, r: seq<Id>, p: Id -> bool)
    requires OneGone(s, m, p) && forall x :: x in r ==> x in m
    ensures OneGone(s, r, p)
  {
  }

  // ---------------------------------------------------------------- splitting

  ghost predicate HasGood(ns: Infos, b: Bucket) { exists x :: x in b.nodes && Good(ns, x) }

  // The buckets that were behind bucket 0 when it was split all had a good node.
  ghost predicate SplitsCalledFor(ns: Infos, t: Table, r: Table, loading: bool) {
    && |r| >= |t|
    && (!loading ==> forall j :: 2 <= j < 2 + |r| - |t| && j < |r| ==> HasGood(ns, r[j]))
  }

  // The other buckets behind bucket 0 are as they were, farther back by the number of splits.
  ghost predicate OthersStay(t: Table, r: Table, i: nat) {
    |r| >= |t| && forall j :: 1 <= j < |t| && j != i ==> r[j + |r| - |t|] == t[j]
  }

  lemma AttemptSplits(own: Id, ns: Infos, t: Table, i: nat, id: Id, loading: bool)
    requires i < |t| && Wf(own, t)
    ensures var r := AttemptIn(own, ns, t, i, id, loading);
      && OthersStay(t, r.table, i)
      && (r.Done? ==> |r.table| == |t|)
      && (r.TryAgain? ==> i == 0 && |t[0].nodes| >= K && |r.table| == |t| + 1)
      && (r.TryAgain? && !loading && |t| > 1 ==> HasGood(ns, t[1]))
  {
    hide Wf, MakeRoom, Refreshed, Admit, OthersStay, HasGood;
    var nodes := t[i].nodes;
    var room := MakeRoom(ns, i, nodes, id);
    assert BucketOk(own, t, i) by { SoundBucket(own, t, i); }
    MakeRoomEvicts(ns, i, nodes, id);
    OneBucketStays(t, i, room);
    var j := IndexWhere(nodes, Is(id));
    if j < |nodes| {
      OneBucketStays(t, i, Refreshed(nodes, j));
    } else {
      AdmitSplits(own, ns, WithNodes(t, i, room), i, id, loading);
      StayTwice(t, WithNodes(t, i, room), Admit(own, ns, WithNodes(t, i, room), i, id, loading).table, i);
    }
  }

  lemma AdmitSplits(own: Id, ns: Infos, t: Table, i: nat, id: Id, loading: bool)
    requires i < |t|
    ensures var r := Admit(own, ns, t, i, id, loading);
      && OthersStay(t, r.table, i)
      && (r.Done? ==> |r.table| == |t|)
      && (r.TryAgain? ==> i == 0 && |t[0].nodes| >= K && |r.table| == |t| + 1)
      && (r.TryAgain? && !loading && |t| > 1 ==> HasGood(ns, t[1]))
  {
    hide SplitRoute0, OthersStay, HasGood, Questionable, WithNodes;
    OneBucketStays(t, i, t[i].nodes + [id]);
    NothingChanges(t, i);
    if SplitRoute0(own, ns, t, loading).Some? { SplitShape(own, ns, t, loading); }
  }

  lemma NothingChanges(t: Table, i: nat)
    ensures OthersStay(t, t, i)
  {
  }

  lemma SplitShape(own: Id, ns: Infos, t: Table, loading: bool)
    requires t != [] && SplitRoute0(own, ns, t, loading).Some?
    ensures var r := SplitRoute0(own, ns, t, loading).value;
      && OthersStay(t, r, 0) && |r| == |t| + 1 && |t[0].nodes| >= K
      && (!loading && |t| > 1 ==> HasGood(ns, t[1]))
  {
    hide Half;
  }

  lemma OneBucketStays(t: Table, i: nat, nodes: seq<Id>)
    requires i < |t|
    ensures OthersStay(t, WithNodes(t, i, nodes), i)
    ensures i == 0 && |t| > 1 ==> WithNodes(t, i, nodes)[1] == t[1]
  {
    assert forall j :: 0 <= j < |t| && j != i ==> WithNodes(t, i, nodes)[j] == t[j];
  }

  lemma StayTwice(t: Table, u: Table, r: Table, i: nat)
    requires OthersStay(t, u, i) && OthersStay(u, r, i) && |u| == |t|
    ensures OthersStay(t, r, i)
  {
    forall j | 1 <= j < |t| && j != i ensures r[j + |r| - |t|] == t[j] {
      assert u[j + |u| - |t|] == t[j] && r[j + |r| - |u|] == u[j];
    }
  }

  lemma SoundBucket(own: Id, t: Table, i: nat)
    requires Wf(own, t) && i < |t|
    ensures BucketOk(own, t, i)
  {
  }

  /** Adding a node splits bucket 0 only if it is full, and each time only if the bucket behind it
      has a good node or the state file is being read. */
  lemma {:induction false} AddRouteSplits(own: Id, ns: Infos, t: Table, id: Id, loading: bool)
    requires Wf(own, t) && t != []
    ensures var r := AddRoute(own, ns, t, id, loading);
      && SplitsCalledFor(ns, t, r, loading)
      && (|r| > |t| ==> |t[0].nodes| >= K && Owner(own, |t|, id) == 0)
      && OthersStay(t, r, Owner(own, |t|, id))
    decreases SplitsLeft(t)
  {
    hide Wf, AttemptIn, FindRoute, Owner, SplitsCalledFor, OthersStay;
    AddRouteTurn(own, ns, t, id, loading);
    var i := FindRoute(t, id, 0, 0);
    AttemptSplits(own, ns, t, i, id, loading);
    var a := AttemptIn(own, ns, t, i, id, loading);
    if a.TryAgain? {
      var u := a.table;
      AddRouteSplits(own, ns, u, id, loading);
      OwnerOfHalf(own, |t|, id);
      OneMoreSplit(ns, t, u, AddRoute(own, ns, u, id, loading), Owner(own, |u|, id), loading);
    } else {
      NoSplit(ns, t, a.table, loading);
    }
  }

  lemma NoSplit(ns: Infos, t: Table, r: Table, loading: bool)
    requires |r| == |t|
    ensures SplitsCalledFor(ns, t, r, loading)
  {
  }

  lemma OneMoreSplit(ns: Infos, t: Table, u: Table, r: Table, k: nat, loading: bool)
    requires |u| == |t| + 1 && OthersStay(t, u, 0) && k <= 1 && OthersStay(u, r, k)
    requires SplitsCalledFor(ns, u, r, loading) && (!loading && |t| > 1 ==> HasGood(ns, t[1]))
    ensures SplitsCalledFor(ns, t, r, loading) && OthersStay(t, r, 0)
  {
    hide HasGood;
    forall j | 1 <= j < |t| ensures r[j + |r| - |t|] == t[j] {
      assert u[j + |u| - |t|] == t[j];
      assert r[(j + 1) + |r| - |u|] == u[j + 1];
    }
  }

  lemma OwnerOfHalf(own: Id, count: nat, id: Id)
    requires 0 < count && Owner(own, count, id) == 0
    ensures Owner(own, count + 1, id) <= 1
  {
    if count <= ID_BITS { OwnerAfterSplit(own, count, id); }
  }

  // ---------------------------------------------------------------- trimming

  /** Trimming takes from a bucket, other than bucket 0, the first candidate and nothing else, and
      does so exactly if there are more candidates than stable nodes that are not good. */
  lemma TrimMeans(own: Id, ns: Infos, t: Table, i: nat)
    requires Wf(own, t) && i < |t|
    ensures var r := TrimCandidates(ns, t);
      var nodes := t[i].nodes;
      && |r| == |t| && r[i].bits == t[i].bits && r[i].prefix == t[i].prefix
      && if i > 0 && |nodes| > K && |nodes| - K > |Doubtful(ns, nodes[..K])|
         then r[i].nodes == nodes[..K] + nodes[K + 1..]
         else r[i].nodes == nodes
  {
    hide Layout, Owner, Doubtful, NotGood;
    assert BucketOk(own, t, i);
    var nodes := t[i].nodes;
    if |nodes| > K { NotGoodIsCount(ns, nodes[..K]); }
  }

  // ---------------------------------------------------------------- a node that is heard of

  /** A node is taken note of if its address may be used, its id is not our own, and it is known, or
      nothing is known at its address, or it answered itself and has never changed its id. */
  predicate Accepted(s: State, id: Id, addr: Addr, responded: bool, usable: bool)
    requires Inv(s)
  {
    && usable && id != s.own
    && (id in s.nodes || addr !in s.byAddr || (responded && s.nodes[s.byAddr[addr]].idChanges == 0))
  }

  // What was known of it: of a new node, its address; of one under a new id, all there was.
  function KnownBefore(s: State, id: Id, addr: Addr): Info
    requires Inv(s)
  {
    if id in s.nodes then s.nodes[id]
    else if addr !in s.byAddr then Info(addr, false, false, 0, 0)
    else s.nodes[s.byAddr[addr]].(idChanges := s.nodes[s.byAddr[addr]].idChanges + 1)
  }

  // The id that the node had so far, if it is another one.
  function FormerIds(s: State, id: Id, addr: Addr): set<Id> {
    if id !in s.nodes && addr in s.byAddr then {s.byAddr[addr]} else {}
  }

  // An answer clears the lost pings and is remembered; who has ever answered is good now.
  predicate Heard(was: Info, now: Info, responded: bool) {
    && now.addr == was.addr && now.idChanges == was.idChanges
    && now.responded == (was.responded || responded)
    && now.pingLost == (if responded then 0 else was.pingLost)
    && now.good == (was.good || was.responded || responded)
  }

  /** It is filed under its id and its address, and no longer under a former id; all other entries
      are as they were. */
  ghost predicate Filed(s: State, r: State, id: Id, gone: set<Id>) {
    && id in r.nodes && r.nodes == (s.nodes - gone)[id := r.nodes[id]]
    && r.byAddr == s.byAddr[r.nodes[id].addr := id]
    && r.own == s.own && r.loading == s.loading
  }

  /** It is routed, unless its bucket may refuse it; no other node comes into the table, and only bad
      or silent ones leave it. */
  ghost predicate RoutedAnew(s: State, r: State, id: Id, gone: set<Id>)
    requires Wf(r.own, r.routes) && r.routes != []
  {
    && (var i := Owner(r.own, |r.routes|, id); id in r.routes[i].nodes || MayRefuse(r.nodes, r.routes, i, r.loading))
    && (Routed(s.routes, id) ==> Routed(r.routes, id))
    && (forall x :: Routed(r.routes, x) ==> x == id || (Routed(s.routes, x) && x !in gone))
    && (forall x :: Routed(s.routes, x) && x !in gone ==>
          Routed(r.routes, x) || Bad(s.nodes, x) || !Responded(s.nodes, x))
  }

  // A node that is in its bucket stays there when it is added again.
  lemma AddRouteStays(own: Id, ns: Infos, t: Table, id: Id, loading: bool)
    requires Wf(own, t) && Routed(t, id)
    ensures Routed(AddRoute(own, ns, t, id, loading), id)
  {
    hide Layout, Owner, MakeRoom;
    FindRouteInWf(own, t, id);
    RoutedInOwner(own, t, id);
    var i := FindRoute(t, id, 0, 0);
    var nodes := t[i].nodes;
    var j := IndexWhere(nodes, Is(id));
    assert j < |nodes|;
    assert BucketOk(own, t, i);
    AddRouteTurn(own, ns, t, id, loading);
    RefreshKeepsSound(own, t, i, j);
  }

  // Refusing depends on no node that is not routed.
  lemma RefusesAlike(own: Id, ns: Infos, other: Infos, t: Table, i: nat, id: Id, loading: bool)
    requires i < |t| && MayRefuse(ns, t, i, loading) && !Routed(t, id)
    requires forall x :: x != id ==> Good(ns, x) == Good(other, x)
    ensures MayRefuse(other, t, i, loading)
  {
    UnroutedIsNowhere(t, id);
    var nodes := t[i].nodes;
    assert Doubtful(ns, nodes[..K]) == Doubtful(other, nodes[..K]) by {
      forall x | x in nodes[..K] ensures x != id {
        assert x in nodes;
      }
    }
  }

  // Routing a node, whatever is noted about it afterwards.
  lemma RoutingMeans(s: State, id: Id, now: Info)
    requires Inv(s) && id in s.nodes
    ensures var r := Routing(s, id).(nodes := s.nodes[id := now]);
      Wf(r.own, r.routes) && r.routes != [] && RoutedAnew(s, r, id, {})
  {
    hide Wf, MayRefuse, Owner, Routed, IndexesAgree, AddRoute;
    var t := AddRoute(s.own, s.nodes, s.routes, id, s.loading);
    assert Wf(s.own, t) && t != [];
    AddRouteRefuses(s.own, s.nodes, s.routes, id, s.loading);
    OwnerIs(s.own, t, id);
    var i := Owner(s.own, |t|, id);
    if id !in t[i].nodes {
      RefusesAlike(s.own, s.nodes, s.nodes[id := now], t, i, id, s.loading);
    }
    if Routed(s.routes, id) { AddRouteStays(s.own, s.nodes, s.routes, id, s.loading); }
    forall x
      ensures Routed(t, x) ==> Routed(s.routes, x) || x == id
      ensures Routed(s.routes, x) ==> Routed(t, x) || Bad(s.nodes, x) || !Responded(s.nodes, x)
    {
      AddRouteRouted(s.own, s.nodes, s.routes, id, s.loading, x);
    }
  }

  lemma OwnerIs(own: Id, t: Table, id: Id)
    requires Wf(own, t) && t != []
    ensures Owner(own, |t|, id) < |t| && (Routed(t, id) <==> id in t[Owner(own, |t|, id)].nodes)
  {
    RoutedInOwner(own, t, id);
  }

  lemma KnownMeans(s: State, id: Id, responded: bool)
    requires Inv(s) && id in s.nodes
    ensures var r := Seen(Routing(s, id), id, responded);
      && Wf(r.own, r.routes) && r.routes != []
      && Filed(s, r, id, {}) && Heard(s.nodes[id], r.nodes[id], responded) && RoutedAnew(s, r, id, {})
  {
    hide Wf, RoutedAnew, Inv, AddRoute;
    InvMeans(s);
    var r := Seen(Routing(s, id), id, responded);
    RoutingMeans(s, id, r.nodes[id]);
    IndexesOf(s, id);
    assert s.nodes - {} == s.nodes;
  }

  lemma IndexesOf(s: State, id: Id)
    requires Inv(s) && id in s.nodes
    ensures s.nodes[id].addr in s.byAddr && s.byAddr[s.nodes[id].addr] == id
    ensures s.byAddr[s.nodes[id].addr := id] == s.byAddr
  {
  }

  // In between, a node that was not routed came in, or some nodes went.
  lemma RoutedThrough(s: State, m: State, r: State, id: Id, gone: set<Id>)
    requires Wf(r.own, r.routes) && r.routes != [] && RoutedAnew(m, r, id, {}) && !Routed(s.routes, id)
    requires forall x :: Routed(m.routes, x) <==> Routed(s.routes, x) && x !in gone
    requires forall x :: x !in gone && x != id && x in s.nodes ==> x in m.nodes && m.nodes[x] == s.nodes[x]
    requires forall x :: Routed(s.routes, x) ==> x in s.nodes
    ensures RoutedAnew(s, r, id, gone)
  {
    hide Wf, Routed, Owner, MayRefuse;
  }

  lemma NewMeans(s: State, id: Id, addr: Addr, responded: bool)
    requires Inv(s) && id != s.own && id !in s.nodes && addr !in s.byAddr
    ensures Wf(s.own, s.routes)
    ensures var r := Seen(AddNode(s, id, addr), id, responded);
      && Wf(r.own, r.routes) && r.routes != []
      && Filed(s, r, id, {}) && Heard(Info(addr, false, false, 0, 0), r.nodes[id], responded)
      && RoutedAnew(s, r, id, {})
  {
    hide Wf, RoutedAnew, Routed, AddRoute;
    InvMeans(s);
    var m := s.(nodes := s.nodes[id := Info(addr, false, false, 0, 0)], byAddr := s.byAddr[addr := id]);
    assert Inv(m);
    var r := Seen(AddNode(s, id, addr), id, responded);
    RoutingMeans(m, id, r.nodes[id]);
    assert m.nodes[id := r.nodes[id]] == r.nodes;
    RoutedThrough(s, m, r, id, {});
    assert (s.nodes - {})[id := r.nodes[id]] == r.nodes;
  }

  lemma MovedIsRight(s: State, fromId: Id, toId: Id)
    requires Inv(s) && fromId in s.nodes && toId != s.own && toId !in s.nodes
    ensures var m := Moved(s, fromId, toId);
      && Inv(m) && (forall x :: Routed(m.routes, x) <==> Routed(s.routes, x) && x !in {fromId})
      && !Routed(s.routes, toId) && Wf(s.own, RemoveRoute(s.routes, fromId))
  {
    hide Wf, Routed, RemoveRoute;
    InvMeans(s);
    RemoveRouteRemoves(s.own, s.routes, fromId);
    var m := Moved(s, fromId, toId);
    assert IndexesAgree(m.nodes, m.byAddr);
  }

  lemma ChangedMeans(s: State, id: Id, addr: Addr, responded: bool)
    requires Inv(s) && id != s.own && id !in s.nodes && addr in s.byAddr
    ensures var n := s.byAddr[addr];
      && n in s.nodes && Wf(s.own, RemoveRoute(s.routes, n))
      && var r := Seen(ChangeNodeId(s, n, id), id, responded);
         && Wf(r.own, r.routes) && r.routes != []
         && Filed(s, r, id, {n}) && RoutedAnew(s, r, id, {n})
         && Heard(s.nodes[n].(idChanges := s.nodes[n].idChanges + 1), r.nodes[id], responded)
  {
    hide Wf, RoutedAnew, Routed, AddRoute, RemoveRoute, IndexesAgree;
    InvMeans(s);
    assert s.byAddr[addr] in s.nodes by { ByAddr(s, addr); }
    var n := s.byAddr[addr];
    MovedIsRight(s, n, id);
    var m := Moved(s, n, id);
    InvMeans(m);
    var r := Seen(ChangeNodeId(s, n, id), id, responded);
    RoutingMeans(m, id, r.nodes[id]);
    assert m.nodes[id := r.nodes[id]] == r.nodes == (s.nodes - {n})[id := r.nodes[id]];
    RoutedThrough(s, m, r, id, {n});
  }

  lemma ByAddr(s: State, addr: Addr)
    requires Inv(s) && addr in s.byAddr
    ensures s.byAddr[addr] in s.nodes && s.nodes[s.byAddr[addr]].addr == addr
  {
  }

  /** What hearing of a node comes to. If it is accepted, it is filed under its id and address with
      what was heard, and routed unless refused. If it answers under yet another id, exactly that
      node is forgotten. Otherwise nothing changes. */
  lemma FoundNodeMeans(s: State, id: Id, addr: Addr, responded: bool, usable: bool)
    requires Inv(s)
    ensures var r := FoundNode(s, id, addr, responded, usable);
      if Accepted(s, id, addr, responded, usable) then
        && Wf(r.own, r.routes) && r.routes != []
        && Filed(s, r, id, FormerIds(s, id, addr))
        && Heard(KnownBefore(s, id, addr), r.nodes[id], responded)
        && RoutedAnew(s, r, id, FormerIds(s, id, addr))
      else if usable && id != s.own && responded then
        && var n := s.byAddr[addr];
           && r.nodes == s.nodes - {n} && r.byAddr == s.byAddr - {addr}
           && (forall x :: Routed(r.routes, x) <==> Routed(s.routes, x) && x != n)
           && r.own == s.own && r.loading == s.loading
      else r == s
  {
    hide Wf, RoutedAnew, Filed, Heard, Routed, AddRoute, RemoveRoute, IndexesAgree, ChangeNodeId, Seen, AddNode;
    InvMeans(s);
    if addr in s.byAddr { ByAddr(s, addr); }
    if usable && id != s.own {
      if id in s.nodes {
        KnownMeans(s, id, responded);
      } else if addr !in s.byAddr {
        NewMeans(s, id, addr, responded);
      } else if responded {
        if s.nodes[s.byAddr[addr]].idChanges == 0 {
          ChangedMeans(s, id, addr, responded);
        } else {
          RemoveRouteRemoves(s.own, s.routes, s.byAddr[addr]);
        }
      }
    }
  }
}

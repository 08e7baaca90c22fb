/**
 The node indexes together with the routing table, as one state machine: nodes
 found, re-identified, removed, expired and trimmed in any interleaving.
 */
module DhtState {
  import opened DhtBits
  import opened Sequences
  import opened DhtTable

  /** `nodes` is the index by id, `byAddr` the index by address; `loading` says that the
      state file is being read or written. */
  datatype State = State(own: Id, nodes: Infos, byAddr: map<Addr, Id>, routes: Table, loading: bool)

  ghost predicate IndexesAgree(nodes: Infos, byAddr: map<Addr, Id>) {
    && (forall id :: id in nodes ==> nodes[id].addr in byAddr && byAddr[nodes[id].addr] == id)
    && (forall a :: a in byAddr ==> byAddr[a] in nodes && nodes[byAddr[a]].addr == a)
  }

  ghost predicate Inv(s: State) {
    && Wf(s.own, s.routes)
    && s.own !in s.nodes
    && IndexesAgree(s.nodes, s.byAddr)
    && forall x :: Routed(s.routes, x) ==> x in s.nodes
  }

  lemma InvMeans(s: State)
    requires Inv(s)
    ensures Wf(s.own, s.routes) && Sound(s.own, s.routes) && s.own !in s.nodes && IndexesAgree(s.nodes, s.byAddr)
    ensures forall x :: Routed(s.routes, x) ==> x in s.nodes
  {
  }

  function Routing(s: State, id: Id): (r: State)
    requires Wf(s.own, s.routes)
  {
    s.(routes := AddRoute(s.own, s.nodes, s.routes, id, s.loading))
  }

  function RemoveNode(s: State, id: Id): (r: State)
    requires id in s.nodes
  {
    s.(routes := RemoveRoute(s.routes, id), byAddr := s.byAddr - {s.nodes[id].addr}, nodes := s.nodes - {id})
  }

  function AddNode(s: State, id: Id, addr: Addr): (r: State)
    requires Wf(s.own, s.routes)
  {
    Routing(s.(nodes := s.nodes[id := Info(addr, false, false, 0, 0)], byAddr := s.byAddr[addr := id]), id)
  }

  // The node moves in both indexes and in the routing table from its old id to the new one.
  function Moved(s: State, fromId: Id, toId: Id): (r: State)
    requires fromId in s.nodes
  {
    var info := s.nodes[fromId].(idChanges := s.nodes[fromId].idChanges + 1);
    s.(routes := RemoveRoute(s.routes, fromId),
       nodes := (s.nodes - {fromId})[toId := info],
       byAddr := s.byAddr[info.addr := toId])
  }

  function ChangeNodeId(s: State, fromId: Id, toId: Id): (r: State)
    requires fromId in s.nodes && Wf(s.own, RemoveRoute(s.routes, fromId))
  {
    Routing(Moved(s, fromId, toId), toId)
  }

  // What is noted about a node a message came from, or was told of.
  function Seen(s: State, id: Id, responded: bool): (r: State)
    requires id in s.nodes
  {
    var n := s.nodes[id];
    var n1 := if responded then n.(responded := true, pingLost := 0) else n;
    s.(nodes := s.nodes[id := if n1.responded then n1.(good := true) else n1])
  }

  /** A node id seen with an address. `usable` says that the address may be a peer's, is of
      our address family and is not black-listed; `responded` that the node itself answered. */
  function FoundNode(s: State, id: Id, addr: Addr, responded: bool, usable: bool): (r: State)
    requires Inv(s)
  {
    if !usable || id == s.own then s
    else if id in s.nodes then Seen(Routing(s, id), id, responded)
    else if addr !in s.byAddr then Seen(AddNode(s, id, addr), id, responded)
    else
      var n := s.byAddr[addr];
      if !responded then s
      else if s.nodes[n].idChanges > 0 then RemoveNode(s, n)
      else
        RemoveRouteRemoves(s.own, s.routes, n);
        Seen(ChangeNodeId(s, n, id), id, responded)
  }

  // ---------------------------------------------------------------- runs

  /** The steps a DHT takes: messages, removals by clean-up or black-listing, the passing of
      time, lost pings, the periodic trimming, and the state file being opened or closed. */
  datatype Step =
    | Found(id: Id, addr: Addr, responded: bool, usable: bool)
    | Removed(id: Id)
    | Expired(id: Id)
    | LostPing(id: Id)
    | Trim
    | StateIo(open: bool)

  function Apply(s: State, step: Step): (r: State)
    requires Inv(s)
  {
    match step
    case Found(id, addr, responded, usable) => FoundNode(s, id, addr, responded, usable)
    case Removed(id) => if id in s.nodes then RemoveNode(s, id) else s
    case Expired(id) => if id in s.nodes then s.(nodes := s.nodes[id := s.nodes[id].(good := false)]) else s
    case LostPing(id) =>
      if id in s.nodes then s.(nodes := s.nodes[id := s.nodes[id].(pingLost := s.nodes[id].pingLost + 1)]) else s
    case Trim => s.(routes := TrimCandidates(s.nodes, s.routes))
    case StateIo(open) => s.(loading := open)
  }

  lemma RoutingKeepsInv(s: State, id: Id)
    requires Inv(s) && id in s.nodes
    ensures Inv(Routing(s, id))
  {
    forall x | Routed(Routing(s, id).routes, x)
      ensures x in s.nodes
    {
      AddRouteRouted(s.own, s.nodes, s.routes, id, s.loading, x);
    }
  }

  // A removed node remains in no index and in no bucket.
  lemma RemoveNodeForgets(s: State, id: Id)
    requires Inv(s) && id in s.nodes
    ensures var r := RemoveNode(s, id);
      && Inv(r)
      && r.nodes == s.nodes - {id} && s.nodes[id].addr !in r.byAddr
      && !Routed(r.routes, id)
      && forall x :: x != id && Routed(s.routes, x) ==> Routed(r.routes, x)
  {
    RemoveRouteRemoves(s.own, s.routes, id);
  }

  lemma AddNodeKeepsInv(s: State, id: Id, addr: Addr)
    requires Inv(s) && id != s.own && id !in s.nodes && addr !in s.byAddr
    ensures Inv(AddNode(s, id, addr)) && id in AddNode(s, id, addr).nodes
  {
    var s1 := s.(nodes := s.nodes[id := Info(addr, false, false, 0, 0)], byAddr := s.byAddr[addr := id]);
    assert IndexesAgree(s1.nodes, s1.byAddr);
    RoutingKeepsInv(s1, id);
  }

  // The old id is forgotten everywhere; the node keeps its address and what is known of it.
  lemma ChangeNodeIdKeepsInv(s: State, fromId: Id, toId: Id)
    requires Inv(s) && fromId in s.nodes && toId != s.own && toId !in s.nodes
    ensures Wf(s.own, RemoveRoute(s.routes, fromId))
    ensures var r := ChangeNodeId(s, fromId, toId);
      && Inv(r) && fromId !in r.nodes && !Routed(r.routes, fromId)
      && toId in r.nodes && r.nodes[toId].addr == s.nodes[fromId].addr
      && r.byAddr[s.nodes[fromId].addr] == toId
  {
    RemoveRouteRemoves(s.own, s.routes, fromId);
    var s1 := Moved(s, fromId, toId);
    assert IndexesAgree(s1.nodes, s1.byAddr);
    assert Inv(s1);
    RoutingKeepsInv(s1, toId);
  }

  lemma SeenKeepsInv(s: State, id: Id, responded: bool)
    requires Inv(s) && id in s.nodes
    ensures Inv(Seen(s, id, responded))
  {
  }

  lemma FoundNodeKeepsInv(s: State, id: Id, addr: Addr, responded: bool, usable: bool)
    requires Inv(s)
    ensures Inv(FoundNode(s, id, addr, responded, usable))
  {
    if !usable || id == s.own {
    } else if id in s.nodes {
      RoutingKeepsInv(s, id);
      SeenKeepsInv(Routing(s, id), id, responded);
    } else if addr !in s.byAddr {
      AddNodeKeepsInv(s, id, addr);
      SeenKeepsInv(AddNode(s, id, addr), id, responded);
    } else if responded {
      var n := s.byAddr[addr];
      if s.nodes[n].idChanges > 0 {
        RemoveNodeForgets(s, n);
      } else {
        ChangeNodeIdKeepsInv(s, n, id);
        SeenKeepsInv(ChangeNodeId(s, n, id), id, responded);
      }
    }
  }

  lemma ApplyKeepsInv(s: State, step: Step)
    requires Inv(s)
    ensures Inv(Apply(s, step)) && Apply(s, step).own == s.own
  {
    match step
    case Found(id, addr, responded, usable) => FoundNodeKeepsInv(s, id, addr, responded, usable);
    case Removed(id) => if id in s.nodes { RemoveNodeForgets(s, id); }
    case Expired(id) =>
    case LostPing(id) =>
    case Trim => TrimCandidatesKeepsWf(s.own, s.nodes, s.routes);
    case StateIo(open) =>
  }

  function Initial(own: Id): (s: State)
    ensures Inv(s)
  {
    State(own, map[], map[], [], false)
  }

  function Run(s: State, steps: seq<Step>): (r: State)
    requires Inv(s)
    ensures Inv(r) && r.own == s.own
    decreases |steps|
  {
    if steps == [] then s
    else
      ApplyKeepsInv(s, steps[0]);
      Run(Apply(s, steps[0]), steps[1..])
  }

  /** In every run of a DHT: the two indexes list the same nodes, each under its own id and
      address; every id lies in one bucket's range and no other's, the one the scan finds; a
      routed node is indexed and sits in that bucket only; and no bucket lists a node twice
      or holds more than 2K nodes. */
  lemma EveryRun(own: Id, steps: seq<Step>)
    ensures var s := Run(Initial(own), steps);
      && (forall id :: id in s.nodes ==> s.nodes[id].addr in s.byAddr && s.byAddr[s.nodes[id].addr] == id)
      && (forall a :: a in s.byAddr ==> s.byAddr[a] in s.nodes && s.nodes[s.byAddr[a]].addr == a)
      && (s.routes != [] ==> forall id :: FindRoute(s.routes, id, 0, 0) >= 0)
      && (forall i, id :: 0 <= i < |s.routes| ==> (Matches(s.routes[i], id, 0) <==> i == FindRoute(s.routes, id, 0, 0)))
      && (forall i, id :: 0 <= i < |s.routes| && id in s.routes[i].nodes ==>
            id in s.nodes && i == FindRoute(s.routes, id, 0, 0))
      && (forall i :: 0 <= i < |s.routes| ==> Distinct(s.routes[i].nodes) && |s.routes[i].nodes| <= 2 * K)
  {
    var s := Run(Initial(own), steps);
    if s.routes != [] {
      forall id
        ensures FindRoute(s.routes, id, 0, 0) == Owner(own, |s.routes|, id)
      {
        FindRouteIsOwner(own, s.routes, id);
      }
    }
    forall i, id | 0 <= i < |s.routes|
      ensures Matches(s.routes[i], id, 0) <==> i == FindRoute(s.routes, id, 0, 0)
    {
      MatchIffOwner(own, s.routes, i, id);
    }
    forall i, id | 0 <= i < |s.routes| && id in s.routes[i].nodes
      ensures id in s.nodes && i == FindRoute(s.routes, id, 0, 0)
    {
      assert BucketOk(own, s.routes, i);
      assert Routed(s.routes, id);
    }
    forall i | 0 <= i < |s.routes|
      ensures Distinct(s.routes[i].nodes) && |s.routes[i].nodes| <= 2 * K
    {
      assert BucketOk(own, s.routes, i);
    }
  }
}

/**
 Which nodes a search of the routing table yields: FindNodes relaxes the prefix
 match by a growing skew, and this module says which buckets that visits and how
 close, in the XOR metric, the nodes found are to the target.
 */
module DhtSearch {
  import opened DhtBits
  import opened Sequences
  import opened DhtTable

  // ---------------------------------------------------------------- the XOR metric

  // a is strictly closer to the target than b: they part at a bit where a agrees with it.
  ghost predicate CloserAt(target: Id, a: Id, b: Id, k: nat) {
    k < ID_BITS && Agree(a, b, k) && Bit(a, k) == Bit(target, k) && Bit(b, k) != Bit(target, k)
  }

  ghost predicate Closer(target: Id, a: Id, b: Id) {
    exists k: nat :: CloserAt(target, a, b, k)
  }

  lemma LongerPrefixIsCloser(target: Id, a: Id, b: Id)
    requires CommonPrefix(target, a) > CommonPrefix(target, b)
    ensures Closer(target, a, b) && !Closer(target, b, a)
  {
    var n := CommonPrefix(target, b);
    assert Agree(target, b, n) && Agree(target, a, n + 1);
    assert !Agree(target, b, n + 1);
    assert CloserAt(target, a, b, n);
    forall k: nat
      ensures !CloserAt(target, b, a, k)
    {
    }
  }

  // ---------------------------------------------------------------- the buckets visited

  predicate Eligible(ns: Infos, id: Id, onlyGood: bool, exclude: set<Id>) {
    && id in ns && !ns[id].IsBad() && (onlyGood ==> ns[id].good)
    && ns[id].pingLost < 2 && id !in exclude
  }

  // The nodes of buckets i, i-1, ..., 2 and then of bucket 0.
  function Descending(t: Table, i: nat): seq<Id>
    requires i < |t|
  {
    if i <= 1 then t[0].nodes else t[i].nodes + Descending(t, i - 1)
  }

  // What a search from owner bucket i sees: that bucket, then those below it except bucket 1.
  function Visited(t: Table, i: nat): seq<Id>
    requires i < |t|
  {
    if i == 1 then t[1].nodes + t[0].nodes else Descending(t, i)
  }

  function Take<T>(s: seq<T>, n: nat): seq<T> {
    if n <= |s| then s[..n] else s
  }

  /** The outcome of a search: the first eligible nodes in the order of visiting. At least
      one is taken if there is one, since the limit is tested after a node is taken. */
  function FindNodes(own: Id, ns: Infos, t: Table, target: Id, maxCount: int, onlyGood: bool, exclude: set<Id>): seq<Id>
  {
    if t == [] then [] else
    var all := Filter(Visited(t, Owner(own, |t|, target)), EligibleIn(ns, onlyGood, exclude));
    Take(all, if maxCount < 1 then 1 else maxCount)
  }

  // The nodes seen while the skew grows to s; a bucket found again adds nothing.
  function SeenBySkew(t: Table, i: nat, s: nat): (r: seq<Id>)
    requires i < |t|
  {
    if s == 0 then []
    else
      var k := SkewedOwner(i, s - 1);
      SeenBySkew(t, i, s - 1) + (if s > 1 && k == SkewedOwner(i, s - 2) then [] else t[k].nodes)
  }

  // The bucket found never moves away from bucket 0 as the skew grows, and a bucket found
  // again was found by the skew just before.
  lemma SkewedOwnerDescends(i: nat, s: nat, s': nat)
    requires s <= s'
    ensures SkewedOwner(i, s') <= SkewedOwner(i, s) <= i
    ensures SkewedOwner(i, s') == SkewedOwner(i, s) && s < s' ==>
      SkewedOwner(i, s') == SkewedOwner(i, s' - 1)
  {
  }

  lemma {:induction false} SeenIsVisited(t: Table, i: nat, s: nat)
    requires i < |t| && i < s
    ensures SeenBySkew(t, i, s) == Visited(t, i)
  {
    if i <= 1 {
      SeenAfterBottom(t, i, s);
    } else {
      SeenOnTheWay(t, i, i);
      SeenAfterBottom(t, i, s);
    }
  }

  // After skew s with 1 <= s <= i, the buckets i down to i+2-s have been seen.
  function Down(t: Table, i: nat, k: nat): seq<Id>
    requires k <= i < |t|
    decreases i - k
  {
    if k == i then t[i].nodes else Down(t, i, k + 1) + t[k].nodes
  }

  lemma {:induction false} SeenOnTheWay(t: Table, i: nat, s: nat)
    requires 2 <= i < |t| && 2 <= s <= i
    ensures SeenBySkew(t, i, s) == Down(t, i, i + 2 - s)
  {
    if s == 2 {
      assert SeenBySkew(t, i, 1) == [] + t[i].nodes;
    } else {
      SeenOnTheWay(t, i, s - 1);
    }
  }

  lemma {:induction false} DownIsDescending(t: Table, i: nat, k: nat)
    requires 2 <= k <= i < |t|
    ensures Down(t, i, k) + Descending(t, k - 1) == Descending(t, i)
    decreases i - k
  {
    if k < i {
      DownIsDescending(t, i, k + 1);
      assert Descending(t, k) == t[k].nodes + Descending(t, k - 1);
    }
  }

  lemma {:induction false} SeenAfterBottom(t: Table, i: nat, s: nat)
    requires i < |t| && i < s
    requires i >= 2 ==> SeenBySkew(t, i, i) == Down(t, i, 2)
    ensures SeenBySkew(t, i, s) == Visited(t, i)
  {
    if s > i + 1 {
      SeenAfterBottom(t, i, s - 1);
    } else if i == 0 {
    } else if i == 1 {
      assert SeenBySkew(t, 1, 1) == [] + t[1].nodes;
    } else {
      DownIsDescending(t, i, 2);
    }
  }

  // ---------------------------------------------------------------- what is found

  lemma {:induction false} DescendingMembers(t: Table, i: nat, x: Id)
    requires i < |t|
    ensures x in Descending(t, i) <==>
      exists j :: 0 <= j < |t| && x in t[j].nodes && (j == 0 || 2 <= j <= i)
  {
    if i > 1 {
      DescendingMembers(t, i - 1, x);
    }
  }

  /** Exactly which routed nodes a search can reach: those of the target's own bucket and of
      the buckets nearer to bucket 0, but never those of bucket 1 unless it owns the target. */
  lemma SearchReaches(own: Id, t: Table, target: Id, x: Id)
    requires Wf(own, t) && t != [] && Routed(t, x)
    ensures var i, j := Owner(own, |t|, target), Owner(own, |t|, x);
      x in Visited(t, i) <==> j <= i && (j == 1 ==> i == 1)
  {
    var i := Owner(own, |t|, target);
    RoutedInOwner(own, t, x);
    DescendingMembers(t, i, x);
    forall k | 0 <= k < |t| && x in t[k].nodes
      ensures k == Owner(own, |t|, x)
    {
      assert BucketOk(own, t, k);
    }
  }

  // Two ids that leave our own id at the same bit agree on that bit.
  lemma LeaveTogether(own: Id, a: Id, b: Id, c: nat)
    requires CommonPrefix(own, a) == CommonPrefix(own, b) == c < ID_BITS
    ensures CommonPrefix(a, b) > c
  {
    assert Agree(own, a, c) && Agree(own, b, c) && !Agree(own, a, c + 1) && !Agree(own, b, c + 1);
    assert Bit(own, c) != Bit(a, c) && Bit(own, c) != Bit(b, c);
    assert Agree(a, b, c + 1);
  }

  lemma StayTogether(own: Id, a: Id, b: Id, n: nat)
    requires CommonPrefix(own, a) >= n && CommonPrefix(own, b) >= n
    ensures CommonPrefix(a, b) >= n
  {
    assert Agree(own, a, n) && Agree(own, b, n);
    assert Agree(a, b, n);
  }

  // Ids of the target's bucket share more bits with the target than ids of any other bucket.
  lemma OwnBucketIsNearest(own: Id, count: nat, target: Id, x: Id, y: Id)
    requires 0 < count <= ID_BITS && Owner(own, count, x) == Owner(own, count, target) != Owner(own, count, y)
    ensures CommonPrefix(target, x) > CommonPrefix(target, y)
  {
    var c := CommonPrefix(own, target);
    if c < count - 1 {
      LeaveTogether(own, target, x, c);
    } else {
      StayTogether(own, target, x, count - 1);
    }
    OtherBucketIsFarther(own, count, target, y);
  }

  lemma OtherBucketIsFarther(own: Id, count: nat, target: Id, y: Id)
    requires 0 < count <= ID_BITS && Owner(own, count, y) != Owner(own, count, target)
    ensures CommonPrefix(target, y) ==
      if Owner(own, count, y) < Owner(own, count, target) then CommonPrefix(own, target) else CommonPrefix(own, y)
  {
    CommonPrefixSymmetric(own, target);
    CommonPrefixSymmetric(own, y);
    CommonPrefixSymmetric(target, y);
    if Owner(own, count, y) < Owner(own, count, target) {
      CommonPrefixUltra(target, own, y);
    } else {
      CommonPrefixUltra(y, own, target);
    }
  }

  /** Nothing a search leaves out beyond the target's bucket could have served better: every
      node it visits is strictly closer to the target than every node of a bucket farther out.
      And the nodes of the target's own bucket come before, and are closer than, all others. */
  lemma VisitedAreCloser(own: Id, count: nat, target: Id, x: Id, y: Id)
    requires 0 < count <= ID_BITS
    requires Owner(own, count, x) <= Owner(own, count, target)
    requires Owner(own, count, y) > Owner(own, count, target)
        || (Owner(own, count, x) == Owner(own, count, target) != Owner(own, count, y))
    ensures Closer(target, x, y) && !Closer(target, y, x)
  {
    if Owner(own, count, x) == Owner(own, count, target) {
      OwnBucketIsNearest(own, count, target, x, y);
    } else {
      OtherBucketIsFarther(own, count, target, x);
      OtherBucketIsFarther(own, count, target, y);
    }
    LongerPrefixIsCloser(target, x, y);
  }

  lemma DistinctAppend(a: seq<Id>, b: seq<Id>)
    requires Distinct(a) && Distinct(b) && forall x :: x in a ==> x !in b
    ensures Distinct(a + b)
  {
    var s := a + b;
    forall i, j | 0 <= i < j < |s|
      ensures s[i] != s[j]
    {
      if i < |a| <= j {
        assert s[i] in a && s[j] in b;
      }
    }
  }

  lemma {:induction false} DescendingDistinct(own: Id, t: Table, i: nat)
    requires Wf(own, t) && i < |t|
    ensures Distinct(Descending(t, i))
  {
    assert BucketOk(own, t, 0);
    if i > 1 {
      DescendingDistinct(own, t, i - 1);
      assert BucketOk(own, t, i);
      forall x | x in t[i].nodes
        ensures x !in Descending(t, i - 1)
      {
        DescendingMembers(t, i - 1, x);
        forall j | 0 <= j < |t| && x in t[j].nodes
          ensures j == i
        {
          assert BucketOk(own, t, j);
        }
      }
      DistinctAppend(t[i].nodes, Descending(t, i - 1));
    }
  }

  lemma VisitedDistinct(own: Id, t: Table, i: nat)
    requires Wf(own, t) && i < |t|
    ensures Distinct(Visited(t, i))
  {
    DescendingDistinct(own, t, i);
    if i == 1 {
      assert BucketOk(own, t, 0) && BucketOk(own, t, 1);
      DistinctAppend(t[1].nodes, t[0].nodes);
    }
  }

  // What a search may return of what it visits, said of each node's own record: with less than two
  // lost pings it is bad only if it has changed its id twice.
  ghost predicate Wanted(ns: Infos, id: Id, onlyGood: bool, exclude: set<Id>) {
    id in ns && id !in exclude && ns[id].idChanges < 2 && ns[id].pingLost < 2 && (onlyGood ==> ns[id].good)
  }

  lemma EligibleIff(ns: Infos, id: Id, onlyGood: bool, exclude: set<Id>)
    ensures Eligible(ns, id, onlyGood, exclude) <==> Wanted(ns, id, onlyGood, exclude)
  {
  }

  /** A search returns distinct eligible nodes, no more than asked for (one if none is asked
      for), and stops short of the limit only when nothing eligible is left to visit. */
  lemma FindNodesSound(own: Id, ns: Infos, t: Table, target: Id, maxCount: int, onlyGood: bool, exclude: set<Id>)
    requires Wf(own, t)
    ensures var r := FindNodes(own, ns, t, target, maxCount, onlyGood, exclude);
      && Distinct(r)
      && (forall x :: x in r ==> Wanted(ns, x, onlyGood, exclude) && Routed(t, x))
      && |r| <= (if maxCount < 1 then 1 else maxCount)
      && (t != [] && |r| < maxCount ==>
            forall x :: x in Visited(t, Owner(own, |t|, target)) && Wanted(ns, x, onlyGood, exclude) ==> x in r)
  {
    if t != [] {
      var i := Owner(own, |t|, target);
      var p := EligibleIn(ns, onlyGood, exclude);
      var all := Filter(Visited(t, i), p);
      VisitedDistinct(own, t, i);
      FilterDistinct(Visited(t, i), p);
      var r := FindNodes(own, ns, t, target, maxCount, onlyGood, exclude);
      assert r == all || (|r| <= |all| && r == all[..|r|]);
      assert forall x :: x in r ==> x in all;
      forall x ensures Eligible(ns, x, onlyGood, exclude) <==> Wanted(ns, x, onlyGood, exclude) {
        EligibleIff(ns, x, onlyGood, exclude);
      }
      forall x | x in Visited(t, i)
        ensures Routed(t, x)
      {
        if i != 1 {
          DescendingMembers(t, i, x);
        }
      }
    }
  }

  // ---------------------------------------------------------------- the search loop

  function EligibleIn(ns: Infos, onlyGood: bool, exclude: set<Id>): Id -> bool {
    (id: Id) => Eligible(ns, id, onlyGood, exclude)
  }

  // One bucket's turn: its eligible nodes not yet taken are taken until the limit is reached.
  function Gathered(have: seq<Id>, more: seq<Id>, p: Id -> bool, limit: nat): (r: seq<Id>)
    decreases |more|
  {
    if more == [] || |have| >= limit then have
    else Gathered(if p(more[0]) && more[0] !in have then have + [more[0]] else have, more[1..], p, limit)
  }

  // The loop over the skew, from `skew` on.
  function SearchFrom(t: Table, target: Id, have: seq<Id>, skew: nat, p: Id -> bool, limit: nat): (r: seq<Id>)
    decreases ID_BITS - skew
  {
    if skew >= ID_BITS || |have| >= limit then have
    else
      var i := FindRoute(t, target, 0, skew);
      SearchFrom(t, target, if i < 0 then have else Gathered(have, t[i].nodes, p, limit), skew + 1, p, limit)
  }

  lemma {:induction false} GatheredKnown(have: seq<Id>, more: seq<Id>, p: Id -> bool, limit: nat)
    requires forall x :: x in more && p(x) ==> x in have
    ensures Gathered(have, more, p, limit) == have
    decreases |more|
  {
    if more != [] && |have| < limit {
      GatheredKnown(have, more[1..], p, limit);
    }
  }

  lemma {:induction false} GatheredNew(have: seq<Id>, more: seq<Id>, p: Id -> bool, limit: nat)
    requires Distinct(more) && (forall x :: x in more ==> x !in have) && |have| < limit
    ensures Gathered(have, more, p, limit) == Take(have + Filter(more, p), limit)
    decreases |more|
  {
    if more != [] {
      var have1 := if p(more[0]) then have + [more[0]] else have;
      assert have + Filter(more, p) == have1 + Filter(more[1..], p);
      if |have1| < limit {
        GatheredNew(have1, more[1..], p, limit);
      }
    }
  }

  lemma {:induction false} SeenMembers(t: Table, i: nat, s: nat, x: Id)
    requires i < |t|
    ensures x in SeenBySkew(t, i, s) <==> exists k :: 0 <= k < s && x in t[SkewedOwner(i, k)].nodes
    decreases s
  {
    if s > 0 {
      SeenMembers(t, i, s - 1, x);
      if x in SeenBySkew(t, i, s) && x !in SeenBySkew(t, i, s - 1) {
        assert x in t[SkewedOwner(i, s - 1)].nodes;
      }
      if k :| 0 <= k < s && x in t[SkewedOwner(i, k)].nodes {
        if k == s - 1 && s > 1 && SkewedOwner(i, s - 1) == SkewedOwner(i, s - 2) {
          assert x in t[SkewedOwner(i, s - 2)].nodes;
        }
      }
    }
  }

  // The bucket found at skew s is either the one found just before, or disjoint from all seen.
  lemma NextBucketIsNew(own: Id, t: Table, i: nat, s: nat, x: Id)
    requires Wf(own, t) && i < |t|
    requires s == 0 || SkewedOwner(i, s) != SkewedOwner(i, s - 1)
    requires x in t[SkewedOwner(i, s)].nodes
    ensures x !in SeenBySkew(t, i, s)
  {
    SeenMembers(t, i, s, x);
    assert BucketOk(own, t, SkewedOwner(i, s));
    forall k | 0 <= k < s
      ensures x !in t[SkewedOwner(i, k)].nodes
    {
      SkewedOwnerDescends(i, k, s);
      assert BucketOk(own, t, SkewedOwner(i, k));
    }
  }

  lemma {:induction false} SeenGrows(t: Table, i: nat, s: nat, s': nat)
    requires i < |t| && s <= s'
    ensures SeenBySkew(t, i, s) <= SeenBySkew(t, i, s')
    decreases s' - s
  {
    if s < s' {
      SeenGrows(t, i, s, s' - 1);
    }
  }

  lemma FilterOfPrefix(s: seq<Id>, s': seq<Id>, p: Id -> bool)
    requires s <= s'
    ensures Filter(s, p) <= Filter(s', p)
  {
    assert s' == s + s'[|s|..];
    FilterAppend(s, s'[|s|..], p);
  }

  lemma OneTurn(own: Id, t: Table, i: nat, s: nat, p: Id -> bool, limit: nat)
    requires Wf(own, t) && i < |t| && |Filter(SeenBySkew(t, i, s), p)| < limit
    ensures Gathered(Filter(SeenBySkew(t, i, s), p), t[SkewedOwner(i, s)].nodes, p, limit)
         == Take(Filter(SeenBySkew(t, i, s + 1), p), limit)
  {
    var k := SkewedOwner(i, s);
    var have := Filter(SeenBySkew(t, i, s), p);
    if s > 0 && k == SkewedOwner(i, s - 1) {
      assert SeenBySkew(t, i, s + 1) == SeenBySkew(t, i, s);
      forall x | x in t[k].nodes && p(x)
        ensures x in have
      {
        SeenMembers(t, i, s, x);
      }
      GatheredKnown(have, t[k].nodes, p, limit);
    } else {
      FilterAppend(SeenBySkew(t, i, s), t[k].nodes, p);
      assert BucketOk(own, t, k);
      forall x | x in t[k].nodes
        ensures x !in have
      {
        NextBucketIsNew(own, t, i, s, x);
      }
      GatheredNew(have, t[k].nodes, p, limit);
    }
  }

  lemma {:induction false} SearchFromSeen(own: Id, t: Table, target: Id, s: nat, p: Id -> bool, limit: nat)
    requires Wf(own, t) && t != [] && s <= ID_BITS && limit > 0
    requires |Filter(SeenBySkew(t, Owner(own, |t|, target), s), p)| < limit
    ensures SearchFrom(t, target, Filter(SeenBySkew(t, Owner(own, |t|, target), s), p), s, p, limit)
         == Take(Filter(SeenBySkew(t, Owner(own, |t|, target), ID_BITS), p), limit)
    decreases ID_BITS - s
  {
    hide Gathered, Filter;
    var i := Owner(own, |t|, target);
    if s < ID_BITS {
      FindRouteSkewed(own, t, target, s);
      OneTurn(own, t, i, s, p, limit);
      var next := Filter(SeenBySkew(t, i, s + 1), p);
      if |next| < limit {
        SearchFromSeen(own, t, target, s + 1, p, limit);
      } else {
        SeenGrows(t, i, s + 1, ID_BITS);
        FilterOfPrefix(SeenBySkew(t, i, s + 1), SeenBySkew(t, i, ID_BITS), p);
      }
    }
  }

  /** The search loop, with its repeated scans at growing skew, finds exactly the first
      eligible nodes in the order of visiting. */
  lemma SearchLoopFinds(own: Id, ns: Infos, t: Table, target: Id, maxCount: int, onlyGood: bool, exclude: set<Id>)
    requires Wf(own, t)
    ensures SearchFrom(t, target, [], 0, EligibleIn(ns, onlyGood, exclude), if maxCount < 1 then 1 else maxCount)
         == FindNodes(own, ns, t, target, maxCount, onlyGood, exclude)
  {
    var p := EligibleIn(ns, onlyGood, exclude);
    var limit := if maxCount < 1 then 1 else maxCount;
    if t == [] {
      SearchEmpty(target, 0, p, limit);
    } else {
      var i := Owner(own, |t|, target);
      SeenIsVisited(t, i, ID_BITS);
      SearchFromSeen(own, t, target, 0, p, limit);
    }
  }

  lemma {:induction false} SearchEmpty(target: Id, skew: nat, p: Id -> bool, limit: nat)
    ensures SearchFrom([], target, [], skew, p, limit) == []
    decreases ID_BITS - skew
  {
    if skew < ID_BITS {
      SearchEmpty(target, skew + 1, p, limit);
    }
  }
}

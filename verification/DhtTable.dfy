/**
 The routing table as a value: what the routing code of DHT.cc computes, stated
 on sequences of buckets, and the laws of the table that every operation keeps.
 The classes of module Dht are proved to compute these functions in place.
 */
module DhtTable {
  import opened DhtBits
  import opened Sequences

  // Bucket size of BEP 5; a bucket holds K stable nodes and up to K candidates behind them.
  const K: nat := 8

  // A node address in compact form.
  type Addr = seq<Byte>

  // What the routing table consults about a node.
  datatype Info = Info(addr: Addr, good: bool, responded: bool, pingLost: nat, idChanges: nat) {
    predicate IsBad() {
      (!good && pingLost >= 2) || idChanges >= 2
    }
  }

  type Infos = map<Id, Info>

  predicate Good(ns: Infos, id: Id) { id in ns && ns[id].good }
  predicate Bad(ns: Infos, id: Id) { id in ns && ns[id].IsBad() }
  predicate Responded(ns: Infos, id: Id) { id in ns && ns[id].responded }

  function Is(id: Id): Id -> bool { (x: Id) => x == id }
  function BadIn(ns: Infos): Id -> bool { (x: Id) => Bad(ns, x) }
  function SilentIn(ns: Infos): Id -> bool { (x: Id) => !Responded(ns, x) }
  function UselessIn(ns: Infos): Id -> bool { (x: Id) => !Good(ns, x) && !Responded(ns, x) }

  datatype RawBucket = Bucket(bits: nat, prefix: seq<Byte>, nodes: seq<Id>) {
    predicate HasPrefix() {
      bits <= ID_BITS && |prefix| >= (bits + 7) / 8
    }
  }

  // The constructor's assertion: the prefix string is long enough for its bit count.
  type Bucket = b: RawBucket | b.HasPrefix() witness Bucket(0, [], [])

  type Table = seq<Bucket>

  predicate Matches(b: Bucket, id: Id, skew: nat) {
    PrefixMatch(b.prefix, b.bits, id, skew)
  }

  // ---------------------------------------------------------------- searching

  function FindRoute(t: Table, id: Id, start: nat, skew: nat): (r: int)
    requires start <= |t|
    ensures r == -1 || start <= r < |t|
    ensures r >= 0 ==> Matches(t[r], id, skew)
    ensures forall j :: start <= j < (if r >= 0 then r else |t|) ==> !Matches(t[j], id, skew)
    decreases |t| - start
  {
    if start == |t| then -1
    else if Matches(t[start], id, skew) then start
    else FindRoute(t, id, start + 1, skew)
  }

  // ---------------------------------------------------------------- layout

  // Number of prefix bits of bucket i of `count`: the two deepest buckets are siblings.
  function BitsAt(count: nat, i: nat): nat
    requires i < count
  {
    if i == 0 then count - 1 else count - i
  }

  // The prefix is our own id's, with its last bit flipped if `flip`, and is clear beyond its bit count.
  ghost predicate PrefixOf(own: Id, b: Bucket, flip: bool) {
    && |b.prefix| == (b.bits + 7) / 8
    && (forall k: nat :: k < b.bits ==> Bit(b.prefix, k) == (Bit(own, k) != (flip && k == b.bits - 1)))
    && (forall k: nat :: b.bits <= k < 8 * |b.prefix| ==> !Bit(b.prefix, k))
  }

  ghost predicate Layout(own: Id, t: Table) {
    && |t| <= ID_BITS + 1
    && (forall i :: 0 <= i < |t| ==> t[i].bits == BitsAt(|t|, i))
    && (forall i :: 0 <= i < |t| ==> PrefixOf(own, t[i], i > 0))
  }

  // The bucket an id belongs to, by the length of the prefix it shares with our own id.
  function Owner(own: Id, count: nat, id: Id): (i: nat)
    requires count > 0
    ensures i < count
  {
    var c := CommonPrefix(own, id);
    if c >= count - 1 then 0 else count - 1 - c
  }

  lemma PrefixSharesOwn(own: Id, b: Bucket, flip: bool, id: Id, n: int)
    requires PrefixOf(own, b, flip) && n <= b.bits && (flip ==> n < b.bits)
    ensures Agree(b.prefix, id, n) <==> Agree(own, id, n)
  {
    assert forall k: nat :: k < n ==> Bit(b.prefix, k) == Bit(own, k);
  }

  // A whole flipped prefix matches exactly the ids that leave our own id at its last bit.
  lemma FlippedPrefixLeavesOwn(own: Id, b: Bucket, id: Id)
    requires PrefixOf(own, b, true) && b.bits > 0
    ensures Agree(b.prefix, id, b.bits) <==> CommonPrefix(own, id) == b.bits - 1
  {
    var m := b.bits - 1;
    PrefixSharesOwn(own, b, true, id, m);
    assert Agree(own, id, m) <==> CommonPrefix(own, id) >= m;
    assert Agree(own, id, m + 1) <==> CommonPrefix(own, id) >= m + 1;
    assert Agree(b.prefix, id, b.bits) <==> (Agree(b.prefix, id, m) && Bit(b.prefix, m) == Bit(id, m));
    assert Agree(own, id, m + 1) <==> (Agree(own, id, m) && Bit(own, m) == Bit(id, m));
  }

  // The buckets partition the id space: each id matches its owner bucket and no other.
  lemma MatchIffOwner(own: Id, t: Table, i: nat, id: Id)
    requires Layout(own, t) && i < |t|
    ensures Matches(t[i], id, 0) <==> i == Owner(own, |t|, id)
  {
    PrefixMatchIsAgree(t[i].prefix, t[i].bits, id, 0);
    if i == 0 {
      PrefixSharesOwn(own, t[0], false, id, t[0].bits);
    } else {
      FlippedPrefixLeavesOwn(own, t[i], id);
    }
  }

  // With a positive skew every prefix is one of our own id's, so a match is a matter of length.
  lemma MatchSkewed(own: Id, t: Table, i: nat, id: Id, skew: nat)
    requires Layout(own, t) && i < |t| && skew > 0
    ensures Matches(t[i], id, skew) <==> CommonPrefix(own, id) >= BitsAt(|t|, i) - skew
  {
    var n := t[i].bits - skew;
    PrefixMatchIsAgree(t[i].prefix, t[i].bits, id, skew);
    PrefixSharesOwn(own, t[i], i > 0, id, n);
    if n >= 0 {
      assert Agree(own, id, n) <==> n <= CommonPrefix(own, id);
    }
  }

  // The linear scan finds the owner bucket; it fails only when there are no buckets.
  lemma FindRouteIsOwner(own: Id, t: Table, id: Id)
    requires Layout(own, t) && t != []
    ensures FindRoute(t, id, 0, 0) == Owner(own, |t|, id)
  {
    MatchIffOwner(own, t, Owner(own, |t|, id), id);
    var r := FindRoute(t, id, 0, 0);
    if r >= 0 {
      MatchIffOwner(own, t, r, id);
    }
  }

  // The bucket a skewed scan ends in, from the owner `i` of the searched id.
  function SkewedOwner(i: nat, skew: nat): nat {
    if skew == 0 then i else if skew >= i then 0 else i + 1 - skew
  }

  lemma FindRouteSkewed(own: Id, t: Table, id: Id, skew: nat)
    requires Layout(own, t) && t != []
    ensures FindRoute(t, id, 0, skew) == SkewedOwner(Owner(own, |t|, id), skew)
  {
    if skew == 0 {
      FindRouteIsOwner(own, t, id);
    } else {
      var e := SkewedOwner(Owner(own, |t|, id), skew);
      MatchSkewed(own, t, e, id, skew);
      var r := FindRoute(t, id, 0, skew);
      if r >= 0 {
        MatchSkewed(own, t, r, id, skew);
      }
    }
  }

  // ---------------------------------------------------------------- splitting

  // The prefix grown to hold one more bit; the new bit is clear.
  function GrownPrefix(b: Bucket): (p: seq<Byte>)
    requires b.bits < ID_BITS
    ensures |p| >= (b.bits + 8) / 8
  {
    if |b.prefix| <= b.bits / 8 then b.prefix + [0] else b.prefix
  }

  function OnSide(k: nat, side: bool): Id -> bool
    requires k < ID_BITS
  {
    (id: Id) => Bit(id, k) == side
  }

  function Half(b: Bucket, side: bool): (h: Bucket)
    requires b.bits < ID_BITS
  {
    var p := GrownPrefix(b);
    var byte := b.bits / 8;
    Bucket(b.bits + 1,
           if side then p[byte := p[byte] | BitMask(b.bits % 8)] else p,
           Filter(b.nodes, OnSide(b.bits, side)))
  }

  // Bucket 0 replaced by its halves, the one on our own id's side first.
  function Divided(own: Id, t: Table): (r: Table)
    requires |t| > 0 && t[0].bits < ID_BITS
  {
    var side := Bit(own, t[0].bits);
    [Half(t[0], side), Half(t[0], !side)] + t[1..]
  }

  function SplitRoute0(own: Id, ns: Infos, t: Table, loading: bool): (r: Option<Table>)
    requires |t| > 0
  {
    var b := t[0];
    if |b.nodes| < K || b.bits >= ID_BITS then None
    else if |t| > 1 && (forall id | id in t[1].nodes :: !Good(ns, id)) && !loading then None
    else Some(Divided(own, t))
  }

  function SplitsLeft(t: Table): nat {
    if t == [] then ID_BITS else ID_BITS - t[0].bits
  }

  lemma GrownPrefixBits(own: Id, b: Bucket)
    requires b.bits < ID_BITS && PrefixOf(own, b, false)
    ensures |GrownPrefix(b)| == (b.bits + 8) / 8
    ensures forall k: nat :: k < 8 * |GrownPrefix(b)| ==> Bit(GrownPrefix(b), k) == (k < b.bits && Bit(own, k))
  {
    var p := GrownPrefix(b);
    forall k: nat | k < 8 * |p|
      ensures Bit(p, k) == (k < b.bits && Bit(own, k))
    {
      if k / 8 < |b.prefix| {
        assert Bit(p, k) == Bit(b.prefix, k);
      } else {
        assert p[k / 8] == 0;
      }
    }
  }

  lemma HalfPrefix(own: Id, b: Bucket, side: bool)
    requires b.bits < ID_BITS && PrefixOf(own, b, false)
    ensures PrefixOf(own, Half(b, side), side != Bit(own, b.bits))
  {
    GrownPrefixBits(own, b);
    var p := GrownPrefix(b);
    var h := Half(b, side);
    forall k: nat | k < 8 * |p|
      ensures Bit(h.prefix, k) == (if k == b.bits then side else k < b.bits && Bit(own, k))
    {
      if k / 8 == b.bits / 8 {
        SetBitOnly(p[k / 8], b.bits % 8, k % 8);
        assert k == b.bits <==> k % 8 == b.bits % 8;
      } else {
        assert h.prefix[k / 8] == p[k / 8];
      }
    }
  }

  lemma SiblingsKeepLayout(own: Id, t: Table, h0: Bucket, h1: Bucket)
    requires Layout(own, t) && t != [] && t[0].bits < ID_BITS
    requires h0.bits == h1.bits == t[0].bits + 1
    requires PrefixOf(own, h0, false) && PrefixOf(own, h1, true)
    ensures Layout(own, [h0, h1] + t[1..])
  {
    var s := [h0, h1] + t[1..];
    forall i | 0 <= i < |s|
      ensures s[i].bits == BitsAt(|s|, i) && PrefixOf(own, s[i], i > 0)
    {
      if i >= 2 {
        assert s[i] == t[i - 1];
      }
    }
  }

  // Splitting keeps the layout; in particular bucket 0 still matches our own id.
  lemma SplitKeepsLayout(own: Id, ns: Infos, t: Table, loading: bool)
    requires Layout(own, t) && t != []
    ensures var r := SplitRoute0(own, ns, t, loading);
      r.Some? ==> (Layout(own, r.value) && |r.value| == |t| + 1 && Matches(r.value[0], own, 0)
                   && SplitsLeft(r.value) < SplitsLeft(t))
  {
    var r := SplitRoute0(own, ns, t, loading);
    if r.Some? {
      var side := Bit(own, t[0].bits);
      HalfPrefix(own, t[0], side);
      HalfPrefix(own, t[0], !side);
      SiblingsKeepLayout(own, t, Half(t[0], side), Half(t[0], !side));
      MatchIffOwner(own, r.value, 0, own);
    }
  }

  // ---------------------------------------------------------------- adding

  // Number of nodes that are not good, among the first K.
  function NotGood(ns: Infos, nodes: seq<Id>): (n: nat)
    ensures n <= |nodes|
  {
    if nodes == [] then 0
    else (if Good(ns, nodes[0]) then 0 else 1) + NotGood(ns, nodes[1..])
  }

  function Stable(nodes: seq<Id>): seq<Id> {
    if |nodes| < K then nodes else nodes[..K]
  }

  // How many questionable stable nodes are found when the scan stops at `limit` of them.
  function Questionable(ns: Infos, nodes: seq<Id>, limit: int): (n: nat)
  {
    var q := NotGood(ns, Stable(nodes));
    if limit < 0 then 0 else if limit < q then limit else q
  }

  // A stable node that was seen again moves to the end of the K stable ones.
  function Refreshed<X>(nodes: seq<X>, j: nat): (r: seq<X>)
    requires j < |nodes|
  {
    if j >= K then nodes
    else
      var rest := RemoveAt(nodes, j);
      if |rest| < K then rest + [nodes[j]]
      else rest[..K - 1] + [nodes[j]] + rest[K - 1..]
  }

  // Up to three evictions from a full bucket: a bad node; then, away from bucket 0, a node
  // that never responded if the newcomer has; then a non-good node that never responded.
  function WithoutBad(ns: Infos, nodes: seq<Id>): seq<Id> {
    if |nodes| >= K then RemoveFirst(nodes, BadIn(ns)) else nodes
  }

  function WithoutSilent(ns: Infos, i: nat, nodes: seq<Id>, newcomer: Id): seq<Id> {
    if i > 0 && |nodes| >= K && Responded(ns, newcomer) then RemoveFirst(nodes, SilentIn(ns)) else nodes
  }

  function WithoutUseless(ns: Infos, i: nat, nodes: seq<Id>): seq<Id> {
    if i > 0 && |nodes| >= K then RemoveFirst(nodes, UselessIn(ns)) else nodes
  }

  function MakeRoom(ns: Infos, i: nat, nodes: seq<Id>, newcomer: Id): (r: seq<Id>) {
    WithoutUseless(ns, i, WithoutSilent(ns, i, WithoutBad(ns, nodes), newcomer))
  }

  function WithNodes(t: Table, i: nat, nodes: seq<Id>): (r: Table)
    requires i < |t|
    ensures |r| == |t|
    ensures forall j :: 0 <= j < |t| ==> r[j].bits == t[j].bits && r[j].prefix == t[j].prefix
    ensures forall j :: 0 <= j < |t| ==> r[j].nodes == if j == i then nodes else t[j].nodes
  {
    t[i := Bucket(t[i].bits, t[i].prefix, nodes)]
  }

  // An empty table first gets its root bucket.
  function Rooted(t: Table): (r: Table)
    ensures r != []
  {
    if t == [] then [Bucket(0, [], [])] else t
  }

  // The outcome of one attempt to add a node: done, or bucket 0 was split and it is tried again.
  datatype Attempt = Done(table: Table) | TryAgain(table: Table)

  // What becomes of a newcomer once room has been made in its bucket i.
  function Admit(own: Id, ns: Infos, t: Table, i: nat, id: Id, loading: bool): (r: Attempt)
    requires i < |t|
  {
    var nodes := t[i].nodes;
    var split := if i == 0 && |nodes| >= K then SplitRoute0(own, ns, t, loading) else None;
    var full := |nodes| >= K && |nodes| >= K + Questionable(ns, nodes, |nodes| - K + 1);
    if split.Some? && (loading || full) then TryAgain(split.value)
    else if full then Done(t)
    else Done(WithNodes(t, i, nodes + [id]))
  }

  function AttemptIn(own: Id, ns: Infos, t: Table, i: nat, id: Id, loading: bool): (r: Attempt)
    requires i < |t|
  {
    var j := IndexWhere(t[i].nodes, Is(id));
    if j < |t[i].nodes| then Done(WithNodes(t, i, Refreshed(t[i].nodes, j)))
    else Admit(own, ns, WithNodes(t, i, MakeRoom(ns, i, t[i].nodes, id)), i, id, loading)
  }

  lemma WithNodesKeepsLayout(own: Id, t: Table, i: nat, nodes: seq<Id>)
    requires Layout(own, t) && i < |t|
    ensures Layout(own, WithNodes(t, i, nodes))
  {
    var r := WithNodes(t, i, nodes);
    forall j | 0 <= j < |r|
      ensures r[j].bits == BitsAt(|r|, j) && PrefixOf(own, r[j], j > 0)
    {
      assert PrefixOf(own, t[j], j > 0);
    }
  }

  lemma AttemptKeepsLayout(own: Id, ns: Infos, t: Table, i: nat, id: Id, loading: bool)
    requires Layout(own, t) && i < |t|
    ensures var r := AttemptIn(own, ns, t, i, id, loading);
      Layout(own, r.table) && (r.TryAgain? ==> SplitsLeft(r.table) < SplitsLeft(t))
  {
    var nodes := MakeRoom(ns, i, t[i].nodes, id);
    var t1 := WithNodes(t, i, nodes);
    WithNodesKeepsLayout(own, t, i, nodes);
    WithNodesKeepsLayout(own, t1, i, nodes + [id]);
    SplitKeepsLayout(own, ns, t1, loading);
    var j := IndexWhere(t[i].nodes, Is(id));
    if j < |t[i].nodes| {
      WithNodesKeepsLayout(own, t, i, Refreshed(t[i].nodes, j));
    }
  }

  // ---------------------------------------------------------------- what every operation keeps

  // Each bucket holds distinct ids that belong to it, K stable ones and at most K candidates.
  ghost predicate BucketOk(own: Id, t: Table, i: nat)
    requires i < |t|
  {
    && Distinct(t[i].nodes)
    && |t[i].nodes| <= 2 * K
    && forall id :: id in t[i].nodes ==> Owner(own, |t|, id) == i
  }

  ghost predicate Sound(own: Id, t: Table) {
    forall i :: 0 <= i < |t| ==> BucketOk(own, t, i)
  }

  ghost predicate Wf(own: Id, t: Table) {
    Layout(own, t) && |t| <= ID_BITS && Sound(own, t)
  }

  ghost predicate Routed(t: Table, id: Id) {
    exists i :: 0 <= i < |t| && id in t[i].nodes
  }

  lemma RoutedInOwner(own: Id, t: Table, id: Id)
    requires Sound(own, t)
    ensures Routed(t, id) <==> t != [] && id in t[Owner(own, |t|, id)].nodes
  {
    if Routed(t, id) {
      var i :| 0 <= i < |t| && id in t[i].nodes;
      assert BucketOk(own, t, i);
    }
  }

  lemma RemoveFirstDistinct(s: seq<Id>, p: Id -> bool)
    requires Distinct(s)
    ensures Distinct(RemoveFirst(s, p))
    ensures forall x :: x in RemoveFirst(s, p) ==> x in s
    ensures forall x :: x in s && x !in RemoveFirst(s, p) ==> p(x)
  {
    var i := IndexWhere(s, p);
    if i < |s| {
      RemoveAtDistinct(s, i);
    }
  }

  // Room is made only by evicting nodes that are bad or have never responded.
  lemma MakeRoomEvicts(ns: Infos, i: nat, nodes: seq<Id>, id: Id)
    requires Distinct(nodes)
    ensures var r := MakeRoom(ns, i, nodes, id);
      && Distinct(r) && |r| <= |nodes| && (forall x :: x in r ==> x in nodes)
      && (|nodes| < K ==> r == nodes)
      && (forall x :: x in nodes && x !in r ==> Bad(ns, x) || !Responded(ns, x))
  {
    RemoveFirstDistinct(nodes, BadIn(ns));
    var n1 := WithoutBad(ns, nodes);
    RemoveFirstDistinct(n1, SilentIn(ns));
    var n2 := WithoutSilent(ns, i, n1, id);
    RemoveFirstDistinct(n2, UselessIn(ns));
  }

  // The ping-limited scan decides exactly whether the candidates already cover every
  // questionable stable node.
  lemma FullIffCandidatesSuffice(ns: Infos, nodes: seq<Id>)
    requires |nodes| >= K
    ensures |nodes| >= K + Questionable(ns, nodes, |nodes| - K + 1)
        <==> |nodes| - K >= NotGood(ns, nodes[..K])
  {
  }

  // Node by node: those after j move up, and j's goes to the end of the stable ones.
  lemma RefreshedAt<X>(nodes: seq<X>, j: nat)
    requires j < |nodes|
    ensures |Refreshed(nodes, j)| == |nodes|
    ensures var m := if |nodes| < K then |nodes| - 1 else K - 1;
      forall k :: 0 <= k < |nodes| ==>
        Refreshed(nodes, j)[k] == nodes[if k < j || k > m then k else if k < m then k + 1 else j]
  {
  }

  lemma RefreshedIsPermutation(nodes: seq<Id>, j: nat)
    requires j < |nodes| && Distinct(nodes)
    ensures var r := Refreshed(nodes, j);
      && |r| == |nodes| && Distinct(r)
      && (forall x :: x in r <==> x in nodes)
      && (|nodes| > K ==> r[K..] == nodes[K..])
      && (j < K ==> r[if |nodes| < K then |nodes| - 1 else K - 1] == nodes[j])
  {
    var r := Refreshed(nodes, j);
    if j < K {
      var rest := RemoveAt(nodes, j);
      RemoveAtDistinct(nodes, j);
      var m := if |rest| < K then |rest| else K - 1;
      assert r == rest[..m] + [nodes[j]] + rest[m..];
      forall x
        ensures x in r <==> x in nodes
      {
        assert x in rest <==> x in rest[..m] || x in rest[m..] by { assert rest == rest[..m] + rest[m..]; }
      }
    }
  }

  // Ids that share all but their last bit are at most two, so three distinct ones do not exist.
  lemma SharesPrefix(own: Id, a: Id, n: nat)
    requires CommonPrefix(own, a) >= n && n <= ID_BITS
    ensures Agree(own, a, n)
  {
  }

  lemma AgreeToTheLast(own: Id, a: Id, b: Id)
    requires Agree(own, a, ID_BITS - 1) && Agree(own, b, ID_BITS - 1) && Bit(a, ID_BITS - 1) == Bit(b, ID_BITS - 1)
    ensures Agree(a, b, ID_BITS)
  {
  }

  lemma AgreeOnAll(a: Id, b: Id)
    requires Agree(a, b, ID_BITS)
    ensures a == b
  {
    assert CommonPrefix(a, b) == ID_BITS;
  }

  lemma SameLastBit(own: Id, a: Id, b: Id)
    requires CommonPrefix(own, a) >= ID_BITS - 1 && CommonPrefix(own, b) >= ID_BITS - 1
    requires Bit(a, ID_BITS - 1) == Bit(b, ID_BITS - 1)
    ensures a == b
  {
    hide CommonPrefix, Agree;
    SharesPrefix(own, a, ID_BITS - 1);
    SharesPrefix(own, b, ID_BITS - 1);
    AgreeToTheLast(own, a, b);
    AgreeOnAll(a, b);
  }

  lemma AtMostTwoAtLastBit(own: Id, a: Id, b: Id, c: Id)
    requires CommonPrefix(own, a) >= ID_BITS - 1 && CommonPrefix(own, b) >= ID_BITS - 1
    requires CommonPrefix(own, c) >= ID_BITS - 1
    ensures a == b || a == c || b == c
  {
    var m := ID_BITS - 1;
    if Bit(a, m) == Bit(b, m) {
      SameLastBit(own, a, b);
    } else if Bit(a, m) == Bit(c, m) {
      SameLastBit(own, a, c);
    } else {
      SameLastBit(own, b, c);
    }
  }

  // A bucket full enough to be split has a bit left to split on.
  lemma FullBucketHasABit(own: Id, t: Table)
    requires Layout(own, t) && t != [] && BucketOk(own, t, 0) && |t[0].nodes| >= K
    ensures t[0].bits < ID_BITS - 1
  {
    if t[0].bits >= ID_BITS - 1 {
      var n := t[0].nodes;
      assert n[0] in n && n[1] in n && n[2] in n;
      AtMostTwoAtLastBit(own, n[0], n[1], n[2]);
    }
  }

  lemma WithNodesKeepsWf(own: Id, t: Table, i: nat, nodes: seq<Id>)
    requires Wf(own, t) && i < |t|
    requires Distinct(nodes) && |nodes| <= 2 * K && (forall x :: x in nodes ==> Owner(own, |t|, x) == i)
    ensures Wf(own, WithNodes(t, i, nodes))
  {
    WithNodesKeepsLayout(own, t, i, nodes);
    WithNodesKeepsSound(own, t, i, nodes);
  }

  // A split moves no id out of the table, and each to the bucket that now owns it.
  lemma DividedKeepsSound(own: Id, t: Table)
    requires Wf(own, t) && t != [] && t[0].bits < ID_BITS
    ensures Sound(own, Divided(own, t))
    ensures forall x :: Routed(Divided(own, t), x) <==> Routed(t, x)
  {
    var s := Divided(own, t);
    forall i | 0 <= i < |s|
      ensures BucketOk(own, s, i)
    {
      SplitBucketOk(own, t, s, Bit(own, t[0].bits), i);
    }
    forall x
      ensures Routed(s, x) <==> Routed(t, x)
    {
      SplitRouted(t, s, Bit(own, t[0].bits), x);
    }
  }

  lemma SplitKeepsWf(own: Id, ns: Infos, t: Table, loading: bool)
    requires Wf(own, t) && t != []
    ensures var r := SplitRoute0(own, ns, t, loading);
      r.Some? ==> Wf(own, r.value) && forall x :: Routed(r.value, x) <==> Routed(t, x)
  {
    if SplitRoute0(own, ns, t, loading).Some? {
      SplitKeepsLayout(own, ns, t, loading);
      assert BucketOk(own, t, 0);
      FullBucketHasABit(own, t);
      DividedKeepsSound(own, t);
    }
  }

  lemma OwnerAfterSplit(own: Id, count: nat, id: Id)
    requires 0 < count <= ID_BITS
    ensures Owner(own, count, id) > 0 ==> Owner(own, count + 1, id) == Owner(own, count, id) + 1
    ensures Owner(own, count, id) == 0 ==>
      Owner(own, count + 1, id) == if Bit(own, count - 1) == Bit(id, count - 1) then 0 else 1
  {
    var c := CommonPrefix(own, id);
    if c >= count - 1 {
      assert Agree(own, id, count - 1);
      assert Agree(own, id, count) <==> Bit(own, count - 1) == Bit(id, count - 1);
      assert Agree(own, id, count) <==> c >= count;
    }
  }

  lemma SplitBucketOk(own: Id, t: Table, s: Table, side: bool, i: nat)
    requires Wf(own, t) && t != [] && t[0].bits < ID_BITS && side == Bit(own, t[0].bits)
    requires s == [Half(t[0], side), Half(t[0], !side)] + t[1..] && i < |s|
    ensures BucketOk(own, s, i)
  {
    hide PrefixOf, Half, Owner;
    if i < 2 {
      var mine := if i == 0 then side else !side;
      assert BucketOk(own, t, 0) && s[i] == Half(t[0], mine);
      HalfOf(t[0], mine);
      forall id | id in s[i].nodes
        ensures Owner(own, |s|, id) == i
      {
        OwnerAfterSplit(own, |t|, id);
      }
    } else {
      assert s[i] == t[i - 1];
      assert BucketOk(own, t, i - 1);
      forall id | id in s[i].nodes
        ensures Owner(own, |s|, id) == i
      {
        OwnerAfterSplit(own, |t|, id);
      }
    }
  }

  lemma HalfOf(b: Bucket, mine: bool)
    requires b.bits < ID_BITS && Distinct(b.nodes)
    ensures Distinct(Half(b, mine).nodes) && |Half(b, mine).nodes| <= |b.nodes|
    ensures forall id :: id in Half(b, mine).nodes ==> id in b.nodes && Bit(id, b.bits) == mine
  {
    FilterDistinct(b.nodes, OnSide(b.bits, mine));
  }

  lemma SplitRouted(t: Table, s: Table, side: bool, x: Id)
    requires t != [] && t[0].bits < ID_BITS
    requires s == [Half(t[0], side), Half(t[0], !side)] + t[1..]
    ensures Routed(s, x) <==> Routed(t, x)
  {
    hide Half;
    HalvesTogether(t[0], side, x);
    RoutedInParts([t[0]], t[1..], x);
    RoutedInParts([s[0], s[1]], t[1..], x);
    RoutedInParts([s[0]], [s[1]], x);
    assert t == [t[0]] + t[1..];
    assert [s[0], s[1]] == [s[0]] + [s[1]];
    RoutedInOne(t[0], x);
    RoutedInOne(s[0], x);
    RoutedInOne(s[1], x);
  }

  lemma HalvesTogether(b: Bucket, side: bool, x: Id)
    requires b.bits < ID_BITS
    ensures x in b.nodes <==> x in Half(b, side).nodes || x in Half(b, !side).nodes
  {
  }

  lemma RoutedInParts(t: Table, u: Table, x: Id)
    ensures Routed(t + u, x) <==> Routed(t, x) || Routed(u, x)
  {
    if i :| 0 <= i < |t| && x in t[i].nodes {
      assert (t + u)[i] == t[i];
    }
    if i :| 0 <= i < |u| && x in u[i].nodes {
      assert (t + u)[|t| + i] == u[i];
    }
  }

  lemma RoutedInOne(b: Bucket, x: Id)
    ensures Routed([b], x) <==> x in b.nodes
  {
    assert [b][0] == b;
  }

  lemma NewcomerKeepsSound(own: Id, t: Table, i: nat, id: Id)
    requires Sound(own, t) && i < |t| && i == Owner(own, |t|, id)
    requires |t[i].nodes| < 2 * K && id !in t[i].nodes
    ensures Sound(own, WithNodes(t, i, t[i].nodes + [id]))
    ensures forall x :: Routed(WithNodes(t, i, t[i].nodes + [id]), x) <==> Routed(t, x) || x == id
  {
    assert BucketOk(own, t, i);
    WithNodesKeepsSound(own, t, i, t[i].nodes + [id]);
    forall x
      ensures Routed(WithNodes(t, i, t[i].nodes + [id]), x) <==> Routed(t, x) || x == id
    {
      RoutedAfterWithNodes(t, i, t[i].nodes + [id], x);
    }
  }

  lemma RefreshKeepsSound(own: Id, t: Table, i: nat, j: nat)
    requires Sound(own, t) && i < |t| && j < |t[i].nodes|
    ensures Sound(own, WithNodes(t, i, Refreshed(t[i].nodes, j)))
    ensures forall x :: Routed(WithNodes(t, i, Refreshed(t[i].nodes, j)), x) <==> Routed(t, x)
  {
    assert BucketOk(own, t, i);
    RefreshedIsPermutation(t[i].nodes, j);
    WithNodesKeepsSound(own, t, i, Refreshed(t[i].nodes, j));
    forall x
      ensures Routed(WithNodes(t, i, Refreshed(t[i].nodes, j)), x) <==> Routed(t, x)
    {
      RoutedAfterWithNodes(t, i, Refreshed(t[i].nodes, j), x);
    }
  }

  lemma MakeRoomKeepsWf(own: Id, ns: Infos, t: Table, i: nat, id: Id)
    requires Wf(own, t) && i < |t|
    ensures Wf(own, WithNodes(t, i, MakeRoom(ns, i, t[i].nodes, id)))
    ensures forall x :: x in MakeRoom(ns, i, t[i].nodes, id) ==> x in t[i].nodes
  {
    assert BucketOk(own, t, i);
    MakeRoomEvicts(ns, i, t[i].nodes, id);
    WithNodesKeepsWf(own, t, i, MakeRoom(ns, i, t[i].nodes, id));
  }

  lemma AttemptKeepsWf(own: Id, ns: Infos, t: Table, i: nat, id: Id, loading: bool)
    requires Wf(own, t) && t != [] && i == Owner(own, |t|, id)
    ensures Wf(own, AttemptIn(own, ns, t, i, id, loading).table)
  {
    hide Layout, Sound, Refreshed, MakeRoom, Admit;
    var nodes := t[i].nodes;
    var j := IndexWhere(nodes, Is(id));
    if j < |nodes| {
      RefreshKeepsSound(own, t, i, j);
      WithNodesKeepsLayout(own, t, i, Refreshed(nodes, j));
    } else {
      RoomWithout(own, ns, t, i, id);
      AdmitKeepsWf(own, ns, WithNodes(t, i, MakeRoom(ns, i, nodes, id)), i, id, loading);
    }
  }

  lemma RoomWithout(own: Id, ns: Infos, t: Table, i: nat, id: Id)
    requires Wf(own, t) && i < |t| && IndexWhere(t[i].nodes, Is(id)) == |t[i].nodes|
    ensures var r := WithNodes(t, i, MakeRoom(ns, i, t[i].nodes, id)); Wf(own, r) && id !in r[i].nodes
  {
    hide Wf, MakeRoom;
    MakeRoomKeepsWf(own, ns, t, i, id);
  }

  lemma AdmitKeepsWf(own: Id, ns: Infos, t: Table, i: nat, id: Id, loading: bool)
    requires Wf(own, t) && t != [] && i == Owner(own, |t|, id) && id !in t[i].nodes
    ensures Wf(own, Admit(own, ns, t, i, id, loading).table)
  {
    hide Layout, Sound, SplitRoute0, Owner, WithNodes;
    var nodes := t[i].nodes;
    SplitKeepsWf(own, ns, t, loading);
    if |nodes| < 2 * K {
      NewcomerKeepsSound(own, t, i, id);
      WithNodesKeepsLayout(own, t, i, nodes + [id]);
    }
  }

  lemma FindRouteInWf(own: Id, t: Table, id: Id)
    requires Wf(own, t) && t != []
    ensures FindRoute(t, id, 0, 0) == Owner(own, |t|, id)
  {
    FindRouteIsOwner(own, t, id);
  }

  // One turn of the adding loop keeps the table well formed, and a split leaves fewer splits.
  lemma AddRouteTurn(own: Id, ns: Infos, t: Table, id: Id, loading: bool)
    requires Wf(own, t) && t != []
    ensures var i := FindRoute(t, id, 0, 0);
      && 0 <= i < |t| && i == Owner(own, |t|, id)
      && var r := AttemptIn(own, ns, t, i, id, loading);
      && Wf(own, r.table) && r.table != []
      && (r.TryAgain? ==> SplitsLeft(r.table) < SplitsLeft(t))
  {
    FindRouteIsOwner(own, t, id);
    var i := FindRoute(t, id, 0, 0);
    AttemptKeepsWf(own, ns, t, i, id, loading);
    AttemptKeepsLayout(own, ns, t, i, id, loading);
  }

  /** Adding a node to the table of a node with id `own`. A full bucket 0 is split and the
      node is tried again; a full other bucket takes the node only as a candidate for a
      questionable stable node. */
  function AddRoute(own: Id, ns: Infos, t: Table, id: Id, loading: bool): (r: Table)
    requires Wf(own, t)
    ensures Wf(own, r) && r != []
    decreases SplitsLeft(t)
  {
    hide Wf, AttemptIn, FindRoute, Owner;
    var t0 := Rooted(t);
    RootedKeepsWf(own, t);
    AddRouteTurn(own, ns, t0, id, loading);
    match AttemptIn(own, ns, t0, FindRoute(t0, id, 0, 0), id, loading)
    case Done(t1) => t1
    case TryAgain(t1) => AddRoute(own, ns, t1, id, loading)
  }

  // What an attempt does to the set of routed ids.
  lemma AttemptRouted(own: Id, ns: Infos, t: Table, i: nat, id: Id, loading: bool, x: Id)
    requires Wf(own, t) && t != [] && i == Owner(own, |t|, id)
    ensures var r := AttemptIn(own, ns, t, i, id, loading);
      && (Routed(r.table, x) ==> Routed(t, x) || (r.Done? && x == id))
      && (Routed(t, x) ==> Routed(r.table, x) || Bad(ns, x) || !Responded(ns, x))
  {
    hide MakeRoom, Admit, Refreshed, Layout, WithNodes;
    assert BucketOk(own, t, i);
    var before := t[i].nodes;
    var j := IndexWhere(before, Is(id));
    if j < |before| {
      RefreshKeepsSound(own, t, i, j);
    } else {
      RoomRouted(own, ns, t, i, id, x);
      AdmitRouted(own, ns, WithNodes(t, i, MakeRoom(ns, i, before, id)), i, id, loading, x);
    }
  }

  lemma RoomRouted(own: Id, ns: Infos, t: Table, i: nat, id: Id, x: Id)
    requires Wf(own, t) && i < |t|
    ensures var r := WithNodes(t, i, MakeRoom(ns, i, t[i].nodes, id));
      && Wf(own, r) && (Routed(r, x) ==> Routed(t, x))
      && (Routed(t, x) ==> Routed(r, x) || Bad(ns, x) || !Responded(ns, x))
  {
    hide MakeRoom, Layout, Routed, WithNodes;
    assert BucketOk(own, t, i);
    MakeRoomEvicts(ns, i, t[i].nodes, id);
    MakeRoomKeepsWf(own, ns, t, i, id);
    RoutedAfterWithNodes(t, i, MakeRoom(ns, i, t[i].nodes, id), x);
  }

  lemma AdmitRouted(own: Id, ns: Infos, t: Table, i: nat, id: Id, loading: bool, x: Id)
    requires Wf(own, t) && i < |t|
    ensures var r := Admit(own, ns, t, i, id, loading);
      && (Routed(r.table, x) ==> Routed(t, x) || (r.Done? && x == id))
      && (Routed(t, x) ==> Routed(r.table, x))
  {
    hide SplitRoute0, Wf, Routed, WithNodes;
    RoutedAfterWithNodes(t, i, t[i].nodes + [id], x);
    SplitKeepsWf(own, ns, t, loading);
  }

  lemma RoutedAfterWithNodes(t: Table, i: nat, nodes: seq<Id>, x: Id)
    requires i < |t|
    ensures Routed(WithNodes(t, i, nodes), x) <==>
      (x in nodes || exists j :: 0 <= j < |t| && j != i && x in t[j].nodes)
    ensures Routed(t, x) <==> (x in t[i].nodes || exists j :: 0 <= j < |t| && j != i && x in t[j].nodes)
  {
    var r := WithNodes(t, i, nodes);
    if x in nodes {
      assert x in r[i].nodes;
    }
    if j :| 0 <= j < |t| && j != i && x in t[j].nodes {
      assert x in r[j].nodes;
    }
  }

  lemma RootedKeepsWf(own: Id, t: Table)
    requires Wf(own, t)
    ensures Wf(own, Rooted(t)) && forall x :: Routed(Rooted(t), x) <==> Routed(t, x)
  {
  }

  /** Adding a node brings no other node into the table and throws out only nodes that are
      bad or have never responded. */
  lemma {:induction false} AddRouteRouted(own: Id, ns: Infos, t: Table, id: Id, loading: bool, x: Id)
    requires Wf(own, t)
    ensures Routed(AddRoute(own, ns, t, id, loading), x) ==> Routed(t, x) || x == id
    ensures Routed(t, x) ==> Routed(AddRoute(own, ns, t, id, loading), x) || Bad(ns, x) || !Responded(ns, x)
    decreases SplitsLeft(t)
  {
    hide Wf, AttemptIn, FindRoute, Owner;
    var t0 := Rooted(t);
    RootedKeepsWf(own, t);
    AddRouteTurn(own, ns, t0, id, loading);
    var i := FindRoute(t0, id, 0, 0);
    AttemptRouted(own, ns, t0, i, id, loading, x);
    var r := AttemptIn(own, ns, t0, i, id, loading);
    if r.TryAgain? {
      AddRouteRouted(own, ns, r.table, id, loading, x);
    }
  }

  // The nodes that are not good.
  ghost function Doubtful(ns: Infos, nodes: seq<Id>): set<Id> {
    set x | x in nodes && !Good(ns, x)
  }

  lemma {:induction false} NotGoodIsCount(ns: Infos, nodes: seq<Id>)
    requires Distinct(nodes)
    ensures NotGood(ns, nodes) == |Doubtful(ns, nodes)|
  {
    if nodes != [] {
      var rest := nodes[1..];
      NotGoodIsCount(ns, rest);
      assert nodes[0] !in rest;
      assert Doubtful(ns, nodes) == Doubtful(ns, rest) + (if Good(ns, nodes[0]) then {} else {nodes[0]});
    }
  }

  // The bucket is full and has as many candidates as there are stable nodes that are not good;
  // and if it is bucket 0, there is no reason to split it: the one behind it has no good node.
  ghost predicate MayRefuse(ns: Infos, t: Table, i: nat, loading: bool)
    requires i < |t|
  {
    var nodes := t[i].nodes;
    && |nodes| >= K && |nodes| - K >= |Doubtful(ns, nodes[..K])|
    && (i == 0 ==> |t| > 1 && !loading && forall x :: x in t[1].nodes ==> !Good(ns, x))
  }

  lemma AttemptRefuses(own: Id, ns: Infos, t: Table, i: nat, id: Id, loading: bool)
    requires Wf(own, t) && i < |t|
    ensures var r := AttemptIn(own, ns, t, i, id, loading);
      && (r.Done? ==> |r.table| == |t|)
      && (r.Done? && id !in r.table[i].nodes ==> MayRefuse(ns, r.table, i, loading))
  {
    hide Admit, Refreshed, MakeRoom, Layout, Owner, MayRefuse;
    assert BucketOk(own, t, i);
    var j := IndexWhere(t[i].nodes, Is(id));
    if j < |t[i].nodes| {
      RefreshedIsPermutation(t[i].nodes, j);
    } else {
      MakeRoomKeepsWf(own, ns, t, i, id);
      AdmitRefuses(own, ns, WithNodes(t, i, MakeRoom(ns, i, t[i].nodes, id)), i, id, loading);
    }
  }

  lemma AdmitRefuses(own: Id, ns: Infos, t: Table, i: nat, id: Id, loading: bool)
    requires Wf(own, t) && i < |t|
    ensures var r := Admit(own, ns, t, i, id, loading);
      && (r.Done? ==> |r.table| == |t|)
      && (r.Done? && id !in r.table[i].nodes ==> MayRefuse(ns, r.table, i, loading))
  {
    hide Layout, Owner, Divided, Doubtful, NotGood;
    var nodes := t[i].nodes;
    if |nodes| >= K {
      assert BucketOk(own, t, i);
      FullIffCandidatesSuffice(ns, nodes);
      NotGoodIsCount(ns, nodes[..K]);
      if i == 0 { FullBucketHasABit(own, t); }
    }
  }

  /** A node is turned away only when its bucket has K nodes and at least as many candidates
      as questionable stable nodes; and if that is bucket 0, only when the bucket behind it has no
      good node, so that bucket 0 was not to be split. */
  lemma {:induction false} AddRouteRefuses(own: Id, ns: Infos, t: Table, id: Id, loading: bool)
    requires Wf(own, t)
    ensures var r := AddRoute(own, ns, t, id, loading);
      var i := Owner(own, |r|, id);
      id in r[i].nodes || MayRefuse(ns, r, i, loading)
    decreases SplitsLeft(t)
  {
    hide Wf, AttemptIn, FindRoute, Owner, MayRefuse;
    var t0 := Rooted(t);
    RootedKeepsWf(own, t);
    AddRouteTurn(own, ns, t0, id, loading);
    var i := FindRoute(t0, id, 0, 0);
    AttemptRefuses(own, ns, t0, i, id, loading);
    var r := AttemptIn(own, ns, t0, i, id, loading);
    if r.TryAgain? {
      AddRouteRefuses(own, ns, r.table, id, loading);
    }
  }

  // Evicting the node at one place of one bucket unroutes that id and no other.
  lemma EvictionRouted(own: Id, t: Table, i: nat, j: nat, x: Id)
    requires Sound(own, t) && i < |t| && j < |t[i].nodes|
    ensures Routed(WithNodes(t, i, RemoveAt(t[i].nodes, j)), x) <==> Routed(t, x) && x != t[i].nodes[j]
  {
    assert BucketOk(own, t, i);
    RemoveAtDistinct(t[i].nodes, j);
    RoutedAfterWithNodes(t, i, RemoveAt(t[i].nodes, j), x);
    forall k | 0 <= k < |t| && k != i && x in t[k].nodes
      ensures x != t[i].nodes[j]
    {
      assert BucketOk(own, t, k);
    }
  }

  lemma WithNodesKeepsSound(own: Id, t: Table, i: nat, nodes: seq<Id>)
    requires Sound(own, t) && i < |t|
    requires Distinct(nodes) && |nodes| <= 2 * K && (forall x :: x in nodes ==> Owner(own, |t|, x) == i)
    ensures Sound(own, WithNodes(t, i, nodes))
  {
    var r := WithNodes(t, i, nodes);
    forall j | 0 <= j < |r|
      ensures BucketOk(own, r, j)
    {
      assert BucketOk(own, t, j);
    }
  }

  lemma EvictionKeepsSound(own: Id, t: Table, i: nat, j: nat)
    requires Sound(own, t) && i < |t| && j < |t[i].nodes|
    ensures Sound(own, WithNodes(t, i, RemoveAt(t[i].nodes, j)))
  {
    assert BucketOk(own, t, i);
    RemoveAtDistinct(t[i].nodes, j);
    WithNodesKeepsSound(own, t, i, RemoveAt(t[i].nodes, j));
  }

  // Looking in the one bucket the scan finds tells whether an id is routed at all.
  lemma RoutedWhereFound(own: Id, t: Table, id: Id)
    requires Wf(own, t) && t != []
    ensures 0 <= FindRoute(t, id, 0, 0) < |t|
    ensures Routed(t, id) <==> id in t[FindRoute(t, id, 0, 0)].nodes
  {
    FindRouteInWf(own, t, id);
    RoutedInOwner(own, t, id);
  }

  lemma UnroutedIsNowhere(t: Table, id: Id)
    requires !Routed(t, id)
    ensures forall i, j :: 0 <= i < |t| && 0 <= j < |t[i].nodes| ==> t[i].nodes[j] != id
  {
    forall i, j | 0 <= i < |t| && 0 <= j < |t[i].nodes|
      ensures t[i].nodes[j] != id
    {
      assert t[i].nodes[j] in t[i].nodes;
    }
  }

  // ---------------------------------------------------------------- removing

  function RemoveRoute(t: Table, id: Id): (r: Table)
  {
    var i := FindRoute(t, id, 0, 0);
    if i < 0 then t else WithNodes(t, i, RemoveFirst(t[i].nodes, Is(id)))
  }

  // One bucket is searched, and yet the id is gone from all of them, and only that id.
  lemma RemoveRouteRemoves(own: Id, t: Table, id: Id)
    requires Wf(own, t)
    ensures Wf(own, RemoveRoute(t, id))
    ensures forall x :: Routed(RemoveRoute(t, id), x) <==> Routed(t, x) && x != id
  {
    hide Layout;
    if t != [] {
      FindRouteIsOwner(own, t, id);
      var i := Owner(own, |t|, id);
      assert BucketOk(own, t, i);
      var nodes := t[i].nodes;
      var k := IndexWhere(nodes, Is(id));
      if k < |nodes| {
        RemoveAtDistinct(nodes, k);
        forall x ensures Routed(RemoveRoute(t, id), x) <==> Routed(t, x) && x != id {
          EvictionRouted(own, t, i, k, x);
        }
      } else {
        RoutedInOwner(own, t, id);
      }
      WithNodesKeepsWf(own, t, i, RemoveFirst(nodes, Is(id)));
    }
  }

  // ---------------------------------------------------------------- periodic trimming

  // A bucket with more candidates than questionable stable nodes loses its first candidate.
  function Trimmed(ns: Infos, nodes: seq<Id>): seq<Id> {
    if |nodes| > K && |nodes| > K + Questionable(ns, nodes, |nodes| - K) then RemoveAt(nodes, K) else nodes
  }

  function TrimCandidates(ns: Infos, t: Table): (r: Table)
    ensures |r| == |t|
    ensures forall i :: 0 <= i < |t| ==> r[i].bits == t[i].bits && r[i].prefix == t[i].prefix
    ensures forall i :: 0 <= i < |t| ==> r[i].nodes == if i == 0 then t[0].nodes else Trimmed(ns, t[i].nodes)
  {
    seq(|t|, i requires 0 <= i < |t| =>
      if i == 0 then t[0] else Bucket(t[i].bits, t[i].prefix, Trimmed(ns, t[i].nodes)))
  }

  lemma TrimCandidatesKeepsWf(own: Id, ns: Infos, t: Table)
    requires Wf(own, t)
    ensures Wf(own, TrimCandidates(ns, t))
    ensures forall x :: Routed(TrimCandidates(ns, t), x) ==> Routed(t, x)
  {
    var r := TrimCandidates(ns, t);
    forall i | 0 <= i < |t|
      ensures BucketOk(own, r, i) && r[i].bits == BitsAt(|r|, i) && PrefixOf(own, r[i], i > 0)
      ensures forall x :: x in r[i].nodes ==> x in t[i].nodes
    {
      assert BucketOk(own, t, i) && PrefixOf(own, t[i], i > 0);
      if |t[i].nodes| > K {
        RemoveAtDistinct(t[i].nodes, K);
      }
    }
  }

  // ---------------------------------------------------------------- refreshing

  /** The id generated to refresh a bucket: the prefix, with random bits after it. `tail`
      supplies the random bytes. */
  function RefreshId(b: Bucket, tail: Id): (r: seq<Byte>)
    requires |b.prefix| == (b.bits + 7) / 8
    ensures |r| == ID_BYTES
  {
    var bytes := b.bits / 8;
    var bits := b.bits % 8;
    if bits > 0
    then b.prefix[bytes := b.prefix[bytes] | (tail[bytes] & LowMask(bits))] + tail[bytes + 1..]
    else b.prefix + tail[bytes..]
  }

  lemma RefreshIdKeepsPrefix(b: Bucket, tail: Id)
    requires |b.prefix| == (b.bits + 7) / 8
    ensures Agree(b.prefix, RefreshId(b, tail), b.bits)
  {
    var r := RefreshId(b, tail);
    var bytes, bits := b.bits / 8, b.bits % 8;
    forall k: nat | k < b.bits
      ensures Bit(b.prefix, k) == Bit(r, k)
    {
      if k / 8 == bytes {
        LowBitsOnly(b.prefix[bytes], tail[bytes], bits, k % 8);
      }
    }
  }

  // The generated id lies in the bucket it is to refresh.
  lemma RefreshIdInBucket(own: Id, t: Table, i: nat, tail: Id)
    requires Layout(own, t) && i < |t|
    ensures |t[i].prefix| == (t[i].bits + 7) / 8
    ensures FindRoute(t, RefreshId(t[i], tail), 0, 0) == i
  {
    assert PrefixOf(own, t[i], i > 0);
    var r: Id := RefreshId(t[i], tail);
    RefreshIdKeepsPrefix(t[i], tail);
    PrefixMatchIsAgree(t[i].prefix, t[i].bits, r, 0);
    MatchIffOwner(own, t, i, r);
    FindRouteIsOwner(own, t, r);
  }

  // The assertion made before the random bits are or-ed in: the prefix is clear there.
  lemma RefreshMaskIsClear(own: Id, b: Bucket, flip: bool)
    requires PrefixOf(own, b, flip) && b.bits % 8 > 0
    ensures b.prefix[b.bits / 8] & LowMask(b.bits % 8) == 0
  {
    hide LowMask, ByteBit;
    var bytes, bits := b.bits / 8, b.bits % 8;
    forall j: nat | bits <= j < 8
      ensures !ByteBit(b.prefix[bytes], j)
    {
      assert !Bit(b.prefix, 8 * bytes + j);
    }
    LowMaskIsBits(b.prefix[bytes], bits);
  }
}

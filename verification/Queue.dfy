/**
 QueueFeeder.cc: the queue of commands is a doubly linked list whose links are changed in
 place. The ghost sequence of its nodes says what the links mean.
 */
module Queue {

  class QueueJob {
    const cmd: string
    var prev: QueueJob?
    var next: QueueJob?

    constructor (cmd: string)
      ensures this.cmd == cmd && prev == null && next == null
    {
      this.cmd, prev, next := cmd, null, null;
    }
  }

  type Pattern = string -> bool

  ghost predicate NoneTwice(s: seq<QueueJob>) {
    forall i, j :: 0 <= i < j < |s| ==> s[i] != s[j]
  }

  function PrevOf(s: seq<QueueJob>, i: nat): QueueJob?
    requires i < |s|
  {
    if i == 0 then null else s[i - 1]
  }

  function NextOf(s: seq<QueueJob>, i: nat): QueueJob?
    requires i < |s|
  {
    if i == |s| - 1 then null else s[i + 1]
  }

  /** The nodes of s, and no others, are linked in both directions from head to tail. */
  ghost predicate Linked(s: seq<QueueJob>, head: QueueJob?, tail: QueueJob?)
    reads s
  {
    && NoneTwice(s)
    && head == (if s == [] then null else s[0])
    && tail == (if s == [] then null else s[|s| - 1])
    && forall i :: 0 <= i < |s| ==> s[i].prev == PrevOf(s, i) && s[i].next == NextOf(s, i)
  }

  // ---------------------------------------------------------------- what the operations mean

  // The jobs that match, or do not match, in their order.
  ghost function Matching(s: seq<QueueJob>, p: Pattern, want: bool): seq<QueueJob> {
    if s == [] then []
    else if p(s[0].cmd) == want then [s[0]] + Matching(s[1..], p, want)
    else Matching(s[1..], p, want)
  }

  lemma {:induction false} MatchingJoin(s: seq<QueueJob>, t: seq<QueueJob>, p: Pattern, want: bool)
    ensures Matching(s + t, p, want) == Matching(s, p, want) + Matching(t, p, want)
  {
    if s == [] {
      assert s + t == t;
    } else {
      assert (s + t)[1..] == s[1..] + t;
      MatchingJoin(s[1..], t, p, want);
    }
  }

  // The first job at or after i that does not match, or the end.
  ghost function NextUnmatched(s: seq<QueueJob>, p: Pattern, i: nat): (k: nat)
    requires i <= |s|
    ensures i <= k <= |s|
    ensures forall j :: i <= j < k ==> p(s[j].cmd)
    ensures k < |s| ==> !p(s[k].cmd)
    decreases |s| - i
  {
    if i < |s| && p(s[i].cmd) then NextUnmatched(s, p, i + 1) else i
  }

  // All matching jobs moved before the one at k.
  ghost function MovedBefore(s: seq<QueueJob>, p: Pattern, k: nat): seq<QueueJob>
    requires k <= |s|
  {
    Matching(s[..k], p, false) + Matching(s, p, true) + Matching(s[k..], p, false)
  }

  /** Moving loses and duplicates nothing and keeps the order within both kinds. */
  lemma MovingKeepsAll(s: seq<QueueJob>, p: Pattern, k: nat)
    requires k <= |s|
    ensures var r := MovedBefore(s, p, k);
      && multiset(r) == multiset(s)
      && Matching(r, p, true) == Matching(s, p, true) && Matching(r, p, false) == Matching(s, p, false)
  {
    hide Matching;
    var a, m, b := Matching(s[..k], p, false), Matching(s, p, true), Matching(s[k..], p, false);
    OthersInParts(s, p, k);
    MatchingTwice(s[..k], p, false);
    MatchingTwice(s[k..], p, false);
    MatchingTwice(s, p, true);
    MatchingOfThree(a, m, b, p, true);
    MatchingOfThree(a, m, b, p, false);
    Around(m);
    assert a + [] + b == a + b by { assert a + [] == a; }
    MatchingAll(s, p);
    MatchingAll(a + m + b, p);
  }

  lemma OthersInParts(s: seq<QueueJob>, p: Pattern, k: nat)
    requires k <= |s|
    ensures Matching(s, p, false) == Matching(s[..k], p, false) + Matching(s[k..], p, false)
  {
    assert s == s[..k] + s[k..];
    MatchingJoin(s[..k], s[k..], p, false);
  }

  lemma Around(m: seq<QueueJob>)
    ensures [] + m + [] == m
  {
  }

  lemma MatchingOfThree(a: seq<QueueJob>, m: seq<QueueJob>, b: seq<QueueJob>, p: Pattern, want: bool)
    ensures Matching(a + m + b, p, want) == Matching(a, p, want) + Matching(m, p, want) + Matching(b, p, want)
  {
    MatchingJoin(a + m, b, p, want);
    MatchingJoin(a, m, p, want);
  }

  lemma {:induction false} MatchingAll(s: seq<QueueJob>, p: Pattern)
    ensures multiset(s) == multiset(Matching(s, p, true)) + multiset(Matching(s, p, false))
  {
    if s != [] {
      MatchingAll(s[1..], p);
      assert s == [s[0]] + s[1..];
    }
  }

  lemma {:induction false} MatchingTwice(s: seq<QueueJob>, p: Pattern, want: bool)
    ensures Matching(Matching(s, p, want), p, want) == Matching(s, p, want)
    ensures Matching(Matching(s, p, want), p, !want) == []
  {
    if s != [] {
      MatchingTwice(s[1..], p, want);
      if p(s[0].cmd) == want {
        assert ([s[0]] + Matching(s[1..], p, want))[1..] == Matching(s[1..], p, want);
      }
    }
  }

  // ---------------------------------------------------------------- linking and unlinking

  ghost predicate Apart(s: seq<QueueJob>, t: seq<QueueJob>) {
    forall i, j :: 0 <= i < |s| && 0 <= j < |t| ==> s[i] != t[j]
  }

  // The links once `add` stands before the node at k of s.
  ghost predicate Spliced(s: seq<QueueJob>, add: seq<QueueJob>, k: nat)
    requires k <= |s| && add != []
    reads s, add
  {
    && (forall i :: 0 <= i < |s| ==> s[i].prev == (if i == k then add[|add| - 1] else PrevOf(s, i)))
    && (forall i :: 0 <= i < |s| ==> s[i].next == (if i == k - 1 then add[0] else NextOf(s, i)))
    && add[0].prev == (if k > 0 then s[k - 1] else null)
    && add[|add| - 1].next == (if k < |s| then s[k] else null)
    && (forall i :: 0 < i < |add| ==> add[i].prev == add[i - 1])
    && (forall i :: 0 <= i < |add| - 1 ==> add[i].next == add[i + 1])
  }

  function Joined(s: seq<QueueJob>, add: seq<QueueJob>, k: nat): (r: seq<QueueJob>)
    requires k <= |s|
    ensures |r| == |s| + |add|
    ensures forall i :: 0 <= i < |r| ==>
      r[i] == if i < k then s[i] else if i < k + |add| then add[i - k] else s[i - |add|]
  {
    s[..k] + add + s[k..]
  }

  lemma PrevAfterSplice(s: seq<QueueJob>, add: seq<QueueJob>, k: nat, i: nat)
    requires k <= |s| && add != [] && Spliced(s, add, k) && i < |s| + |add|
    ensures var r := Joined(s, add, k); r[i].prev == PrevOf(r, i)
  {
    var r := Joined(s, add, k);
    if i == 0 {
      assert r[0] == if k == 0 then add[0] else s[0];
    } else {
      assert PrevOf(r, i) == r[i - 1];
      PrevInside(s, add, k, i);
    }
  }

  lemma PrevInside(s: seq<QueueJob>, add: seq<QueueJob>, k: nat, i: nat)
    requires k <= |s| && add != [] && Spliced(s, add, k) && 0 < i < |s| + |add|
    ensures var r := Joined(s, add, k); r[i].prev == r[i - 1]
  {
    hide Spliced;
    if i < k {
      OldPrev(s, add, k, i);
    } else if i < k + |add| {
      NewPrev(s, add, k, i - k);
    } else {
      OldPrev(s, add, k, i - |add|);
    }
  }

  lemma OldPrev(s: seq<QueueJob>, add: seq<QueueJob>, k: nat, i: nat)
    requires k <= |s| && add != [] && Spliced(s, add, k) && i < |s|
    ensures s[i].prev == if i == k then add[|add| - 1] else if i == 0 then null else s[i - 1]
  {
  }

  lemma NewPrev(s: seq<QueueJob>, add: seq<QueueJob>, k: nat, i: nat)
    requires k <= |s| && add != [] && Spliced(s, add, k) && i < |add|
    ensures add[i].prev == if i > 0 then add[i - 1] else if k > 0 then s[k - 1] else null
  {
  }

  lemma NextAfterSplice(s: seq<QueueJob>, add: seq<QueueJob>, k: nat, i: nat)
    requires k <= |s| && add != [] && Spliced(s, add, k) && i < |s| + |add|
    ensures var r := Joined(s, add, k); r[i].next == NextOf(r, i)
  {
    hide PrevOf;
    var r := Joined(s, add, k);
    if i < |r| - 1 { assert NextOf(r, i) == r[i + 1]; }
    if i < k {
      assert r[i] == s[i];
    } else if i < k + |add| {
      assert r[i] == add[i - k];
    } else {
      assert r[i] == s[i - |add|];
    }
  }

  lemma SplicedIsLinked(s: seq<QueueJob>, add: seq<QueueJob>, k: nat)
    requires k <= |s| && add != [] && NoneTwice(s) && NoneTwice(add) && Apart(s, add) && Spliced(s, add, k)
    ensures var r := Joined(s, add, k); Linked(r, r[0], r[|r| - 1])
  {
    hide Spliced, PrevOf, NextOf;
    var r := Joined(s, add, k);
    forall i | 0 <= i < |r| ensures r[i].prev == PrevOf(r, i) && r[i].next == NextOf(r, i) {
      PrevAfterSplice(s, add, k, i);
      NextAfterSplice(s, add, k, i);
    }
  }

  method FindTail(job: QueueJob, ghost add: seq<QueueJob>) returns (last: QueueJob)
    requires add != [] && Linked(add, job, add[|add| - 1])
    ensures last == add[|add| - 1]
  {
    last := job;
    ghost var n := 0;
    while last.next != null
      invariant n < |add| && last == add[n]
      decreases |add| - n
    {
      last := last.next;
      n := n + 1;
    }
  }

  // The links that an insertion changes.
  method Splice(job: QueueJob, last: QueueJob, prior: QueueJob?, before: QueueJob?,
                ghost add: seq<QueueJob>, ghost s: seq<QueueJob>, ghost k: nat)
    requires add != [] && Linked(add, job, last) && k <= |s| && Apart(s, add)
    requires s != [] ==> Linked(s, s[0], s[|s| - 1])
    requires before == (if k == |s| then null else s[k]) && prior == (if k == 0 then null else s[k - 1])
    modifies s, add
    ensures Spliced(s, add, k)
  {
    job.prev := prior;
    last.next := before;
    if prior != null { prior.next := job; }
    if before != null { before.prev := last; }
  }

  /** insert_jobs: a list of its own is put before a node of another list, or at its end. The
      other list's head and tail are passed in and given back. */
  method InsertJobs(job: QueueJob, head: QueueJob?, tail: QueueJob?, before: QueueJob?,
                    ghost add: seq<QueueJob>, ghost s: seq<QueueJob>, ghost k: nat)
    returns (head': QueueJob?, tail': QueueJob?)
    requires add != [] && Linked(add, job, add[|add| - 1]) && Linked(s, head, tail) && Apart(s, add)
    requires k <= |s| && before == (if k == |s| then null else s[k])
    modifies s, add
    ensures Linked(Joined(s, add, k), head', tail')
  {
    var last := FindTail(job, add);
    var prior := if before == null then tail else before.prev;
    Splice(job, last, prior, before, add, s, k);
    SplicedIsLinked(s, add, k);
    head' := if prior == null then job else head;
    tail' := if before == null then last else tail;
  }

  // The links once the node at i is taken out of s.
  ghost predicate Bridged(s: seq<QueueJob>, i: nat)
    requires i < |s|
    reads s
  {
    && (forall j :: 0 <= j < |s| && j != i ==> s[j].prev == (if j == i + 1 then PrevOf(s, i) else PrevOf(s, j)))
    && (forall j :: 0 <= j < |s| && j != i ==> s[j].next == (if j == i - 1 then NextOf(s, i) else NextOf(s, j)))
    && s[i].prev == null && s[i].next == null
  }

  function Without(s: seq<QueueJob>, i: nat): (r: seq<QueueJob>)
    requires i < |s|
    ensures |r| == |s| - 1 && forall j :: 0 <= j < |r| ==> r[j] == if j < i then s[j] else s[j + 1]
  {
    s[..i] + s[i + 1..]
  }

  lemma BridgedIsLinked(s: seq<QueueJob>, i: nat)
    requires i < |s| && NoneTwice(s) && Bridged(s, i)
    ensures var r := Without(s, i); Linked(r, if r == [] then null else r[0], if r == [] then null else r[|r| - 1])
    ensures Linked([s[i]], s[i], s[i])
  {
    var r := Without(s, i);
    forall j | 0 <= j < |r| ensures r[j].prev == PrevOf(r, j) && r[j].next == NextOf(r, j) {
      assert r[j] == s[if j < i then j else j + 1];
    }
  }

  lemma LinkedMeans(s: seq<QueueJob>, head: QueueJob?, tail: QueueJob?, i: nat)
    requires Linked(s, head, tail) && i < |s|
    ensures NoneTwice(s) && head == s[0] && tail == s[|s| - 1] && Linked(s, s[0], s[|s| - 1])
    ensures s[i].prev == PrevOf(s, i) && s[i].next == NextOf(s, i)
    ensures s[0].next == NextOf(s, 0) && s[|s| - 1].prev == PrevOf(s, |s| - 1)
  {
  }

  method Bridge(job: QueueJob, ghost s: seq<QueueJob>, ghost i: nat)
    requires i < |s| && s[i] == job && Linked(s, s[0], s[|s| - 1])
    modifies s
    ensures Bridged(s, i)
  {
    if job.prev != null { job.prev.next := job.next; }
    if job.next != null { job.next.prev := job.prev; }
    job.prev, job.next := null, null;
  }

  /** QueueFeeder: the queue itself. */
  class QueueFeeder {
    var jobs: QueueJob?
    var lastjob: QueueJob?
    ghost var nodes: seq<QueueJob>

    ghost predicate Valid()
      reads this, nodes
    {
      Linked(nodes, jobs, lastjob)
    }

    constructor ()
      ensures Valid() && nodes == []
    {
      jobs, lastjob, nodes := null, null, [];
    }

    // unlink_job: the links around the job are closed, at the ends the queue's own too.
    method UnlinkJob(job: QueueJob, ghost i: nat)
      requires Valid() && i < |nodes| && nodes[i] == job
      modifies this, nodes
      ensures Valid() && nodes == Without(old(nodes), i)
      ensures Linked([job], job, job)
    {
      hide Bridged, Linked, NoneTwice;
      ghost var s, r := nodes, Without(nodes, i);
      LinkedMeans(s, jobs, lastjob, i);
      if job.prev == null { jobs := jobs.next; }
      if job.next == null { lastjob := lastjob.prev; }
      Bridge(job, s, i);
      nodes := r;
      BridgedIsLinked(s, i);
    }

    // get_job: the n-th job, counted from 0, or the last one for -1.
    method GetJob(n: int) returns (j: QueueJob?)
      requires Valid()
      ensures j == Nth(nodes, n)
    {
      if n == -1 { return lastjob; }
      j := jobs;
      ghost var i := 0;
      var left := n;
      while j != null && left != 0
        invariant i <= |nodes| && left == n - i
        invariant j == if i < |nodes| then nodes[i] else null
        invariant 0 <= n ==> i <= n
        decreases |nodes| - i
      {
        j := j.next;
        i := i + 1;
        left := left - 1;
      }
    }

    // grab_job by number: it leaves the queue.
    method GrabJob(n: int) returns (job: QueueJob?)
      requires Valid()
      modifies this, nodes
      ensures Valid() && job == Nth(old(nodes), n)
      ensures nodes == if job == null then old(nodes) else Without(old(nodes), if n == -1 then |old(nodes)| - 1 else n)
      ensures job != null ==> Linked([job], job, job)
    {
      job := GetJob(n);
      if job != null { UnlinkJob(job, if n == -1 then |nodes| - 1 else n); }
    }

    // get_next_match.
    method NextMatch(p: Pattern, from: QueueJob?, ghost i: nat) returns (j: QueueJob?, ghost k: nat)
      requires Valid() && i <= |nodes| && from == NodeAt(nodes, i)
      ensures i <= k <= |nodes| && j == NodeAt(nodes, k)
      ensures (forall l :: i <= l < k ==> !p(nodes[l].cmd)) && (j != null ==> p(j.cmd))
    {
      hide Linked, NoneTwice;
      j, k := from, i;
      while j != null
        invariant i <= k <= |nodes| && j == NodeAt(nodes, k)
        invariant forall l :: i <= l < k ==> !p(nodes[l].cmd)
        decreases |nodes| - k
      {
        if p(j.cmd) { return; }
        NextIs(nodes, jobs, lastjob, k);
        j, k := j.next, k + 1;
      }
    }

    // One matching job goes over to the list of those already taken.
    method TakeMatch(job: QueueJob, ghost k: nat, head: QueueJob?, tail: QueueJob?, ghost got: seq<QueueJob>)
      returns (head': QueueJob?, tail': QueueJob?)
      requires Valid() && k < |nodes| && nodes[k] == job && Linked(got, head, tail) && Apart(nodes, got)
      modifies this, nodes, got
      ensures Valid() && nodes == Without(old(nodes), k)
      ensures Linked(got + [job], head', tail') && Apart(nodes, got + [job])
    {
      hide Linked, NoneTwice;
      LinkedMeans(nodes, jobs, lastjob, k);
      StillApart(nodes, got, k);
      UnlinkJob(job, k);
      head', tail' := InsertJobs(job, head, tail, null, [job], got, |got|);
      assert Joined(got, [job], |got|) == got + [job];
    }

    /** grab_job by pattern: all matching jobs leave the queue, as a list of their own. */
    method GrabMatching(p: Pattern) returns (head: QueueJob?, ghost got: seq<QueueJob>)
      requires Valid()
      modifies this, nodes
      ensures Valid() && nodes == Matching(old(nodes), p, false) && got == Matching(old(nodes), p, true)
      ensures Linked(got, head, if got == [] then null else got[|got| - 1]) && Apart(nodes, got)
    {
      hide Linked, NoneTwice, Matching, Without, Apart, PrevOf, NextOf, Grabbing;
      ghost var s := nodes;
      var j, tail: QueueJob? := jobs, null;
      head, got := null, [];
      ghost var i := 0;
      Begin(nodes, jobs, lastjob);
      EmptyIsLinked(s, p);
      GrabbingStarts(s, p);
      while j != null
        invariant Valid() && i <= |nodes| && j == NodeAt(nodes, i)
        invariant Linked(got, head, tail) && Apart(nodes, got)
        invariant Grabbing(s, nodes, got, p, i)
        decreases |nodes| - i
      {
        var job, k := NextMatch(p, j, i);
        GrabbingGoesOn(s, nodes, got, p, i, k);
        i := k;
        if job == null { break; }
        NextIs(nodes, jobs, lastjob, k);
        j := job.next;
        GrabbingTakes(s, nodes, got, p, k);
        head, tail := TakeMatch(job, k, head, tail, got);
        got := got + [job];
      }
      GrabbingEnds(s, nodes, got, p);
      TailIs(got, head, tail);
    }

    // The job before which matching jobs are to go: not one of them itself.
    method FindBefore(p: Pattern, to: int) returns (before: QueueJob?)
      requires Valid()
      ensures before == NodeAt(nodes, Target(nodes, p, to))
    {
      hide Linked, NoneTwice;
      if to == -1 { return null; }
      before := GetJob(to);
      ghost var k: nat := if 0 <= to < |nodes| then to else |nodes|;
      while before != null && p(before.cmd)
        invariant k <= |nodes| && before == NodeAt(nodes, k)
        invariant Target(nodes, p, to) == NextUnmatched(nodes, p, k)
        decreases |nodes| - k
      {
        NextIs(nodes, jobs, lastjob, k);
        before := before.next;
        k := k + 1;
      }
    }

    /** MoveJob by pattern: all matching jobs, in their order, now stand before the first
        non-matching job at or after the target, or at the end; nothing else moves. */
    method MoveMatching(p: Pattern, to: int) returns (moved: bool)
      requires Valid()
      modifies this, nodes
      ensures Valid() && nodes == MovedBefore(old(nodes), p, Target(old(nodes), p, to))
      ensures forall k: nat :: GoesBefore(old(nodes), p, to, k) ==>
        k <= |old(nodes)| && nodes == MovedBefore(old(nodes), p, k)
      ensures moved <==> Matching(old(nodes), p, true) != []
    {
      hide Linked, NoneTwice, Matching, Joined;
      ghost var s := nodes;
      ghost var k := Target(s, p, to);
      var before := FindBefore(p, to);
      var job, got := GrabMatching(p);
      HeadOfList(got, job);
      ghost var n := |Matching(s[..k], p, false)|;
      InTwo(s, p, k, got);
      if job == null { return false; }
      MatchingWithin(s, p, true);
      MatchingWithin(s, p, false);
      jobs, lastjob := InsertJobs(job, jobs, lastjob, before, got, nodes, n);
      nodes := Joined(nodes, got, n);
      return true;
    }

    method InsertOne(job: QueueJob, before: QueueJob?, ghost n: nat)
      requires Valid() && Linked([job], job, job) && Apart(nodes, [job]) && n <= |nodes| && before == NodeAt(nodes, n)
      modifies this, nodes, job
      ensures Valid() && nodes == Joined(old(nodes), [job], n)
    {
      hide Linked, NoneTwice, Joined;
      jobs, lastjob := InsertJobs(job, jobs, lastjob, before, [job], nodes, n);
      nodes := Joined(nodes, [job], n);
    }

    /** MoveJob by number: the one job goes before the job the target names, or to the end. The
        last job has two names; it must not be told to go before itself by both. */
    method MoveOne(from: int, to: int) returns (moved: bool)
      requires Valid() && !(from == -1 && nodes != [] && to == |nodes| - 1)
      modifies this, nodes
      ensures Valid()
      ensures moved <==> from != to && Nth(old(nodes), from) != null
      ensures !moved ==> nodes == old(nodes)
      ensures moved ==>
        nodes == MovedOne(old(nodes), Place(old(nodes), from), if to == -1 then |old(nodes)| else Place(old(nodes), to))
    {
      hide Linked, NoneTwice, Joined, Without, MovedOne, Apart;
      if from == to { return false; }
      ghost var s := nodes;
      if s != [] { LinkedMeans(s, jobs, lastjob, 0); }
      var before: QueueJob? := null;
      if to != -1 { before := GetJob(to); }
      var job := GrabJob(from);
      if job == null { return false; }
      ghost var f, k := Place(s, from), if to == -1 then |s| else Place(s, to);
      assert f < |s| && f != k && before == NodeAt(s, k);
      OneMoved(s, f, k);
      OneApart(s, f);
      InsertOne(job, before, if f < k then k - 1 else k);
      return true;
    }

    // QueueCmd: a new job goes before the one at pos, or to the end.
    method QueueCmd(cmd: string, pos: int)
      requires Valid()
      modifies this, nodes
      ensures Valid()
      ensures var k := if pos == -1 then |old(nodes)| else Place(old(nodes), pos);
        exists job: QueueJob :: fresh(job) && job.cmd == cmd && nodes == Joined(old(nodes), [job], k)
    {
      hide Linked, NoneTwice, Joined;
      var job := new QueueJob(cmd);
      var before: QueueJob? := null;
      if pos != -1 { before := GetJob(pos); }
      JustOne(job);
      InsertOne(job, before, if pos == -1 then |nodes| else Place(nodes, pos));
    }
  }

  /** Jobs moved to `to` go before place k: from the job named on, k is the first whose command does
      not match; it is the end where there is none, or where no job is named. */
  ghost predicate GoesBefore(s: seq<QueueJob>, p: Pattern, to: int, k: nat) {
    if 0 <= to < |s|
    then to <= k <= |s| && (forall j :: to <= j < k ==> p(s[j].cmd)) && (k < |s| ==> !p(s[k].cmd))
    else k == |s|
  }

  lemma TargetIff(s: seq<QueueJob>, p: Pattern, to: int, k: nat)
    ensures GoesBefore(s, p, to, k) <==> k == Target(s, p, to)
  {
  }

  /** Where moved jobs stand: after all jobs kept that were before k, and right before the job at k,
      or at the end. */
  lemma MovedStandBefore(s: seq<QueueJob>, p: Pattern, to: int, k: nat)
    requires GoesBefore(s, p, to, k)
    ensures k <= |s|
    ensures var r, n, m := MovedBefore(s, p, k), |Matching(s[..k], p, false)|, |Matching(s, p, true)|;
      && n + m <= |r| && r[..n] == Matching(s[..k], p, false) && r[n..n + m] == Matching(s, p, true)
      && if k == |s| then n + m == |r| else n + m < |r| && r[n + m] == s[k]
  {
    hide Matching;
    var m := Matching(s[k..], p, false);
    if k < |s| {
      MatchingJoin([s[k]], s[k + 1..], p, false);
      assert s[k..] == [s[k]] + s[k + 1..];
      assert Matching([s[k]], p, false) == [s[k]] by { JustItself(s[k], p); }
    } else {
      assert s[k..] == [];
      assert m == [] by { NothingMatches(p); }
    }
  }

  lemma JustItself(job: QueueJob, p: Pattern)
    requires !p(job.cmd)
    ensures Matching([job], p, false) == [job]
  {
  }

  lemma NothingMatches(p: Pattern)
    ensures Matching([], p, false) == []
  {
  }

  // Where moved jobs are to go.
  ghost function Target(s: seq<QueueJob>, p: Pattern, to: int): (k: nat)
    ensures k <= |s|
  {
    if 0 <= to < |s| then NextUnmatched(s, p, to) else |s|
  }

  // The place that a number names, the end if there is none.
  function Place(s: seq<QueueJob>, n: int): (k: nat)
    ensures k <= |s|
  {
    if n == -1 && s != [] then |s| - 1 else if 0 <= n < |s| then n else |s|
  }

  // The job at f moved before the one at k.
  function MovedOne(s: seq<QueueJob>, f: nat, k: nat): seq<QueueJob>
    requires f < |s| && k <= |s|
  {
    if f < k then s[..f] + s[f + 1..k] + [s[f]] + s[k..]
    else s[..k] + [s[f]] + s[k..f] + s[f + 1..]
  }

  ghost predicate Within(s: seq<QueueJob>, t: seq<QueueJob>) {
    forall i :: 0 <= i < |s| ==> s[i] in t
  }

  // The node at i, or none at the end.
  function NodeAt(s: seq<QueueJob>, i: nat): QueueJob?
    requires i <= |s|
  {
    if i < |s| then s[i] else null
  }

  // The n-th job, the last one for -1, or none.
  function Nth(s: seq<QueueJob>, n: int): QueueJob? {
    if n == -1 && s != [] then s[|s| - 1] else if 0 <= n < |s| then s[n] else null
  }

  lemma Begin(s: seq<QueueJob>, head: QueueJob?, tail: QueueJob?)
    requires Linked(s, head, tail)
    ensures head == NodeAt(s, 0)
  {
  }

  lemma EmptyIsLinked(s: seq<QueueJob>, p: Pattern)
    ensures Linked([], null, null) && Apart(s, []) && [] + Matching(s, p, true) == Matching(s, p, true)
  {
  }

  lemma NextIs(s: seq<QueueJob>, head: QueueJob?, tail: QueueJob?, i: nat)
    requires Linked(s, head, tail) && i < |s|
    ensures s[i].next == NodeAt(s, i + 1)
  {
  }

  lemma TailIs(s: seq<QueueJob>, head: QueueJob?, tail: QueueJob?)
    requires Linked(s, head, tail)
    ensures tail == if s == [] then null else s[|s| - 1]
  {
  }

  // Taking the first matching job out and putting it after those already taken.
  lemma TakingOne(s: seq<QueueJob>, got: seq<QueueJob>, k: nat, p: Pattern)
    requires k < |s| && p(s[k].cmd) && (forall l :: 0 <= l < k ==> !p(s[l].cmd))
    ensures var r := Without(s, k);
      && Matching(r, p, false) == Matching(s, p, false)
      && got + [s[k]] + Matching(r, p, true) == got + Matching(s, p, true)
      && |r| == |s| - 1 && (forall l :: 0 <= l < k ==> r[l] == s[l])
      && NodeAt(r, k) == NodeAt(s, k + 1)
  {
    var a, b := s[..k], s[k + 1..];
    var r := Without(s, k);
    assert s == a + ([s[k]] + b) && r == a + b;
    MatchingJoin(a, [s[k]] + b, p, false);
    MatchingJoin(a, [s[k]] + b, p, true);
    MatchingJoin(a, b, p, false);
    MatchingJoin(a, b, p, true);
    NoneMatches(a, p);
    assert ([s[k]] + b)[1..] == b;
    assert got + [s[k]] + Matching(b, p, true) == got + ([s[k]] + Matching(b, p, true));
    assert [] + Matching(b, p, true) == Matching(b, p, true);
  }

  lemma StillApart(s: seq<QueueJob>, got: seq<QueueJob>, k: nat)
    requires k < |s| && NoneTwice(s) && Apart(s, got)
    ensures Apart(Without(s, k), got + [s[k]]) && Apart(got, [s[k]])
  {
  }

  lemma StillWithin(s: seq<QueueJob>, got: seq<QueueJob>, k: nat, t: seq<QueueJob>)
    requires k < |s| && Within(s, t) && Within(got, t)
    ensures Within(Without(s, k), t) && Within(got + [s[k]], t)
  {
  }

  // Before i all matching jobs have been taken out of s, in order.
  ghost predicate Grabbing(s: seq<QueueJob>, left: seq<QueueJob>, got: seq<QueueJob>, p: Pattern, i: nat) {
    && i <= |left|
    && Within(left, s) && Within(got, s)
    && (forall l :: 0 <= l < i ==> !p(left[l].cmd))
    && Matching(left, p, false) == Matching(s, p, false)
    && got + Matching(left, p, true) == Matching(s, p, true)
  }

  lemma GrabbingStarts(s: seq<QueueJob>, p: Pattern)
    ensures Grabbing(s, s, [], p, 0)
  {
    assert [] + Matching(s, p, true) == Matching(s, p, true);
  }

  lemma GrabbingGoesOn(s: seq<QueueJob>, left: seq<QueueJob>, got: seq<QueueJob>, p: Pattern, i: nat, k: nat)
    requires Grabbing(s, left, got, p, i) && i <= k <= |left| && forall l :: i <= l < k ==> !p(left[l].cmd)
    ensures Grabbing(s, left, got, p, k) && Within(left, s) && Within(got, s)
  {
  }

  lemma GrabbingTakes(s: seq<QueueJob>, left: seq<QueueJob>, got: seq<QueueJob>, p: Pattern, k: nat)
    requires Grabbing(s, left, got, p, k) && k < |left| && p(left[k].cmd)
    ensures var r := Without(left, k);
      && Grabbing(s, r, got + [left[k]], p, k)
      && |r| == |left| - 1 && NodeAt(r, k) == NodeAt(left, k + 1)
  {
    hide Matching;
    TakingOne(left, got, k, p);
    StillWithin(left, got, k, s);
  }

  lemma GrabbingEnds(s: seq<QueueJob>, left: seq<QueueJob>, got: seq<QueueJob>, p: Pattern)
    requires Grabbing(s, left, got, p, |left|)
    ensures left == Matching(s, p, false) && got == Matching(s, p, true)
  {
    NoneMatches(left, p);
    assert got + [] == got;
  }

  lemma {:induction false} NoneMatches(s: seq<QueueJob>, p: Pattern)
    requires forall i :: 0 <= i < |s| ==> !p(s[i].cmd)
    ensures Matching(s, p, true) == [] && Matching(s, p, false) == s
  {
    if s != [] { NoneMatches(s[1..], p); }
  }

  lemma JustOne(job: QueueJob)
    requires job.prev == null && job.next == null
    ensures Linked([job], job, job)
  {
  }

  lemma HeadOfList(s: seq<QueueJob>, head: QueueJob?)
    requires Linked(s, head, if s == [] then null else s[|s| - 1])
    ensures (head == null <==> s == []) && (s != [] ==> head == s[0])
  {
  }

  // The other jobs, on both sides of the target.
  lemma InTwo(s: seq<QueueJob>, p: Pattern, k: nat, got: seq<QueueJob>)
    requires k <= |s| && (k < |s| ==> !p(s[k].cmd)) && got == Matching(s, p, true)
    ensures var o := Matching(s, p, false); var n := |Matching(s[..k], p, false)|;
      && n <= |o| && NodeAt(o, n) == NodeAt(s, k)
      && Joined(o, got, n) == MovedBefore(s, p, k)
      && (got == [] ==> o == MovedBefore(s, p, k))
  {
    OthersInParts(s, p, k);
    var a, b := Matching(s[..k], p, false), Matching(s[k..], p, false);
    var o := Matching(s, p, false);
    assert o[..|a|] == a && o[|a|..] == b;
    if k == |s| { assert s[k..] == []; }
    assert a + [] == a;
  }

  lemma WithoutParts(s: seq<QueueJob>, f: nat, k: nat)
    requires f < |s| && k <= |s| && f != k
    ensures var o, n := Without(s, f), if f < k then k - 1 else k;
      && n <= |o|
      && o[..n] == (if f < k then s[..f] + s[f + 1..k] else s[..k])
      && o[n..] == (if f < k then s[k..] else s[k..f] + s[f + 1..])
  {
  }

  lemma OneMoved(s: seq<QueueJob>, f: nat, k: nat)
    requires f < |s| && k <= |s| && f != k
    ensures var n := if f < k then k - 1 else k;
      n <= |s| - 1 && Joined(Without(s, f), [s[f]], n) == MovedOne(s, f, k) && NodeAt(Without(s, f), n) == NodeAt(s, k)
  {
    WithoutParts(s, f, k);
    if k < f {
      assert s[..k] + [s[f]] + (s[k..f] + s[f + 1..]) == MovedOne(s, f, k);
    }
  }

  lemma OneApart(s: seq<QueueJob>, f: nat)
    requires f < |s| && NoneTwice(s)
    ensures Apart(Without(s, f), [s[f]]) && Within(Without(s, f), s)
  {
  }

  lemma {:induction false} MatchingWithin(s: seq<QueueJob>, p: Pattern, want: bool)
    ensures Within(Matching(s, p, want), s)
  {
    if s != [] { MatchingWithin(s[1..], p, want); }
  }

  /** Moving one job moves nothing else: without it the queue is as it was. */
  lemma MovedOneKeepsOthers(s: seq<QueueJob>, f: nat, k: nat)
    requires f < |s| && k <= |s| && f != k
    ensures var r := MovedOne(s, f, k); var n := if f < k then k - 1 else k;
      |r| == |s| && r[n] == s[f] && Without(r, n) == Without(s, f)
  {
    OneMoved(s, f, k);
    var o, n := Without(s, f), if f < k then k - 1 else k;
    assert Without(Joined(o, [s[f]], n), n) == o;
  }
}

/**
 MirrorJob.cc: a tree of mirrors that run side by side and share one counter, which keeps the
 number of jobs in flight within bounds. A mirror that is still finding out what to do holds
 its weight in the counter, so that the others start nothing; every job holds one, and so does
 a finished mirror until its parent takes note of it.
 */
module Mirror {
  import opened Sequences
  import opened MirrorCourse

  // What starting it adds to the counter.
  function Cost(w: Work, flags: Flags): nat {
    match w
    case SubMirror(weight) => if flags.noRecursion then 0 else weight
    case Nothing => 0
    case _ => 1
  }

  function CostOf(todo: seq<Work>, flags: Flags): nat {
    if todo == [] then 0 else CostOf(todo[..|todo| - 1], flags) + Cost(todo[|todo| - 1], flags)
  }

  lemma CostOfNext(todo: seq<Work>, flags: Flags, n: nat)
    requires n < |todo|
    ensures CostOf(todo[..n + 1], flags) == CostOf(todo[..n], flags) + Cost(todo[n], flags)
  {
    assert todo[..n + 1][..n] == todo[..n];
  }

  lemma NoCost(flags: Flags)
    ensures CostOf([], flags) == 0
  {
  }

  datatype Job = Job(transfer: bool, done: bool)

  /** One mirror. `jobs` and `subs` are what it waits for: started jobs, and mirrors it has
      launched, named by their place in the list of all. `todo` is the rest of the set it is
      working through. `log` is its history. */
  datatype Mirror = Mirror(
    parent: int, phase: Phase, weight: nat, jobs: seq<Job>, subs: set<nat>, reaped: bool,
    todo: seq<Work>, flags: Flags, removeDir: bool, log: seq<Item>)

  // It waits for nobody.
  predicate Idle(m: Mirror) { m.jobs == [] && m.subs == {} }

  // What a mirror accounts for in the counter.
  function Charge(m: Mirror): (n: nat)
    ensures |m.jobs| <= n
  {
    (if m.parent >= 0 && Listing(m.phase) then m.weight else 0) + |m.jobs| +
    (if m.parent >= 0 && m.phase == Done && !m.reaped then 1 else 0)
  }

  function Total(ms: seq<Mirror>): nat {
    if ms == [] then 0 else Total(ms[..|ms| - 1]) + Charge(ms[|ms| - 1])
  }

  function Transfers(jobs: seq<Job>): (n: nat)
    ensures n <= |jobs|
  {
    if jobs == [] then 0 else Transfers(jobs[..|jobs| - 1]) + (if jobs[|jobs| - 1].transfer then 1 else 0)
  }

  // All file transfers in flight.
  function InFlight(ms: seq<Mirror>): nat {
    if ms == [] then 0 else InFlight(ms[..|ms| - 1]) + Transfers(ms[|ms| - 1].jobs)
  }

  // The mirrors launched by i that it has not taken note of.
  ghost function Waited(ms: seq<Mirror>, i: nat): set<nat> {
    set k: nat | k < |ms| && ms[k].parent == i && !ms[k].reaped
  }

  // A mirror waits exactly for those it has launched and not taken note of.
  ghost predicate Tree(ms: seq<Mirror>) {
    && ms != [] && ms[0].parent == -1 && !ms[0].reaped
    && (forall k :: 0 < k < |ms| ==> 0 <= ms[k].parent < k)
    && (forall i :: 0 <= i < |ms| ==> ms[i].subs == Waited(ms, i))
    && (forall k :: 0 <= k < |ms| ==> Settled(ms[k]))
  }

  // Nobody waits while listing or when done, and only who is done has been taken note of. The history
  // of a mirror is one that can be, and leads to where it is.
  predicate Settled(m: Mirror) {
    && (Listing(m.phase) || m.phase == Done || m.phase == LastExec ==> m.jobs == [] && m.subs == {})
    && (m.reaped ==> m.phase == Done)
    && (m.phase == LastExec ==> m.parent < 0)
    && Course(m.log, m.parent < 0) == Some(At(m.phase, m.todo, false))
  }

  predicate RootEnded(ms: seq<Mirror>)
    requires ms != []
  {
    ms[0].phase == Done || ms[0].phase == LastExec
  }

  /** The counter is what everybody accounts for, and transfers in flight are within bounds. */
  ghost predicate Balanced(ms: seq<Mirror>, count: int, parallel: int) {
    && Tree(ms)
    && count == Total(ms) + (if RootEnded(ms) then 1 else 0)
    && (InFlight(ms) == 0 || InFlight(ms) <= parallel)
  }

  // ---------------------------------------------------------------- sums

  lemma {:induction false} TotalUpdate(ms: seq<Mirror>, i: nat, m: Mirror)
    requires i < |ms|
    ensures Total(ms[i := m]) == Total(ms) - Charge(ms[i]) + Charge(m)
    ensures InFlight(ms[i := m]) == InFlight(ms) - Transfers(ms[i].jobs) + Transfers(m.jobs)
    decreases |ms|
  {
    var n := |ms| - 1;
    if i == n {
      assert ms[i := m][..n] == ms[..n];
    } else {
      assert ms[i := m][..n] == ms[..n][i := m];
      TotalUpdate(ms[..n], i, m);
    }
  }

  lemma TotalAppend(ms: seq<Mirror>, m: Mirror)
    ensures Total(ms + [m]) == Total(ms) + Charge(m)
    ensures InFlight(ms + [m]) == InFlight(ms) + Transfers(m.jobs)
  {
    assert (ms + [m])[..|ms|] == ms;
  }

  lemma {:induction false} ChargeInTotal(ms: seq<Mirror>, i: nat)
    requires i < |ms|
    ensures Charge(ms[i]) <= Total(ms)
    decreases |ms|
  {
    if i < |ms| - 1 { ChargeInTotal(ms[..|ms| - 1], i); }
  }

  lemma {:induction false} InFlightCharged(ms: seq<Mirror>)
    ensures InFlight(ms) <= Total(ms)
    decreases |ms|
  {
    if ms != [] { InFlightCharged(ms[..|ms| - 1]); }
  }

  lemma TransfersAppend(jobs: seq<Job>, j: Job)
    ensures Transfers(jobs + [j]) == Transfers(jobs) + (if j.transfer then 1 else 0)
  {
    assert (jobs + [j])[..|jobs|] == jobs;
  }

  lemma {:induction false} TransfersRemove(jobs: seq<Job>, n: nat)
    requires n < |jobs|
    ensures Transfers(RemoveAt(jobs, n)) == Transfers(jobs) - (if jobs[n].transfer then 1 else 0)
    decreases |jobs|
  {
    var k := |jobs| - 1;
    if n == k {
      assert RemoveAt(jobs, n) == jobs[..k];
    } else {
      var r := RemoveAt(jobs, n);
      assert r[..k - 1] == RemoveAt(jobs[..k], n) && r[k - 1] == jobs[k];
      TransfersRemove(jobs[..k], n);
    }
  }

  lemma {:induction false} TransfersSetDone(jobs: seq<Job>, n: nat)
    requires n < |jobs|
    ensures Transfers(jobs[n := jobs[n].(done := true)]) == Transfers(jobs)
    decreases |jobs|
  {
    var k := |jobs| - 1;
    if n == k {
      assert jobs[n := jobs[n].(done := true)][..k] == jobs[..k];
    } else {
      assert jobs[n := jobs[n].(done := true)][..k] == jobs[..k][n := jobs[n].(done := true)];
      TransfersSetDone(jobs[..k], n);
    }
  }

  // ---------------------------------------------------------------- when the root waits for nobody

  // Whoever has not been taken note of has somebody above that waits.
  lemma {:induction false} AllReaped(ms: seq<Mirror>, k: nat)
    requires Tree(ms) && 0 < k < |ms| && ms[0].subs == {}
    ensures ms[k].reaped
    decreases k
  {
    var i := ms[k].parent;
    if !ms[k].reaped {
      assert k in Waited(ms, i);
      if i > 0 {
        AllReaped(ms, i);
      }
      assert false;
    }
  }

  lemma {:induction false} NothingCharged(ms: seq<Mirror>, n: nat)
    requires 0 < n <= |ms| && ms[0].parent < 0 && ms[0].jobs == []
    requires forall k :: 0 < k < n ==> ms[k].reaped && ms[k].phase == Done && ms[k].jobs == []
    ensures Total(ms[..n]) == 0
    decreases n
  {
    assert ms[..n][..n - 1] == ms[..n - 1];
    if n == 1 {
      assert ms[..1] == [ms[0]] && ms[..0] == [];
    } else {
      NothingCharged(ms, n - 1);
    }
  }

  /** When the root of the tree has nothing left to wait for, no mirror and no job below it is
      left, and the counter has come down to nothing, or to the one that stands for the root. */
  lemma RootLeavesNothing(ms: seq<Mirror>, count: int, parallel: int)
    requires Balanced(ms, count, parallel) && ms[0].jobs == [] && ms[0].subs == {}
    ensures count == if RootEnded(ms) then 1 else 0
    ensures forall k :: 0 < k < |ms| ==> ms[k].reaped && ms[k].phase == Done
  {
    forall k | 0 < k < |ms| ensures ms[k].reaped && ms[k].phase == Done && ms[k].jobs == [] {
      AllReaped(ms, k);
      assert Settled(ms[k]);
    }
    NothingCharged(ms, |ms|);
    assert ms[..|ms|] == ms;
  }

  // ---------------------------------------------------------------- small changes to the tree

  // One history goes on where the other ends.
  predicate Goes(a: seq<Item>, b: seq<Item>) { |a| <= |b| && b[..|a|] == a }

  // Mirror i changed, some finished mirrors it had waited for have been taken note of, and new
  // ones may have been launched; nothing else.
  ghost predicate OnlyTouches(before: seq<Mirror>, after: seq<Mirror>, i: nat) {
    && i < |before| <= |after|
    && after[i].parent == before[i].parent && after[i].weight == before[i].weight && after[i].reaped == before[i].reaped
    && Goes(before[i].log, after[i].log)
    && forall k :: 0 <= k < |before| && k != i ==>
         || after[k] == before[k]
         || (k in before[i].subs && before[k].phase == Done && after[k] == before[k].(reaped := true))
  }

  lemma TouchesTwice(a: seq<Mirror>, b: seq<Mirror>, c: seq<Mirror>, i: nat)
    requires OnlyTouches(a, b, i) && OnlyTouches(b, c, i) && Tree(a) && Tree(b)
    ensures OnlyTouches(a, c, i)
  {
    GoesOn(a[i].log, b[i].log, c[i].log);
    forall k | 0 <= k < |a| && k != i
      ensures c[k] == a[k] || (k in a[i].subs && a[k].phase == Done && c[k] == a[k].(reaped := true))
    {
      if b[k] == a[k] && c[k] != b[k] {
        assert k in b[i].subs;
        assert b[k].parent == i && !b[k].reaped;
        assert k in a[i].subs;
      }
    }
  }

  lemma GoesOn(a: seq<Item>, b: seq<Item>, c: seq<Item>)
    requires Goes(a, b) && Goes(b, c)
    ensures Goes(a, c)
  {
    assert c[..|b|][..|a|] == c[..|a|];
  }

  // The phases entered in between were entered in one call, which found out w.
  ghost predicate EnteredIn(a: seq<Item>, b: seq<Item>, w: World) {
    forall k :: |a| <= k < |b| && b[k].Enter? ==> b[k].w == w
  }

  ghost predicate Touches(before: seq<Mirror>, after: seq<Mirror>, i: nat, w: World) {
    OnlyTouches(before, after, i) && EnteredIn(before[i].log, after[i].log, w)
  }

  lemma TouchesOn(a: seq<Mirror>, b: seq<Mirror>, c: seq<Mirror>, i: nat, w: World)
    requires Touches(a, b, i, w) && Touches(b, c, i, w) && Tree(a) && Tree(b)
    ensures Touches(a, c, i, w)
  {
    hide Tree;
    TouchesTwice(a, b, c, i);
    forall k | |a[i].log| <= k < |c[i].log| && c[i].log[k].Enter? ensures c[i].log[k].w == w {
      if k < |b[i].log| { assert c[i].log[..|b[i].log|][k] == b[i].log[k]; }
    }
  }

  // Nothing was entered.
  lemma QuietTouch(a: seq<Mirror>, b: seq<Mirror>, i: nat, w: World)
    requires OnlyTouches(a, b, i) && b[i].log == a[i].log
    ensures Touches(a, b, i, w)
  {
  }

  /** When a call returns, nothing more can be done now: the mirror waits for an answer, for room in
      the counter, or for what it has started; or it has only just come to where it is. */
  ghost predicate Rests(before: Mirror, m: Mirror, w: World, count: int, parallel: int) {
    && (w.tooManyErrors ==> !Working(m.phase))
    && match m.phase
       case Initial => false
       case ChangingDirSource => w.source.Pending?
       case MakeTargetDir => !w.madeTarget
       case ChangingDirTarget => w.target.Pending?
       case GettingListInfo => |m.log| == |before.log| ==> w.lists.Pending?
       case RemoveOldFirst => count >= parallel || (m.todo == [] && !Idle(m))
       case WaitingForTransfer => count >= parallel || (m.todo == [] && !Idle(m))
       case RemoveOld => count >= parallel || (m.todo == [] && !Idle(m))
       case TargetMkdir => count >= parallel
       case TargetChmod => count >= parallel
       case RemovingSame => count >= parallel
       case Finishing => |m.log| == |before.log| ==> !Idle(m)
       case LastExec => |m.log| == |before.log| ==> !w.execDone
       case Done => true
  }

  ghost predicate Moves(before: seq<Mirror>, after: seq<Mirror>, i: nat, w: World, count: int, parallel: int) {
    Touches(before, after, i, w) && Rests(before[i], after[i], w, count, parallel)
  }

  lemma MovesOn(a: seq<Mirror>, b: seq<Mirror>, c: seq<Mirror>, i: nat, w: World, count: int, parallel: int)
    requires Touches(a, b, i, w) && Moves(b, c, i, w, count, parallel) && Tree(a) && Tree(b)
    ensures Moves(a, c, i, w, count, parallel)
  {
    hide Tree;
    TouchesOn(a, b, c, i, w);
  }

  // A mirror that enters a phase.
  function Entered(m: Mirror, p: Phase, w: World): Mirror {
    m.(phase := p, todo := SetFor(w, p), log := m.log + [Enter(p, w, Idle(m), m.flags.depthFirst)])
  }

  ghost predicate MayEnter(m: Mirror, p: Phase, w: World) {
    Allowed(At(m.phase, m.todo, false), Enter(p, w, Idle(m), m.flags.depthFirst), m.parent < 0)
  }

  lemma EnteredIsSettled(m: Mirror, p: Phase, w: World)
    requires Settled(m) && MayEnter(m, p, w) && (m.reaped ==> p == Done) && (p == LastExec ==> m.parent < 0)
    requires Listing(p) || p == Done || p == LastExec ==> Idle(m)
    ensures Settled(Entered(m, p, w))
  {
    hide Course, Allowed;
    CourseOn(m.log, Enter(p, w, Idle(m), m.flags.depthFirst), m.parent < 0, At(m.phase, m.todo, false));
  }

  // The listings are in.
  lemma ListsLeft(m: Mirror, w: World)
    requires m.phase == GettingListInfo && w.lists.Good?
    ensures MayEnter(m, PhaseAfterLists(w, m.parent < 0, m.flags.depthFirst), w)
  {
  }

  // A mirror below the root may be done when it waits for nobody.
  lemma ScannedOnly(m: Mirror, w: World)
    requires m.phase == Finishing && m.parent >= 0 && Idle(m)
    ensures MayEnter(m, Done, w)
  {
  }

  lemma DoneRests(before: Mirror, m: Mirror, w: World, count: int, parallel: int)
    requires m.phase == Done
    ensures Rests(before, m, w, count, parallel)
  {
  }

  lemma EnteredTouches(ms: seq<Mirror>, i: nat, m: Mirror, p: Phase, w: World)
    requires i < |ms| && OnlyTouches(ms, ms[i := m], i) && m.log == Entered(ms[i], p, w).log
    ensures Touches(ms, ms[i := m], i, w)
  {
  }

  // The first entry of the set is started.
  function Started(m: Mirror): Mirror
    requires m.todo != []
  {
    m.(todo := m.todo[1..], log := m.log + [Start(m.todo[0])])
  }

  lemma StartedIsSettled(m: Mirror)
    requires Settled(m) && Working(m.phase) && m.todo != []
    ensures Settled(Started(m))
  {
    hide Course;
    CourseOn(m.log, Start(m.todo[0]), m.parent < 0, At(m.phase, m.todo, false));
  }

  // Too many errors stop the work.
  function Stopped(m: Mirror, w: World): Mirror {
    m.(phase := Finishing, todo := [], log := m.log + [Stop] + [Enter(Finishing, w, Idle(m), m.flags.depthFirst)])
  }

  lemma StoppedIsSettled(m: Mirror, w: World)
    requires Settled(m) && Working(m.phase) && !m.reaped
    ensures Settled(Stopped(m, w))
  {
    hide Course;
    CourseOn(m.log, Stop, m.parent < 0, At(m.phase, m.todo, false));
    CourseOn(m.log + [Stop], Enter(Finishing, w, Idle(m), m.flags.depthFirst), m.parent < 0,
             At(m.phase, m.todo, true));
  }

  // A change within one mirror that does not concern its place in the tree.
  lemma ChangeOne(ms: seq<Mirror>, i: nat, m: Mirror)
    requires Tree(ms) && i < |ms| && Settled(m) && Goes(ms[i].log, m.log)
    requires m.parent == ms[i].parent && m.weight == ms[i].weight && m.subs == ms[i].subs && m.reaped == ms[i].reaped
    ensures Tree(ms[i := m]) && OnlyTouches(ms, ms[i := m], i)
    ensures Total(ms[i := m]) == Total(ms) - Charge(ms[i]) + Charge(m)
    ensures InFlight(ms[i := m]) == InFlight(ms) - Transfers(ms[i].jobs) + Transfers(m.jobs)
  {
    hide Total, InFlight;
    TotalUpdate(ms, i, m);
    var n := ms[i := m];
    forall j | 0 <= j < |n| ensures n[j].subs == Waited(n, j) {
      assert Waited(n, j) == Waited(ms, j);
    }
  }

  // A mirror as it is made: for a subdirectory, with the flags of its parent.
  function NewMirror(parent: int, weight: nat, flags: Flags): Mirror {
    Mirror(parent, Initial, weight, [], {}, false, [], flags, false, [])
  }

  // Once the directories have gone first, they are not gone into again.
  function AfterDirs(flags: Flags): Flags { flags.(depthFirst := false, noRecursion := true) }

  lemma LaunchOne(ms: seq<Mirror>, i: nat, weight: nat)
    requires Tree(ms) && i < |ms| && !Listing(ms[i].phase) && ms[i].phase != Done && ms[i].phase != LastExec
    ensures var n := ms[i := ms[i].(subs := ms[i].subs + {|ms|})] + [NewMirror(i, weight, ms[i].flags)];
      Tree(n) && OnlyTouches(ms, n, i) && Total(n) == Total(ms) + weight && InFlight(n) == InFlight(ms)
  {
    hide Total, InFlight, Transfers, Waited;
    var m := ms[i].(subs := ms[i].subs + {|ms|});
    TotalUpdate(ms, i, m);
    TotalAppend(ms[i := m], NewMirror(i, weight, ms[i].flags));
    var n := ms[i := m] + [NewMirror(i, weight, ms[i].flags)];
    forall j | 0 <= j < |n| ensures n[j].subs == Waited(n, j) {
      LaunchWaited(ms, i, weight, j);
    }
  }

  lemma LaunchWaited(ms: seq<Mirror>, i: nat, weight: nat, j: nat)
    requires Tree(ms) && i < |ms| && j <= |ms|
    ensures var n := ms[i := ms[i].(subs := ms[i].subs + {|ms|})] + [NewMirror(i, weight, ms[i].flags)];
      Waited(n, j) == if j == |ms| then {} else Waited(ms, j) + (if j == i then {|ms|} else {})
  {
  }

  lemma ReapOne(ms: seq<Mirror>, i: nat, k: nat)
    requires Tree(ms) && i < |ms| && k in ms[i].subs && k < |ms| && ms[k].phase == Done
    ensures k != i
    ensures var n := ms[k := ms[k].(reaped := true)][i := ms[i].(subs := ms[i].subs - {k})];
      Tree(n) && OnlyTouches(ms, n, i) && Total(n) == Total(ms) - 1 && InFlight(n) == InFlight(ms)
  {
    hide Total, InFlight, Waited;
    RootStays(ms, i, k);
    var a := ms[k := ms[k].(reaped := true)];
    var n := a[i := ms[i].(subs := ms[i].subs - {k})];
    TotalUpdate(ms, k, ms[k].(reaped := true));
    TotalUpdate(a, i, ms[i].(subs := ms[i].subs - {k}));
    forall j | 0 <= j < |n| ensures n[j].subs == Waited(n, j) {
      ReapWaited(ms, i, k, j);
    }
  }

  lemma ReapWaited(ms: seq<Mirror>, i: nat, k: nat, j: nat)
    requires Tree(ms) && i < |ms| && k in ms[i].subs && i < k < |ms| && j < |ms|
    ensures var n := ms[k := ms[k].(reaped := true)][i := ms[i].(subs := ms[i].subs - {k})];
      Waited(n, j) == Waited(ms, j) - {k} && (j != i ==> k !in Waited(ms, j))
  {
    hide Settled, Total, InFlight;
  }

  // ---------------------------------------------------------------- the tree of mirrors

  datatype Turn = DoTurn(i: nat, w: World) | EndTurn(i: nat, n: nat)

  class MirrorTree {
    var mirrors: seq<Mirror>
    var count: int
    const parallel: int

    ghost predicate Valid()
      reads this
    {
      Balanced(mirrors, count, parallel)
    }

    constructor (parallel: int, flags: Flags)
      ensures Valid() && this.parallel == parallel && count == 0
      ensures mirrors == [NewMirror(-1, 0, flags)]
    {
      var root := NewMirror(-1, 0, flags);
      mirrors, count := [root], 0;
      this.parallel := parallel;
      new;
      TotalAppend([], root);
      assert [] + [root] == [root] && [root][..0] == [];
      assert Total([root]) == 0 && InFlight([root]) == 0;
    }

    // A job comes to its end, on its own.
    method EndJob(i: nat, n: nat)
      requires Valid() && i < |mirrors| && n < |mirrors[i].jobs|
      modifies this
      ensures Valid() && count == old(count)
      ensures var m := old(mirrors[i]);
        mirrors == old(mirrors)[i := m.(jobs := m.jobs[n := m.jobs[n].(done := true)])]
    {
      hide Total, InFlight, Tree, Transfers;
      var m := mirrors[i];
      TransfersSetDone(m.jobs, n);
      SettledOf(mirrors, i);
      var m' := m.(jobs := m.jobs[n := m.jobs[n].(done := true)]);
      ChangeOne(mirrors, i, m');
      mirrors := mirrors[i := m'];
    }

    method JobStarted(i: nat, transfer: bool)
      requires Valid() && i < |mirrors| && !Listing(mirrors[i].phase)
      requires mirrors[i].phase != Done && mirrors[i].phase != LastExec
      requires transfer ==> count < parallel
      modifies this
      ensures Valid() && OnlyTouches(old(mirrors), mirrors, i) && count == old(count) + 1
      ensures |mirrors| == |old(mirrors)|
      ensures mirrors[i] == old(mirrors[i]).(jobs := old(mirrors[i].jobs) + [Job(transfer, false)])
    {
      hide Total, InFlight, Tree, Transfers;
      var m := mirrors[i];
      TransfersAppend(m.jobs, Job(transfer, false));
      InFlightCharged(mirrors);
      SettledOf(mirrors, i);
      var m' := m.(jobs := m.jobs + [Job(transfer, false)]);
      ChangeOne(mirrors, i, m');
      mirrors, count := mirrors[i := m'], count + 1;
    }

    // JobFinished, for a job of the mirror's own.
    method JobFinished(i: nat, n: nat)
      requires Valid() && i < |mirrors| && n < |mirrors[i].jobs|
      modifies this
      ensures Valid() && OnlyTouches(old(mirrors), mirrors, i) && count == old(count) - 1 && |mirrors| == |old(mirrors)|
      ensures mirrors[i] == old(mirrors[i]).(jobs := RemoveAt(old(mirrors[i].jobs), n))
    {
      hide Total, InFlight, Tree, Transfers;
      ChargeInTotal(mirrors, i);
      assert count > 0;
      var m := mirrors[i];
      TransfersRemove(m.jobs, n);
      SettledOf(mirrors, i);
      var m' := m.(jobs := RemoveAt(m.jobs, n));
      ChangeOne(mirrors, i, m');
      mirrors, count := mirrors[i := m'], count - 1;
    }

    // JobFinished, for a mirror of a subdirectory.
    method SubFinished(i: nat, k: nat)
      requires Valid() && i < |mirrors| && k in mirrors[i].subs && k < |mirrors| && mirrors[k].phase == Done
      modifies this
      ensures Valid() && OnlyTouches(old(mirrors), mirrors, i) && count == old(count) - 1 && |mirrors| == |old(mirrors)|
      ensures mirrors[i] == old(mirrors[i]).(subs := old(mirrors[i].subs) - {k})
      ensures k < |mirrors| && mirrors[k] == old(mirrors[k]).(reaped := true)
    {
      hide Total, InFlight, Transfers;
      ReapOne(mirrors, i, k);
      RootStays(mirrors, i, k);
      ghost var n := mirrors[k := mirrors[k].(reaped := true)][i := mirrors[i].(subs := mirrors[i].subs - {k})];
      assert count > 0 by { assert count >= Total(mirrors) == Total(n) + 1; }
      mirrors := mirrors[k := mirrors[k].(reaped := true)];
      mirrors := mirrors[i := mirrors[i].(subs := mirrors[i].subs - {k})];
      count := count - 1;
    }

    // Working through a file set, or waiting for jobs at the end.
    predicate Busy(i: nat)
      reads this
    {
      i < |mirrors| && !Listing(mirrors[i].phase) && mirrors[i].phase != Done && mirrors[i].phase != LastExec
    }

    // A subdirectory's mirror is made, and MirrorStarted at once.
    method Launch(i: nat, weight: nat)
      requires Valid() && Busy(i)
      modifies this
      ensures Valid() && OnlyTouches(old(mirrors), mirrors, i) && count == old(count) + weight
      ensures mirrors[i] == old(mirrors[i]).(subs := old(mirrors[i].subs) + {|old(mirrors)|})
      ensures mirrors[|old(mirrors)|..] == [NewMirror(i, weight, old(mirrors[i].flags))]
    {
      hide Total, InFlight, Tree, Transfers;
      LaunchOne(mirrors, i, weight);
      var k := |mirrors|;
      mirrors := mirrors[i := mirrors[i].(subs := mirrors[i].subs + {k})] + [NewMirror(i, weight, mirrors[i].flags)];
      count := count + weight;
    }

    // A mirror may enter a phase: what it is in may be left, and for that one.
    ghost predicate CanEnter(i: nat, p: Phase, w: World)
      reads this
    {
      i < |mirrors| && MayEnter(mirrors[i], p, w)
    }

    // From one phase of the work, or of the listing, to another.
    method SetPhase(i: nat, p: Phase, todo: seq<Work>, w: World)
      requires Valid() && CanEnter(i, p, w) && todo == SetFor(w, p) && p != Done && p != LastExec
      requires Listing(p) == Listing(mirrors[i].phase) && mirrors[i].phase != Done && mirrors[i].phase != LastExec
      modifies this
      ensures Valid() && Touches(old(mirrors), mirrors, i, w) && count == old(count)
      ensures mirrors == old(mirrors)[i := Entered(old(mirrors[i]), p, w)]
    {
      hide Total, InFlight, Tree, Transfers, MayEnter, Course;
      SettledOf(mirrors, i);
      var m := mirrors[i].(phase := p, todo := todo, log := LogOf(mirrors[i], p, w));
      EnteredIsSettled(mirrors[i], p, w);
      ChangeOne(mirrors, i, m);
      EnteredTouches(mirrors, i, m, p, w);
      mirrors := mirrors[i := m];
    }

    // The first entry of the set is taken off it.
    method TakeEntry(i: nat)
      requires Valid() && i < |mirrors| && Working(mirrors[i].phase) && mirrors[i].todo != []
      modifies this
      ensures Valid() && OnlyTouches(old(mirrors), mirrors, i) && count == old(count)
      ensures mirrors == old(mirrors)[i := Started(old(mirrors[i]))]
    {
      hide Total, InFlight, Tree, Transfers, Course;
      SettledOf(mirrors, i);
      var m := mirrors[i].(todo := mirrors[i].todo[1..], log := mirrors[i].log + [Start(mirrors[i].todo[0])]);
      StartedIsSettled(mirrors[i]);
      ChangeOne(mirrors, i, m);
      mirrors := mirrors[i := m];
    }

    // Too many errors: whatever is left of the set is not worked through.
    method StopWork(i: nat, w: World)
      requires Valid() && i < |mirrors| && Working(mirrors[i].phase)
      modifies this
      ensures Valid() && Touches(old(mirrors), mirrors, i, w) && count == old(count)
      ensures mirrors == old(mirrors)[i := Stopped(old(mirrors[i]), w)]
    {
      hide Total, InFlight, Tree, Transfers, Course;
      SettledOf(mirrors, i);
      StoppedIsSettled(mirrors[i], w);
      StoppedGoes(mirrors[i], w);
      ChangeOne(mirrors, i, Stopped(mirrors[i], w));
      mirrors := mirrors[i := Stopped(mirrors[i], w)];
    }

    // MirrorFinished: the weight is taken off again, and the mirror is not listing any more.
    method EndListing(i: nat, p: Phase, todo: seq<Work>, w: World)
      requires Valid() && CanEnter(i, p, w) && todo == SetFor(w, p)
      requires Listing(mirrors[i].phase) && !Listing(p) && p != Done && p != LastExec
      modifies this
      ensures Valid() && Touches(old(mirrors), mirrors, i, w) && Busy(i)
      ensures count == old(count) - (if old(mirrors[i]).parent >= 0 then old(mirrors[i]).weight else 0)
      ensures mirrors == old(mirrors)[i := Entered(old(mirrors[i]), p, w)]
    {
      hide Total, InFlight, Tree, Transfers, MayEnter, Course;
      SettledOf(mirrors, i);
      ChargeInTotal(mirrors, i);
      var m := mirrors[i].(phase := p, todo := todo, log := LogOf(mirrors[i], p, w));
      EnteredIsSettled(mirrors[i], p, w);
      ChangeOne(mirrors, i, m);
      EnteredTouches(mirrors, i, m, p, w);
      if mirrors[i].parent >= 0 {
        assert count >= mirrors[i].weight;
        count := count - mirrors[i].weight;
      }
      mirrors := mirrors[i := m];
    }

    // MirrorStarted once more, after the directories have been transferred first.
    method ListAgain(i: nat, p: Phase, w: World)
      requires Valid() && Busy(i) && Idle(mirrors[i]) && Listing(p) && CanEnter(i, p, w)
      modifies this
      ensures Valid() && Touches(old(mirrors), mirrors, i, w)
      ensures count == old(count) + (if old(mirrors[i]).parent >= 0 then old(mirrors[i]).weight else 0)
      ensures mirrors ==
        old(mirrors)[i := Entered(old(mirrors[i]), p, w).(flags := AfterDirs(old(mirrors[i].flags)))]
    {
      hide Total, InFlight, Tree, Transfers, MayEnter, Course;
      SettledOf(mirrors, i);
      var m := Entered(mirrors[i], p, w).(flags := AfterDirs(mirrors[i].flags));
      EnteredIsSettled(mirrors[i], p, w);
      ChangeOne(mirrors, i, m);
      EnteredTouches(mirrors, i, m, p, w);
      if mirrors[i].parent >= 0 { count := count + mirrors[i].weight; }
      mirrors := mirrors[i := m];
    }

    // The end: one in the counter stands for the mirror until its parent takes note of it.
    method EndMirror(i: nat, p: Phase, w: World)
      requires Valid() && Busy(i) && Idle(mirrors[i]) && CanEnter(i, p, w)
      requires p == Done || (p == LastExec && mirrors[i].parent < 0)
      modifies this
      ensures Valid() && Touches(old(mirrors), mirrors, i, w) && count == old(count) + 1
      ensures mirrors == old(mirrors)[i := Entered(old(mirrors[i]), p, w)]
    {
      hide Total, InFlight, Tree, Transfers, MayEnter, Course;
      SettledOf(mirrors, i);
      RootIsFirst(mirrors, i);
      var m := Entered(mirrors[i], p, w);
      EnteredIsSettled(mirrors[i], p, w);
      ChangeOne(mirrors, i, m);
      EnteredTouches(mirrors, i, m, p, w);
      mirrors, count := mirrors[i := m], count + 1;
    }

    // FindDoneAwaitedJob among the mirrors waited for.
    method FindDoneSub(i: nat) returns (k: Option<nat>)
      requires Valid() && i < |mirrors|
      ensures k.Some? ==> k.value in mirrors[i].subs && k.value < |mirrors| && mirrors[k.value].phase == Done
      ensures k.None? ==> forall j :: j in mirrors[i].subs && j < |mirrors| ==> mirrors[j].phase != Done
    {
      var left := mirrors[i].subs;
      while left != {}
        invariant left <= mirrors[i].subs
        invariant forall j :: j in mirrors[i].subs - left && j < |mirrors| ==> mirrors[j].phase != Done
      {
        var j :| j in left;
        if j < |mirrors| && mirrors[j].phase == Done { return Some(j); }
        left := left - {j};
      }
      return None;
    }

    method FindDoneJob(i: nat) returns (n: Option<nat>)
      requires i < |mirrors|
      ensures n.Some? ==> n.value < |mirrors[i].jobs| && mirrors[i].jobs[n.value].done
      ensures n.None? ==> forall j :: 0 <= j < |mirrors[i].jobs| ==> !mirrors[i].jobs[j].done
    {
      var j := 0;
      while j < |mirrors[i].jobs|
        invariant j <= |mirrors[i].jobs| && forall l :: 0 <= l < j ==> !mirrors[i].jobs[l].done
      {
        if mirrors[i].jobs[j].done { return Some(j); }
        j := j + 1;
      }
      return None;
    }

    // The loop that every working phase begins with: all that has come to its end is removed.
    method Reap(i: nat)
      requires Valid() && Busy(i)
      modifies this
      ensures Valid() && Busy(i) && OnlyTouches(old(mirrors), mirrors, i)
      ensures |mirrors| == |old(mirrors)| && count <= old(count)
      ensures forall j :: 0 <= j < |mirrors[i].jobs| ==> !mirrors[i].jobs[j].done
      ensures forall k :: k in mirrors[i].subs && k < |mirrors| ==> mirrors[k].phase != Done
      ensures mirrors[i] == old(mirrors[i]).(jobs := mirrors[i].jobs, subs := mirrors[i].subs)
    {
      hide Total, InFlight, Tree, Transfers, Settled, OnlyTouches;
      ghost var was := mirrors;
      TouchesItself(mirrors, i);
      while true
        invariant Valid() && Busy(i) && OnlyTouches(was, mirrors, i) && |mirrors| == |was| && count <= old(count)
        invariant mirrors[i] == was[i].(jobs := mirrors[i].jobs, subs := mirrors[i].subs)
        decreases |mirrors[i].jobs| + |mirrors[i].subs|
      {
        ghost var before := mirrors;
        var n := FindDoneJob(i);
        if n.Some? {
          JobFinished(i, n.value);
        } else {
          var k := FindDoneSub(i);
          if k.None? { return; }
          SubFinished(i, k.value);
        }
        TouchesTwice(was, before, mirrors, i);
      }
    }

    // Whether the source directory is to be removed at the end.
    method SetRemoveDir(i: nat, remove: bool)
      requires Valid() && i < |mirrors|
      modifies this
      ensures Valid() && OnlyTouches(old(mirrors), mirrors, i) && count == old(count)
      ensures mirrors == old(mirrors)[i := old(mirrors[i]).(removeDir := remove)]
    {
      hide Total, InFlight, Tree, Transfers;
      SettledOf(mirrors, i);
      ChangeOne(mirrors, i, mirrors[i].(removeDir := remove));
      mirrors := mirrors[i := mirrors[i].(removeDir := remove)];
    }

    method EndExec(i: nat, w: World)
      requires Valid() && i < |mirrors| && mirrors[i].phase == LastExec && CanEnter(i, Done, w)
      modifies this
      ensures Valid() && Touches(old(mirrors), mirrors, i, w) && count == old(count)
      ensures mirrors == old(mirrors)[i := Entered(old(mirrors[i]), Done, w)]
    {
      hide Total, InFlight, Tree, Transfers, MayEnter, Course;
      SettledOf(mirrors, i);
      RootIsFirst(mirrors, i);
      var m := Entered(mirrors[i], Done, w);
      EnteredIsSettled(mirrors[i], Done, w);
      ChangeOne(mirrors, i, m);
      EnteredTouches(mirrors, i, m, Done, w);
      mirrors := mirrors[i := m];
    }

    /** One entry of the set that is being worked through: a transfer or another job is begun, or a
        mirror of the subdirectory. */
    method HandleEntry(i: nat)
      requires Valid() && Busy(i) && Working(mirrors[i].phase) && mirrors[i].todo != [] && count < parallel
      modifies this
      ensures Valid() && Busy(i) && OnlyTouches(old(mirrors), mirrors, i)
      ensures var was, m := old(mirrors[i]), mirrors[i];
        && m.todo == was.todo[1..] && m.log == was.log + [Start(was.todo[0])]
        && m.phase == was.phase && m.flags == was.flags
        && count == old(count) + Cost(was.todo[0], was.flags)
        && m.jobs == was.jobs + JobsFor(was.todo[0])
        && mirrors[|old(mirrors)|..] == MirrorsFor(i, was.todo[0], was.flags)
    {
      hide Total, InFlight, Tree, Transfers, Settled, OnlyTouches;
      ghost var was := mirrors;
      var entry := mirrors[i].todo[0];
      TakeEntry(i);
      ghost var mid := mirrors;
      TouchesItself(mirrors, i);
      match entry {
        case Transfer => JobStarted(i, true);
        case Command => JobStarted(i, false);
        case SubMirror(weight) => if !mirrors[i].flags.noRecursion { Launch(i, weight); }
        case Nothing =>
      }
      TouchesTwice(was, mid, mirrors, i);
    }

    /** The set is worked through from its front, and each entry is started below the limit only,
        until the set is empty or the limit reached. */
    method WorkOff(i: nat) returns (exhausted: bool, ghost started: nat)
      requires Valid() && Busy(i) && Working(mirrors[i].phase)
      modifies this
      ensures Valid() && Busy(i) && OnlyTouches(old(mirrors), mirrors, i)
      ensures CameTo(old(mirrors[i]), mirrors[i], started, old(count), count, parallel)
      ensures Launched(old(mirrors), mirrors, i, started)
      ensures exhausted <==> count < parallel
      ensures exhausted ==> mirrors[i].todo == []
    {
      hide Total, InFlight, Tree, Transfers, Settled, OnlyTouches, Cost, Listing, CameTo, Launched;
      ghost var was := mirrors;
      TouchesItself(mirrors, i);
      started := 0;
      NothingStarted(mirrors, i, count, parallel);
      while count < parallel && |mirrors[i].todo| > 0
        invariant Valid() && Busy(i) && OnlyTouches(was, mirrors, i) && mirrors[i].phase == was[i].phase
        invariant CameTo(was[i], mirrors[i], started, old(count), count, parallel)
        invariant Launched(was, mirrors, i, started)
        decreases |mirrors[i].todo|
      {
        ghost var before, c := mirrors, count;
        HandleEntry(i);
        CameOn(was[i], before[i], mirrors[i], started, old(count), c, count, parallel);
        LaunchedOn(was, before, mirrors, i, started, old(count), c, parallel);
        TouchesTwice(was, before, mirrors, i);
        started := started + 1;
      }
      return count < parallel, started;
    }

    // What every working phase does: what has ended is removed, too many errors end it all, and
    // the set is worked through.
    method WorkOn(i: nat, w: World) returns (exhausted: bool)
      requires Valid() && Busy(i) && Working(mirrors[i].phase)
      modifies this
      ensures Valid() && i < |mirrors| && Touches(old(mirrors), mirrors, i, w)
      ensures exhausted ==>
        && Busy(i) && count < parallel && mirrors[i].todo == [] && mirrors[i].phase == old(mirrors[i].phase)
        && mirrors[i].flags == old(mirrors[i].flags) && !w.tooManyErrors
      ensures !exhausted && !w.tooManyErrors ==> count >= parallel && mirrors[i].phase == old(mirrors[i].phase)
      ensures w.tooManyErrors ==> Moves(old(mirrors), mirrors, i, w, count, parallel)
    {
      hide Total, InFlight, Tree, Transfers, Settled, OnlyTouches, MayEnter, Rests;
      ghost var was := mirrors;
      Reap(i);
      ghost var mid := mirrors;
      QuietTouch(was, mid, i, w);
      if w.tooManyErrors {
        StopWork(i, w);
        ghost var stopped := mirrors;
        Finish(i, w);
        MovesOn(mid, stopped, mirrors, i, w, count, parallel);
        exhausted := false;
      } else {
        ghost var started;
        exhausted, started := WorkOff(i);
        StartsTouch(mid, mirrors, i, mid[i].todo[..started], w);
      }
      TouchesOn(was, mid, mirrors, i, w);
      if w.tooManyErrors { MovesOn(was, mid, mirrors, i, w, count, parallel); }
    }

    // The last phase: when nothing is waited for any more, the source directory is removed once,
    // and the mirror is done.
    method Finish(i: nat, w: World)
      requires Valid() && Busy(i) && mirrors[i].phase == Finishing
      modifies this
      ensures Valid() && i < |mirrors| && Moves(old(mirrors), mirrors, i, w, count, parallel)
      ensures mirrors[i].phase == old(mirrors[i].phase) || mirrors[i].phase == Done || mirrors[i].phase == LastExec
      ensures mirrors[i].phase != old(mirrors[i].phase) ==> mirrors[i].jobs == [] && mirrors[i].subs == {}
    {
      hide Total, InFlight, Tree, Transfers, Settled, OnlyTouches;
      ghost var was := mirrors;
      Reap(i);
      ghost var mid := mirrors;
      QuietTouch(was, mid, i, w);
      TouchesItself(mirrors, i);
      QuietTouch(mid, mid, i, w);
      if Idle(mirrors[i]) {
        if mirrors[i].removeDir {
          SetRemoveDir(i, false);
          ghost var cleared := mirrors;
          JobStarted(i, false);
          TouchesTwice(mid, cleared, mirrors, i);
          QuietTouch(mid, mirrors, i, w);
        } else {
          EndMirror(i, if mirrors[i].parent < 0 && w.onChange then LastExec else Done, w);
        }
      }
      TouchesOn(was, mid, mirrors, i, w);
    }

    method StartFinishing(i: nat, w: World)
      requires Valid() && Busy(i) && CanEnter(i, Finishing, w)
      modifies this
      ensures Valid() && i < |mirrors| && Moves(old(mirrors), mirrors, i, w, count, parallel)
    {
      hide Total, InFlight, Tree, Transfers, Settled, OnlyTouches, MayEnter, Rests;
      ghost var was := mirrors;
      SetPhase(i, Finishing, [], w);
      ghost var mid := mirrors;
      Finish(i, w);
      MovesOn(was, mid, mirrors, i, w, count, parallel);
    }

    method RemoveSame(i: nat, w: World)
      requires Valid() && Busy(i) && mirrors[i].phase == RemovingSame
      modifies this
      ensures Valid() && i < |mirrors| && Moves(old(mirrors), mirrors, i, w, count, parallel)
    {
      hide Total, InFlight, Tree, Transfers, Settled, OnlyTouches;
      ghost var was := mirrors;
      var exhausted := WorkOn(i, w);
      ghost var mid := mirrors;
      if exhausted {
        StartFinishing(i, w);
        MovesOn(was, mid, mirrors, i, w, count, parallel);
      }
    }

    method FixLocal(i: nat, w: World)
      requires Valid() && Busy(i) && CanEnter(i, PhaseAfterChmod(w), w)
      modifies this
      ensures Valid() && i < |mirrors| && Moves(old(mirrors), mirrors, i, w, count, parallel)
    {
      hide Total, InFlight, Tree, Transfers, Settled, OnlyTouches, MayEnter, Rests;
      ghost var was := mirrors;
      if w.removeSame {
        SetPhase(i, RemovingSame, w.same, w);
        ghost var mid := mirrors;
        RemoveSame(i, w);
        MovesOn(was, mid, mirrors, i, w, count, parallel);
      } else {
        StartFinishing(i, w);
      }
    }

    method Chmod(i: nat, w: World)
      requires Valid() && Busy(i) && mirrors[i].phase == TargetChmod
      modifies this
      ensures Valid() && i < |mirrors| && Moves(old(mirrors), mirrors, i, w, count, parallel)
    {
      hide Total, InFlight, Tree, Transfers, Settled, OnlyTouches;
      ghost var was := mirrors;
      var exhausted := WorkOn(i, w);
      ghost var mid := mirrors;
      if exhausted {
        FixLocal(i, w);
        MovesOn(was, mid, mirrors, i, w, count, parallel);
      }
    }

    method StartChmod(i: nat, w: World)
      requires Valid() && Busy(i) && CanEnter(i, PhaseAfterRemoving(w), w)
      modifies this
      ensures Valid() && i < |mirrors| && Moves(old(mirrors), mirrors, i, w, count, parallel)
    {
      hide Total, InFlight, Tree, Transfers, Settled, OnlyTouches, MayEnter, Rests;
      ghost var was := mirrors;
      if w.noPerms {
        FixLocal(i, w);
      } else {
        SetPhase(i, TargetChmod, w.modes, w);
        ghost var mid := mirrors;
        Chmod(i, w);
        MovesOn(was, mid, mirrors, i, w, count, parallel);
      }
    }

    method RemoveRest(i: nat, w: World)
      requires Valid() && Busy(i) && mirrors[i].phase == RemoveOld
      modifies this
      ensures Valid() && i < |mirrors| && Moves(old(mirrors), mirrors, i, w, count, parallel)
    {
      hide Total, InFlight, Tree, Transfers, Settled, OnlyTouches;
      ghost var was := mirrors;
      var exhausted := WorkOn(i, w);
      ghost var mid := mirrors;
      if exhausted && Idle(mirrors[i]) {
        StartChmod(i, w);
        MovesOn(was, mid, mirrors, i, w, count, parallel);
      }
    }

    method StartRemoving(i: nat, w: World)
      requires Valid() && Busy(i) && CanEnter(i, PhaseAfterTransfers(w), w)
      modifies this
      ensures Valid() && i < |mirrors| && Moves(old(mirrors), mirrors, i, w, count, parallel)
    {
      hide Total, InFlight, Tree, Transfers, Settled, OnlyTouches, MayEnter, Rests;
      ghost var was := mirrors;
      if w.removeFirst {
        StartChmod(i, w);
      } else {
        SetPhase(i, RemoveOld, w.removals, w);
        ghost var mid := mirrors;
        RemoveRest(i, w);
        MovesOn(was, mid, mirrors, i, w, count, parallel);
      }
    }

    // The listings are asked for, where the protocol can list at all.
    method StartListing(i: nat, w: World)
      requires Valid() && CanEnter(i, GettingListInfo, w) && Listing(mirrors[i].phase)
      modifies this
      ensures Valid() && i < |mirrors| && Moves(old(mirrors), mirrors, i, w, count, parallel)
    {
      hide Total, InFlight, Tree, Transfers, Settled, OnlyTouches;
      ghost var was := mirrors;
      SetPhase(i, GettingListInfo, [], w);
      ghost var mid := mirrors;
      if !w.listable {
        EndListing(i, Finishing, [], w);
        TouchesOn(was, mid, mirrors, i, w);
      }
    }

    // A directory could not be entered.
    method FailChdir(i: nat, mkdir: bool, w: World)
      requires Valid() && CanEnter(i, Finishing, w) && Listing(mirrors[i].phase)
      modifies this
      ensures Valid() && i < |mirrors| && Moves(old(mirrors), mirrors, i, w, count, parallel)
    {
      hide Total, InFlight, Tree, Transfers, Settled, OnlyTouches;
      ghost var was := mirrors;
      SetRemoveDir(i, false);
      ghost var cleared := mirrors;
      QuietTouch(was, cleared, i, w);
      EndListing(i, Finishing, [], w);
      TouchesOn(was, cleared, mirrors, i, w);
      ghost var mid := mirrors;
      if mkdir {
        JobStarted(i, false);
        QuietTouch(mid, mirrors, i, w);
        TouchesOn(was, mid, mirrors, i, w);
      }
    }

    method ChdirTarget(i: nat, w: World)
      requires Valid() && i < |mirrors| && mirrors[i].phase == ChangingDirTarget
      modifies this
      ensures Valid() && i < |mirrors| && Moves(old(mirrors), mirrors, i, w, count, parallel)
    {
      hide Total, InFlight, Tree, Transfers, Settled, OnlyTouches;
      match w.target
      case Pending =>
        TouchesItself(mirrors, i);
        QuietTouch(mirrors, mirrors, i, w);
      case Bad(mkdir) => FailChdir(i, mkdir, w);
      case Good => StartListing(i, w);
    }

    method StartChdirTarget(i: nat, w: World)
      requires Valid() && CanEnter(i, ChangingDirTarget, w) && Listing(mirrors[i].phase)
      modifies this
      ensures Valid() && i < |mirrors| && Moves(old(mirrors), mirrors, i, w, count, parallel)
    {
      hide Total, InFlight, Tree, Transfers, Settled, OnlyTouches, MayEnter, Rests;
      ghost var was := mirrors;
      SetPhase(i, ChangingDirTarget, [], w);
      ghost var mid := mirrors;
      ChdirTarget(i, w);
      MovesOn(was, mid, mirrors, i, w, count, parallel);
    }

    method MakeTarget(i: nat, w: World)
      requires Valid() && i < |mirrors| && CanEnter(i, PhaseForTarget(w, mirrors[i].flags.depthFirst), w)
      requires Listing(mirrors[i].phase)
      modifies this
      ensures Valid() && i < |mirrors| && Moves(old(mirrors), mirrors, i, w, count, parallel)
    {
      hide Total, InFlight, Tree, Transfers, Settled, OnlyTouches;
      ghost var was := mirrors;
      if !w.makeTarget {
        StartChdirTarget(i, w);
      } else if mirrors[i].flags.depthFirst {
        StartListing(i, w);
      } else {
        SetPhase(i, MakeTargetDir, [], w);
        ghost var mid := mirrors;
        if w.madeTarget {
          StartChdirTarget(i, w);
          MovesOn(was, mid, mirrors, i, w, count, parallel);
        }
      }
    }

    method ChdirSource(i: nat, w: World)
      requires Valid() && i < |mirrors| && mirrors[i].phase == ChangingDirSource
      modifies this
      ensures Valid() && i < |mirrors| && Moves(old(mirrors), mirrors, i, w, count, parallel)
    {
      hide Total, InFlight, Tree, Transfers, Settled, OnlyTouches;
      match w.source
      case Pending =>
        TouchesItself(mirrors, i);
        QuietTouch(mirrors, mirrors, i, w);
      case Bad(mkdir) => FailChdir(i, mkdir, w);
      case Good => MakeTarget(i, w);
    }

    // The transfers. When directories have gone first, the listing begins again after them.
    method TransferFiles(i: nat, w: World)
      requires Valid() && Busy(i) && mirrors[i].phase == WaitingForTransfer
      modifies this
      ensures Valid() && i < |mirrors| && Moves(old(mirrors), mirrors, i, w, count, parallel)
    {
      hide Total, InFlight, Tree, Transfers, Settled, OnlyTouches;
      ghost var was := mirrors;
      var exhausted := WorkOn(i, w);
      ghost var mid := mirrors;
      if exhausted && Idle(mirrors[i]) {
        if !mirrors[i].flags.depthFirst {
          StartRemoving(i, w);
        } else if w.emptyDir {
          FixLocal(i, w);
        } else {
          TransferAgain(i, w);
        }
        MovesOn(was, mid, mirrors, i, w, count, parallel);
      }
    }

    method TransferAgain(i: nat, w: World)
      requires Valid() && Busy(i) && Idle(mirrors[i]) && CanEnter(i, MakeTargetDir, w)
      modifies this
      ensures Valid() && i < |mirrors| && Moves(old(mirrors), mirrors, i, w, count, parallel)
    {
      hide Total, InFlight, Tree, Transfers, Settled, OnlyTouches, Rests;
      ghost var was := mirrors;
      ListAgain(i, MakeTargetDir, w);
      ghost var again := mirrors;
      MakeTarget(i, w);
      MovesOn(was, again, mirrors, i, w, count, parallel);
    }

    method StartTransfers(i: nat, w: World)
      requires Valid() && Busy(i) && CanEnter(i, WaitingForTransfer, w)
      modifies this
      ensures Valid() && i < |mirrors| && Moves(old(mirrors), mirrors, i, w, count, parallel)
    {
      hide Total, InFlight, Tree, Transfers, Settled, OnlyTouches, MayEnter, Rests;
      ghost var was := mirrors;
      SetPhase(i, WaitingForTransfer, w.transfers, w);
      ghost var mid := mirrors;
      TransferFiles(i, w);
      MovesOn(was, mid, mirrors, i, w, count, parallel);
    }

    method MakeDirs(i: nat, w: World)
      requires Valid() && Busy(i) && mirrors[i].phase == TargetMkdir
      modifies this
      ensures Valid() && i < |mirrors| && Moves(old(mirrors), mirrors, i, w, count, parallel)
    {
      hide Total, InFlight, Tree, Transfers, Settled, OnlyTouches;
      ghost var was := mirrors;
      var exhausted := WorkOn(i, w);
      ghost var mid := mirrors;
      if exhausted {
        StartTransfers(i, w);
        MovesOn(was, mid, mirrors, i, w, count, parallel);
      }
    }

    method RemoveFirst(i: nat, w: World)
      requires Valid() && Busy(i) && mirrors[i].phase == RemoveOldFirst
      modifies this
      ensures Valid() && i < |mirrors| && Moves(old(mirrors), mirrors, i, w, count, parallel)
    {
      hide Total, InFlight, Tree, Transfers, Settled, OnlyTouches;
      ghost var was := mirrors;
      var exhausted := WorkOn(i, w);
      ghost var mid := mirrors;
      if exhausted && Idle(mirrors[i]) {
        if w.mkdirs.None? { StartTransfers(i, w); } else { StartMakingDirs(i, w); }
        MovesOn(was, mid, mirrors, i, w, count, parallel);
      }
    }

    method StartMakingDirs(i: nat, w: World)
      requires Valid() && Busy(i) && w.mkdirs.Some? && CanEnter(i, TargetMkdir, w)
      modifies this
      ensures Valid() && i < |mirrors| && Moves(old(mirrors), mirrors, i, w, count, parallel)
    {
      hide Total, InFlight, Tree, Transfers, Settled, OnlyTouches, MayEnter, Rests;
      ghost var was := mirrors;
      SetPhase(i, TargetMkdir, w.mkdirs.value, w);
      ghost var mid := mirrors;
      MakeDirs(i, w);
      MovesOn(was, mid, mirrors, i, w, count, parallel);
    }

    // The listings are in: the weight is taken off, to leave room for transfers.
    method HandleLists(i: nat, w: World)
      requires Valid() && i < |mirrors| && mirrors[i].phase == GettingListInfo
      modifies this
      ensures Valid() && i < |mirrors| && Moves(old(mirrors), mirrors, i, w, count, parallel)
    {
      hide Total, InFlight, Tree, Transfers, Settled, OnlyTouches;
      match w.lists
      case Pending =>
        TouchesItself(mirrors, i);
        QuietTouch(mirrors, mirrors, i, w);
      case Bad(_) => EndListing(i, Finishing, [], w);
      case Good => HandleGoodLists(i, w);
    }

    method HandleGoodLists(i: nat, w: World)
      requires Valid() && i < |mirrors| && mirrors[i].phase == GettingListInfo && w.lists.Good?
      modifies this
      ensures Valid() && i < |mirrors| && Moves(old(mirrors), mirrors, i, w, count, parallel)
    {
      hide Total, InFlight, Tree, Transfers, Settled, OnlyTouches, EnteredIn, Rests, MayEnter;
      ghost var was := mirrors;
      var dirs, scan := mirrors[i].flags.depthFirst && w.dirsFirst, w.scanAllFirst && mirrors[i].parent >= 0;
      NobodyYet(mirrors, i, count, parallel);
      ListsLeft(mirrors[i], w);
      EndListing(i, if dirs then WaitingForTransfer else if scan then Finishing else RemoveOldFirst,
                 if dirs then w.transfers else if scan then [] else w.mismatched, w);
      ghost var mid := mirrors;
      if scan && !dirs { ScannedOnly(mirrors[i], w); }
      if dirs {
        TransferFiles(i, w);
      } else if scan {
        EndMirror(i, Done, w);
        DoneRests(mid[i], mirrors[i], w, count, parallel);
      } else {
        RemoveFirst(i, w);
      }
      MovesOn(was, mid, mirrors, i, w, count, parallel);
    }

    /** Any mirrors, in any order, having their turn while jobs end on their own: at the end the
        counter is what is accounted for, and if the root has ended nothing else is left. */
    method Run(turns: seq<Turn>)
      requires Valid()
      modifies this
      ensures Valid() && mirrors != [] && count == Total(mirrors) + (if RootEnded(mirrors) then 1 else 0)
      ensures InFlight(mirrors) > 0 ==> InFlight(mirrors) <= parallel
      ensures RootEnded(mirrors) ==> count == 1
      ensures RootEnded(mirrors) ==> forall k :: 0 < k < |mirrors| ==> mirrors[k].reaped && mirrors[k].phase == Done
      ensures forall k :: 0 <= k < |mirrors| ==> WellRun(mirrors[k])
    {
      hide Total, InFlight, Tree, Transfers, OnlyTouches, WellRun, Rests, EnteredIn;
      for t := 0 to |turns|
        invariant Valid()
      {
        var i := turns[t].i;
        if i < |mirrors| {
          match turns[t]
          case DoTurn(_, w) => Do(i, w);
          case EndTurn(_, n) => if n < |mirrors[i].jobs| { EndJob(i, n); }
        }
      }
      BalanceMeans(mirrors, count, parallel);
      AllWellRun(mirrors);
      if RootEnded(mirrors) {
        SettledOf(mirrors, 0);
        RootLeavesNothing(mirrors, count, parallel);
      }
    }

    /** One call of MirrorJob::Do, for mirror i. Whatever it finds, the counter stays what all
        mirrors and jobs of the tree account for, no more transfers are in flight than allowed,
        and of the other mirrors only finished ones it waited for are taken note of. What it enters
        in this call it is to work through as this call found out; it stops only where nothing more
        can be done now; and no stage that any mirror has come past was left before all of its set
        had been started, in order, unless it was stopped. */
    method Do(i: nat, w: World)
      requires Valid() && i < |mirrors|
      modifies this
      ensures mirrors != [] && count == Total(mirrors) + (if RootEnded(mirrors) then 1 else 0)
      ensures InFlight(mirrors) > 0 ==> InFlight(mirrors) <= parallel
      ensures Valid() && i < |mirrors| && OnlyTouches(old(mirrors), mirrors, i)
      ensures EnteredIn(old(mirrors[i]).log, mirrors[i].log, w)
      ensures Rests(old(mirrors[i]), mirrors[i], w, count, parallel)
      ensures forall k :: 0 <= k < |mirrors| ==> WellRun(mirrors[k])
    {
      hide WellRun, Rests, EnteredIn, OnlyTouches, Tree;
      Dispatch(i, w);
      BalanceMeans(mirrors, count, parallel);
      AllWellRun(mirrors);
    }

    method Begin(i: nat, w: World)
      requires Valid() && i < |mirrors| && mirrors[i].phase == Initial
      modifies this
      ensures Valid() && i < |mirrors| && Moves(old(mirrors), mirrors, i, w, count, parallel)
    {
      hide Total, InFlight, Tree, Transfers, Settled, OnlyTouches, Rests;
      ghost var was := mirrors;
      SetRemoveDir(i, mirrors[i].flags.removeDirs && w.named);
      ghost var marked := mirrors;
      QuietTouch(was, marked, i, w);
      SetPhase(i, ChangingDirSource, [], w);
      TouchesOn(was, marked, mirrors, i, w);
      ghost var mid := mirrors;
      ChdirSource(i, w);
      MovesOn(was, mid, mirrors, i, w, count, parallel);
    }

    method Dispatch(i: nat, w: World)
      requires Valid() && i < |mirrors|
      modifies this
      ensures Valid() && i < |mirrors| && Moves(old(mirrors), mirrors, i, w, count, parallel)
    {
      hide Total, InFlight, Tree, Transfers, Settled, OnlyTouches;
      TouchesItself(mirrors, i);
      QuietTouch(mirrors, mirrors, i, w);
      match mirrors[i].phase
      case Initial => Begin(i, w);
      case ChangingDirSource => ChdirSource(i, w);
      case MakeTargetDir => if w.madeTarget { StartChdirTarget(i, w); }
      case ChangingDirTarget => ChdirTarget(i, w);
      case GettingListInfo => HandleLists(i, w);
      case RemoveOldFirst => RemoveFirst(i, w);
      case TargetMkdir => MakeDirs(i, w);
      case WaitingForTransfer => TransferFiles(i, w);
      case RemoveOld => RemoveRest(i, w);
      case TargetChmod => Chmod(i, w);
      case RemovingSame => RemoveSame(i, w);
      case Finishing => Finish(i, w);
      case LastExec => if w.execDone { EndExec(i, w); }
      case Done =>
    }
  }

  // What is started for an entry.
  function JobsFor(entry: Work): seq<Job> {
    match entry
    case Transfer => [Job(true, false)]
    case Command => [Job(false, false)]
    case _ => []
  }

  function MirrorsFor(i: nat, entry: Work, flags: Flags): seq<Mirror> {
    if entry.SubMirror? && !flags.noRecursion then [NewMirror(i, entry.weight, flags)] else []
  }

  function LogOf(m: Mirror, p: Phase, w: World): seq<Item> {
    m.log + [Enter(p, w, Idle(m), m.flags.depthFirst)]
  }

  function Starts(todo: seq<Work>): seq<Item> {
    seq(|todo|, k requires 0 <= k < |todo| => Start(todo[k]))
  }

  function JobsOf(todo: seq<Work>): seq<Job> {
    if todo == [] then [] else JobsOf(todo[..|todo| - 1]) + JobsFor(todo[|todo| - 1])
  }

  function MirrorsOf(i: nat, todo: seq<Work>, flags: Flags): seq<Mirror> {
    if todo == [] then [] else MirrorsOf(i, todo[..|todo| - 1], flags) + MirrorsFor(i, todo[|todo| - 1], flags)
  }

  /** The first n entries of its set have been started, in order and each below the limit: their jobs
      are waited for, they are in the history and they are counted. The rest is still to be done. */
  ghost predicate CameTo(was: Mirror, m: Mirror, n: nat, from: int, count: int, parallel: int) {
    && n <= |was.todo| && m.phase == was.phase && m.flags == was.flags
    && m.todo == was.todo[n..] && m.log == was.log + Starts(was.todo[..n])
    && m.jobs == was.jobs + JobsOf(was.todo[..n])
    && count == from + CostOf(was.todo[..n], was.flags)
    && forall k :: 0 <= k < n ==> from + CostOf(was.todo[..k], was.flags) < parallel
  }

  /** The mirrors at the end of the list are those of the subdirectories among the first n entries. */
  ghost predicate Launched(before: seq<Mirror>, after: seq<Mirror>, i: nat, n: nat) {
    && i < |before| <= |after| && n <= |before[i].todo|
    && after[|before|..] == MirrorsOf(i, before[i].todo[..n], before[i].flags)
  }

  lemma NothingStarted(ms: seq<Mirror>, i: nat, count: int, parallel: int)
    requires i < |ms|
    ensures CameTo(ms[i], ms[i], 0, count, count, parallel) && Launched(ms, ms, i, 0)
  {
    assert ms[i].todo[..0] == [];
  }

  lemma StartsNext(log: seq<Item>, all: seq<Work>, n: nat)
    requires n < |all|
    ensures log + Starts(all[..n]) + [Start(all[n])] == log + Starts(all[..n + 1])
    ensures all[n..] == [all[n]] + all[n + 1..]
  {
    assert Starts(all[..n + 1]) == Starts(all[..n]) + [Start(all[n])];
  }

  lemma CameOn(was: Mirror, b: Mirror, m: Mirror, n: nat, from: int, c: int, count: int, parallel: int)
    requires CameTo(was, b, n, from, c, parallel) && b.todo != [] && c < parallel
    requires m.phase == b.phase && m.flags == b.flags && m.todo == b.todo[1..]
    requires m.log == b.log + [Start(b.todo[0])] && m.jobs == b.jobs + JobsFor(b.todo[0])
    requires count == c + Cost(b.todo[0], b.flags)
    ensures CameTo(was, m, n + 1, from, count, parallel)
  {
    hide Cost, Starts, JobsFor;
    StartsNext(was.log, was.todo, n);
    CostOfNext(was.todo, was.flags, n);
    assert was.todo[..n + 1][..n] == was.todo[..n];
  }

  lemma LaunchedOn(a: seq<Mirror>, b: seq<Mirror>, c: seq<Mirror>, i: nat, n: nat, from: int, count: int, parallel: int)
    requires Launched(a, b, i, n) && CameTo(a[i], b[i], n, from, count, parallel) && b[i].todo != []
    requires OnlyTouches(b, c, i) && c[|b|..] == MirrorsFor(i, b[i].todo[0], b[i].flags)
    ensures n < |a[i].todo| && Launched(a, c, i, n + 1)
  {
    var all := a[i].todo;
    assert all[..n + 1][..n] == all[..n];
    NewAreInitial(i, all[..n], a[i].flags);
    forall k | |a| <= k < |b| ensures c[k] == b[k] {
      assert b[k] == b[|a|..][k - |a|];
    }
    assert c[|a|..] == b[|a|..] + c[|b|..];
  }

  lemma {:induction false} NewAreInitial(i: nat, todo: seq<Work>, flags: Flags)
    ensures forall k :: 0 <= k < |MirrorsOf(i, todo, flags)| ==> MirrorsOf(i, todo, flags)[k].phase == Initial
  {
    if todo != [] { NewAreInitial(i, todo[..|todo| - 1], flags); }
  }

  lemma StartsTouch(a: seq<Mirror>, b: seq<Mirror>, i: nat, done: seq<Work>, w: World)
    requires OnlyTouches(a, b, i) && b[i].log == a[i].log + Starts(done)
    ensures Touches(a, b, i, w)
  {
  }

  lemma StoppedGoes(m: Mirror, w: World)
    ensures Goes(m.log, Stopped(m, w).log) && EnteredIn(m.log, Stopped(m, w).log, w)
  {
  }

  /** All that a mirror has been through was worked off, and of the set it is working through it has
      started what `todo` lacks. It has come to its last phase only with all done. */
  ghost predicate WellRun(m: Mirror) {
    WellWorked(m.log, At(m.phase, m.todo, false), m.parent < 0) && AllDone(Stages(m.log), m.parent < 0)
  }

  lemma AllWellRun(ms: seq<Mirror>)
    requires Tree(ms)
    ensures forall k :: 0 <= k < |ms| ==> WellRun(ms[k])
  {
    hide WellWorked, AllDone;
    forall k | 0 <= k < |ms| ensures WellRun(ms[k]) {
      assert Settled(ms[k]);
      CourseIsWorked(ms[k].log, ms[k].parent < 0);
      FinishedMeans(ms[k].log, ms[k].parent < 0);
    }
  }

  lemma NobodyYet(ms: seq<Mirror>, i: nat, count: int, parallel: int)
    requires Balanced(ms, count, parallel) && i < |ms| && Listing(ms[i].phase)
    ensures ms[i].jobs == [] && ms[i].subs == {}
  {
    SettledOf(ms, i);
  }

  lemma BalanceMeans(ms: seq<Mirror>, count: int, parallel: int)
    requires Balanced(ms, count, parallel)
    ensures ms != [] && count == Total(ms) + (if RootEnded(ms) then 1 else 0)
    ensures InFlight(ms) > 0 ==> InFlight(ms) <= parallel
  {
  }

  lemma TouchesItself(ms: seq<Mirror>, i: nat)
    requires i < |ms|
    ensures OnlyTouches(ms, ms, i)
  {
  }

  lemma RootIsFirst(ms: seq<Mirror>, i: nat)
    requires Tree(ms) && i < |ms|
    ensures ms[i].parent < 0 <==> i == 0
  {
  }

  lemma SettledOf(ms: seq<Mirror>, i: nat)
    requires Tree(ms) && i < |ms|
    ensures Settled(ms[i])
  {
  }

  // Whom a mirror waits for comes after it in the list.
  lemma RootStays(ms: seq<Mirror>, i: nat, k: nat)
    requires Tree(ms) && i < |ms| && k in ms[i].subs
    ensures i < k < |ms| && ms[k].parent == i && !ms[k].reaped
  {
    assert k in Waited(ms, i);
  }
}

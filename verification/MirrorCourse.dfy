/**
 The course of one mirror of MirrorJob.cc: which phases follow each other, what each is to work
 through, and what its history says of what has been started.
 */
module MirrorCourse {
  import opened Sequences

  datatype Phase =
    | Initial | ChangingDirSource | MakeTargetDir | ChangingDirTarget | GettingListInfo
    | RemoveOldFirst | TargetMkdir | WaitingForTransfer | RemoveOld | TargetChmod | RemovingSame
    | Finishing | LastExec | Done

  /** What one entry of a file set makes a mirror do: start a file transfer, start some other
      job, launch a mirror of a subdirectory, or nothing. */
  datatype Work = Transfer | Command | SubMirror(weight: nat) | Nothing

  /** What a mirror of a subdirectory inherits: whether directories go first, whether they are gone
      into at all, and whether source directories are removed at the end. */
  datatype Flags = Flags(depthFirst: bool, noRecursion: bool, removeDirs: bool)

  /** How a directory change or a listing turned out. When one fails, a directory may still have
      to be made at the target. */
  datatype Answer = Pending | Good | Bad(mkdir: bool)

  /** What one call of Do finds out, and what the settings and the file sets come to; `named`, that
      the source directory is given without a slash at the end. */
  datatype World = World(
    source: Answer, makeTarget: bool, madeTarget: bool, target: Answer, listable: bool, lists: Answer,
    dirsFirst: bool, scanAllFirst: bool, mismatched: seq<Work>, mkdirs: Option<seq<Work>>,
    transfers: seq<Work>, removals: seq<Work>,
    modes: seq<Work>, same: seq<Work>, emptyDir: bool, removeFirst: bool, noPerms: bool,
    removeSame: bool, tooManyErrors: bool, named: bool,
    onChange: bool, execDone: bool)

  // From its start until the directories are listed.
  predicate Listing(p: Phase) {
    p == Initial || p == ChangingDirSource || p == MakeTargetDir || p == ChangingDirTarget || p == GettingListInfo
  }

  // A file set is worked through.
  predicate Working(p: Phase) {
    || p == RemoveOldFirst || p == TargetMkdir || p == WaitingForTransfer
    || p == RemoveOld || p == TargetChmod || p == RemovingSame
  }

  // What has been started must have ended before this phase is left.
  predicate Barrier(p: Phase) {
    p == RemoveOldFirst || p == WaitingForTransfer || p == RemoveOld || p == Finishing
  }

  // ---------------------------------------------------------------- what follows what

  // The set that a phase is to work through.
  function SetFor(w: World, p: Phase): seq<Work> {
    match p
    case RemoveOldFirst => w.mismatched
    case TargetMkdir => if w.mkdirs.Some? then w.mkdirs.value else []
    case WaitingForTransfer => w.transfers
    case RemoveOld => w.removals
    case TargetChmod => w.modes
    case RemovingSame => w.same
    case _ => []
  }

  function PhaseAfterChmod(w: World): Phase { if w.removeSame then RemovingSame else Finishing }

  function PhaseAfterRemoving(w: World): Phase { if w.noPerms then PhaseAfterChmod(w) else TargetChmod }

  function PhaseAfterTransfers(w: World): Phase { if w.removeFirst then PhaseAfterRemoving(w) else RemoveOld }

  // Once the source directory has been entered, or listing begins again.
  function PhaseForTarget(w: World, dirs: bool): Phase {
    if !w.makeTarget then ChangingDirTarget else if dirs then GettingListInfo else MakeTargetDir
  }

  // Once both directories have been listed. A mirror that was only to be scanned is finished.
  function PhaseAfterLists(w: World, root: bool, dirs: bool): Phase {
    if w.lists.Bad? then Finishing
    else if dirs && w.dirsFirst then WaitingForTransfer
    else if w.scanAllFirst && !root then Finishing
    else RemoveOldFirst
  }

  /** The phase p is left for q, directories going first if `dirs`. */
  predicate Follows(p: Phase, q: Phase, w: World, root: bool, dirs: bool) {
    match p
    case Initial => q == ChangingDirSource
    case ChangingDirSource =>
      (w.source.Bad? && q == Finishing) || (w.source.Good? && q == PhaseForTarget(w, dirs))
    case MakeTargetDir => (w.madeTarget && q == ChangingDirTarget) || q == PhaseForTarget(w, dirs)
    case ChangingDirTarget => (w.target.Bad? && q == Finishing) || (w.target.Good? && q == GettingListInfo)
    case GettingListInfo =>
      (!w.listable && q == Finishing) || (!w.lists.Pending? && q == PhaseAfterLists(w, root, dirs))
    case RemoveOldFirst => q == if w.mkdirs.Some? then TargetMkdir else WaitingForTransfer
    case TargetMkdir => q == WaitingForTransfer
    case WaitingForTransfer =>
      q == if !dirs then PhaseAfterTransfers(w) else if w.emptyDir then PhaseAfterChmod(w) else MakeTargetDir
    case RemoveOld => q == PhaseAfterRemoving(w)
    case TargetChmod => q == PhaseAfterChmod(w)
    case RemovingSame => q == Finishing
    case Finishing => q == if root && w.onChange then LastExec else Done
    case LastExec => w.execDone && q == Done
    case Done => false
  }

  // ---------------------------------------------------------------- histories

  /** What happens to a mirror: it enters a phase, waiting for nobody if `idle`; it starts an entry of
      the set it is working through; or it stops working because of too many errors. */
  datatype Item = Enter(phase: Phase, w: World, idle: bool, dirs: bool) | Start(entry: Work) | Stop

  datatype At = At(phase: Phase, todo: seq<Work>, stopped: bool)

  predicate Allowed(a: At, item: Item, root: bool) {
    match item
    case Start(entry) => Working(a.phase) && !a.stopped && a.todo != [] && entry == a.todo[0]
    case Stop => Working(a.phase) && !a.stopped
    case Enter(q, w, idle, dirs) =>
      if a.stopped then q == Finishing
      else (Working(a.phase) ==> a.todo == []) && (Barrier(a.phase) ==> idle) && Follows(a.phase, q, w, root, dirs)
  }

  function After(a: At, item: Item): At {
    match item
    case Start(_) => if a.todo == [] then a else a.(todo := a.todo[1..])
    case Stop => a.(stopped := true)
    case Enter(q, w, _, _) => At(q, SetFor(w, q), false)
  }

  // Where a history leads, if it is one that can be.
  function Course(log: seq<Item>, root: bool): Option<At> {
    if log == [] then Some(At(Initial, [], false))
    else
      var a := Course(log[..|log| - 1], root);
      var item := log[|log| - 1];
      if a.Some? && Allowed(a.value, item, root) then Some(After(a.value, item)) else None
  }

  lemma CourseOn(log: seq<Item>, item: Item, root: bool, a: At)
    requires Course(log, root) == Some(a) && Allowed(a, item, root)
    ensures Course(log + [item], root) == Some(After(a, item))
  {
    assert (log + [item])[..|log|] == log;
  }

  // ---------------------------------------------------------------- what a history says

  /** One stay in a phase: what the call that entered it had found out, and whether directories were
      to go first; the set that was to be worked through, what of it was started, whether too many
      errors stopped the work, and whether the mirror waited for nobody when it left. */
  datatype Stage = Stage(
    phase: Phase, found: Option<World>, dirs: bool, given: seq<Work>, started: seq<Work>, stopped: bool, idle: bool)

  function Stages(log: seq<Item>): (r: seq<Stage>)
    ensures r != []
  {
    if log == [] then [Stage(Initial, None, false, [], [], false, false)]
    else
      var st := Stages(log[..|log| - 1]);
      var n := |st| - 1;
      match log[|log| - 1]
      case Enter(q, w, idle, dirs) => st[n := st[n].(idle := idle)] + [NewStage(q, w, dirs)]
      case Start(entry) => st[n := st[n].(started := st[n].started + [entry])]
      case Stop => st[n := st[n].(stopped := true)]
  }

  function NewStage(q: Phase, w: World, dirs: bool): Stage {
    Stage(q, Some(w), dirs, SetFor(w, q), [], false, false)
  }

  // A stage that is over was worked off in order, with nothing left running where that matters.
  predicate WorkedOff(st: Stage) {
    (Working(st.phase) && !st.stopped ==> st.started == st.given) && (Barrier(st.phase) && !st.stopped ==> st.idle)
  }

  // The stage that is on has come as far as todo says.
  predicate WorkingOff(st: Stage, a: At) {
    st.phase == a.phase && st.stopped == a.stopped && (Working(a.phase) ==> st.started + a.todo == st.given)
  }

  // A phase is given its set by the call that enters it, and follows the one before.
  predicate LeadsOn(st: Stage, next: Stage, root: bool) {
    && next.found.Some? && next.given == SetFor(next.found.value, next.phase)
    && if st.stopped then next.phase == Finishing
       else Follows(st.phase, next.phase, next.found.value, root, next.dirs)
  }

  ghost predicate WellStaged(st: seq<Stage>, root: bool) {
    && st != [] && st[0].phase == Initial
    && (forall j :: 0 <= j < |st| - 1 ==> WorkedOff(st[j]))
    && (forall j :: 0 <= j < |st| - 1 ==> LeadsOn(st[j], st[j + 1], root))
  }

  ghost predicate WellWorked(log: seq<Item>, a: At, root: bool) {
    WellStaged(Stages(log), root) && WorkingOff(Stages(log)[|Stages(log)| - 1], a)
  }

  /** In every history that can be, each stage that is over was worked off: all of its set was
      started, in order, unless it was stopped; and of the stage that is on, what was started and what
      is left make up the set. */
  lemma {:induction false} CourseIsWorked(log: seq<Item>, root: bool)
    requires Course(log, root).Some?
    ensures WellWorked(log, Course(log, root).value, root)
    decreases |log|
  {
    hide Follows, SetFor, Allowed, After;
    if log != [] {
      var before, item := log[..|log| - 1], log[|log| - 1];
      CourseIsWorked(before, root);
      var a := Course(before, root).value;
      WorkedOn(before, item, a, root);
      assert log == before + [item];
    }
  }

  lemma WorkedOn(log: seq<Item>, item: Item, a: At, root: bool)
    requires WellWorked(log, a, root) && Allowed(a, item, root)
    ensures WellWorked(log + [item], After(a, item), root)
  {
    hide Follows, SetFor, LeadsOn;
    var st, n := Stages(log), |Stages(log)| - 1;
    assert (log + [item])[..|log|] == log;
    var r := Stages(log + [item]);
    match item {
      case Start(entry) =>
        assert a.todo == [entry] + a.todo[1..];
        assert st[n].started + [entry] + a.todo[1..] == st[n].started + a.todo;
      case Stop =>
      case Enter(q, w, idle, dirs) =>
        assert st[n].started + [] == st[n].started;
        assert [] + SetFor(w, q) == SetFor(w, q);
        assert r[n + 1] == NewStage(q, w, dirs);
        EntryLeadsOn(r[n], a, item, root);
    }
    forall j | 0 <= j < |r| - 1 ensures LeadsOn(r[j], r[j + 1], root) {
      if j < n - 1 {
        assert r[j] == st[j] && r[j + 1] == st[j + 1];
      } else if j == n - 1 {
        assert LeadsOn(st[j], st[j + 1], root);
        SameEntry(st[j], st[j + 1], r[j + 1], root);
      }
    }
  }

  lemma SameEntry(st: Stage, next: Stage, other: Stage, root: bool)
    requires LeadsOn(st, next, root) && other.phase == next.phase
    requires other.found == next.found && other.given == next.given && other.dirs == next.dirs
    ensures LeadsOn(st, other, root)
  {
  }

  lemma EntryLeadsOn(st: Stage, a: At, item: Item, root: bool)
    requires item.Enter? && Allowed(a, item, root) && st.phase == a.phase && st.stopped == a.stopped
    ensures LeadsOn(st, NewStage(item.phase, item.w, item.dirs), root)
  {
  }

  // ---------------------------------------------------------------- what a finished mirror has done

  // Stage k, in phase p, was left with all started that the call entering it had found for that phase.
  predicate Through(st: seq<Stage>, k: int, p: Phase) {
    && 0 <= k < |st| && st[k].phase == p && st[k].found.Some?
    && st[k].started == SetFor(st[k].found.value, p)
    && (Barrier(p) ==> st[k].idle)
  }

  // A directory or a list was bad, or the mirror was only to be scanned.
  predicate Barren(w: World, root: bool) {
    w.source.Bad? || w.target.Bad? || !w.listable || w.lists.Bad? || (w.scanAllFirst && !root)
  }

  // What the call entering this stage had found asks for no such phase.
  predicate Spares(s: Stage, p: Phase)
    requires s.found.Some?
  {
    var w := s.found.value;
    match p
    case RemoveOld => w.removeFirst || (s.dirs && w.emptyDir)
    case TargetChmod => w.noPerms || (s.dirs && w.emptyDir)
    case RemovingSame => !w.removeSame
    case _ => false
  }

  // Between stages l and f phase p was gone through, or was not asked for.
  ghost predicate ThroughOrSpared(st: seq<Stage>, l: int, f: int, p: Phase) {
    exists k :: l < k <= f < |st| && l >= 0 && (Through(st, k, p) || (st[k].found.Some? && Spares(st[k], p)))
  }

  /** Stage f is entered with all that was to be done before it done: the transfers, and after them
      removing what the source has not, the modes, and removing what is the same. */
  ghost predicate DoneBefore(st: seq<Stage>, f: int) {
    exists l :: l < f && Through(st, l, WaitingForTransfer)
      && ThroughOrSpared(st, l, f, RemoveOld) && ThroughOrSpared(st, l, f, TargetChmod)
      && ThroughOrSpared(st, l, f, RemovingSame)
  }

  // What comes before phase q was gone through or not asked for.
  ghost predicate Past(st: seq<Stage>, l: int, k: int, q: Phase) {
    && (q != RemoveOld ==> ThroughOrSpared(st, l, k, RemoveOld))
    && (q == RemovingSame || q == Finishing ==> ThroughOrSpared(st, l, k, TargetChmod))
    && (q == Finishing ==> ThroughOrSpared(st, l, k, RemovingSame))
  }

  predicate AfterTransfers(p: Phase) {
    p == RemoveOld || p == TargetChmod || p == RemovingSame
  }

  lemma LaterStill(st: seq<Stage>, l: int, k: int, p: Phase)
    requires ThroughOrSpared(st, l, k, p) && k + 1 < |st|
    ensures ThroughOrSpared(st, l, k + 1, p)
  {
  }

  lemma StageIsThrough(st: seq<Stage>, root: bool, k: int)
    requires WellStaged(st, root) && 0 < k < |st| - 1 && Working(st[k].phase) && !st[k].stopped
    ensures Through(st, k, st[k].phase)
  {
    hide Follows, SetFor;
    assert LeadsOn(st[k - 1], st[k], root) && WorkedOff(st[k]);
  }

  // What follows the transfers or what comes after them spares all that it passes over.
  lemma SparedOnTheWay(s: Stage, next: Stage, root: bool)
    requires LeadsOn(s, next, root) && !s.stopped && (s.phase == WaitingForTransfer || AfterTransfers(s.phase))
    requires AfterTransfers(next.phase) || next.phase == Finishing
    ensures s.phase == WaitingForTransfer && next.phase != RemoveOld ==> Spares(next, RemoveOld)
    ensures (s.phase == WaitingForTransfer || s.phase == RemoveOld) && next.phase == RemovingSame ==>
      Spares(next, TargetChmod)
    ensures (s.phase == WaitingForTransfer || s.phase == RemoveOld) && next.phase == Finishing ==>
      Spares(next, TargetChmod)
    ensures s.phase != RemovingSame && next.phase == Finishing ==> Spares(next, RemovingSame)
  {
  }

  lemma {:induction false} ComesFromTransfers(st: seq<Stage>, root: bool, k: int) returns (l: int)
    requires WellStaged(st, root) && 0 < k < |st| && !st[k - 1].stopped
    requires st[k - 1].phase == WaitingForTransfer || AfterTransfers(st[k - 1].phase)
    requires AfterTransfers(st[k].phase) || st[k].phase == Finishing
    ensures l < k && Through(st, l, WaitingForTransfer) && Past(st, l, k, st[k].phase)
    decreases k
  {
    StageIsThrough(st, root, k - 1);
    SparedOnTheWay(st[k - 1], st[k], root);
    if st[k - 1].phase == WaitingForTransfer {
      l := k - 1;
    } else {
      assert LeadsOn(st[k - 2], st[k - 1], root);
      l := ComesFromTransfers(st, root, k - 1);
    }
  }

  // Before its last phase a mirror that was not stopped was listing, or working.
  lemma {:induction false} FinishedFrom(st: seq<Stage>, root: bool, f: int)
    requires WellStaged(st, root) && 0 <= f < |st| && st[f].phase == Finishing
    ensures f > 0 && st[f].found.Some?
    ensures st[f - 1].stopped || Barren(st[f].found.value, root) || DoneBefore(st, f)
  {
    assert LeadsOn(st[f - 1], st[f], root);
    if !st[f - 1].stopped && !Barren(st[f].found.value, root) {
      var l := ComesFromTransfers(st, root, f);
    }
  }

  // Before stage l what was in the way was removed and directories were made, or directories go first.
  ghost predicate WayCleared(st: seq<Stage>, l: int) {
    0 < l < |st| && st[l].found.Some? &&
    var w := st[l].found.value;
    || (st[l].dirs && w.dirsFirst)
    || (Through(st, l - 1, RemoveOldFirst) && w.mkdirs.None?)
    || (Through(st, l - 2, RemoveOldFirst) && Through(st, l - 1, TargetMkdir) && st[l - 1].found.value.mkdirs.Some?)
  }

  lemma WayIsCleared(st: seq<Stage>, root: bool, l: int)
    requires WellStaged(st, root) && 0 <= l < |st| && st[l].phase == WaitingForTransfer
    ensures WayCleared(st, l)
  {
    assert LeadsOn(st[l - 1], st[l], root);
    if st[l - 1].phase != GettingListInfo {
      StageIsThrough(st, root, l - 1);
      if st[l - 1].phase == TargetMkdir {
        assert LeadsOn(st[l - 2], st[l - 1], root);
        StageIsThrough(st, root, l - 2);
      }
    }
  }

  /** A mirror comes to its last phase only with everything done that its lists asked for, unless a
      directory or a list was bad, it was only to be scanned, or too many errors stopped it; and it
      comes to its transfers only with the way cleared. */
  ghost predicate AllDone(st: seq<Stage>, root: bool) {
    && (forall f :: 0 <= f < |st| && st[f].phase == Finishing ==>
         && f > 0 && st[f].found.Some?
         && (st[f - 1].stopped || Barren(st[f].found.value, root) || DoneBefore(st, f)))
    && (forall l :: 0 <= l < |st| && st[l].phase == WaitingForTransfer ==> WayCleared(st, l))
  }

  lemma FinishedMeans(log: seq<Item>, root: bool)
    requires Course(log, root).Some?
    ensures AllDone(Stages(log), root)
  {
    hide WayCleared, DoneBefore, Barren;
    var st := Stages(log);
    CourseIsWorked(log, root);
    forall f | 0 <= f < |st| && st[f].phase == Finishing
      ensures f > 0 && st[f].found.Some?
      ensures st[f - 1].stopped || Barren(st[f].found.value, root) || DoneBefore(st, f)
    {
      FinishedFrom(st, root, f);
    }
    forall l | 0 <= l < |st| && st[l].phase == WaitingForTransfer ensures WayCleared(st, l) {
      WayIsCleared(st, root, l);
    }
  }
}

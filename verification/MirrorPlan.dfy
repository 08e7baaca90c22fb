/**
 MirrorJob::InitSets: what a mirror of one directory is to remove, to transfer and to leave
 alone, made from the listings of the source and of the target.
 */
module MirrorPlan {
  import opened Lexical
  import opened Sequences
  import opened FileSet

  // ---------------------------------------------------------------- when two files are the same

  /** What a comparison leaves out: dates, sizes, or either if the source is the older one. */
  datatype Ignore = Ignore(date: bool, size: bool, dateIfOlder: bool, sizeIfOlder: bool)

  function Abs(n: int): int { if n < 0 then -n else n }
  function Max(a: int, b: int): int { if a > b then a else b }

  predicate DatesAgree(a: Date, b: Date, ig: Ignore) {
    (ig.dateIfOlder && a.time < b.time) || Abs(a.time - b.time) <= Max(a.precision, b.precision)
  }

  predicate Older(a: FileInfo, b: FileInfo) {
    a.date.Some? && b.date.Some? && a.date.value.time < b.date.value.time
  }

  predicate SizesAgree(a: FileInfo, b: FileInfo, ig: Ignore) {
    (ig.sizeIfOlder && Older(a, b)) || a.size == b.size
  }

  // FileInfo::SameAs, for two files of one name. A directory is never known to be the same.
  predicate SameAs(a: FileInfo, b: FileInfo, ig: Ignore) {
    if a.name != b.name then false
    else if a.kind.Some? && b.kind.Some? && a.kind != b.kind then false
    else if a.IsDirectory() || b.IsDirectory() then false
    else if a.symlink.Some? && b.symlink.Some? then a.symlink == b.symlink
    else if a.date.Some? && b.date.Some? && !ig.date && !DatesAgree(a.date.value, b.date.value, ig) then false
    else if a.size.Some? && b.size.Some? && !ig.size && !SizesAgree(a, b, ig) then false
    else true
  }

  lemma SameAsItself(a: FileInfo, ig: Ignore)
    ensures SameAs(a, a, ig) <==> !a.IsDirectory()
  {
  }

  // How far apart the dates may be: within the coarser precision, or any time before if a file that
  // is older will do. What is not known does not count.
  predicate DateWillDo(a: FileInfo, b: FileInfo, ig: Ignore) {
    ig.date || a.date.None? || b.date.None? ||
    (var p := Max(a.date.value.precision, b.date.value.precision);
     && a.date.value.time <= b.date.value.time + p
     && (ig.dateIfOlder || b.date.value.time <= a.date.value.time + p))
  }

  predicate SizeWillDo(a: FileInfo, b: FileInfo, ig: Ignore) {
    || ig.size || a.size.None? || b.size.None? || a.size == b.size
    || (ig.sizeIfOlder && a.date.Some? && b.date.Some? && a.date.value.time < b.date.value.time)
  }

  predicate KindWillDo(a: FileInfo, b: FileInfo) {
    (a.kind.None? || b.kind.None? || a.kind == b.kind) && !a.IsDirectory() && !b.IsDirectory()
  }

  /** A file will do for another of the same name if nothing that is known of both tells them apart:
      of links, where they point to; of others, their dates and sizes. */
  predicate WillDo(a: FileInfo, b: FileInfo, ig: Ignore) {
    && a.name == b.name && KindWillDo(a, b)
    && (if a.symlink.Some? && b.symlink.Some? then a.symlink == b.symlink
        else DateWillDo(a, b, ig) && SizeWillDo(a, b, ig))
  }

  lemma SameAsIff(a: FileInfo, b: FileInfo, ig: Ignore)
    ensures SameAs(a, b, ig) <==> WillDo(a, b, ig)
  {
  }

  /** Which of the two is which makes a difference only where an older one will do; ignoring more
      makes no two files differ. */
  lemma SameAsEitherWay(a: FileInfo, b: FileInfo, ig: Ignore, more: Ignore)
    ensures !ig.dateIfOlder && !ig.sizeIfOlder ==> SameAs(a, b, ig) == SameAs(b, a, ig)
    ensures SameAs(a, b, ig) && IgnoresMore(ig, more) ==> SameAs(a, b, more)
  {
  }

  predicate IgnoresMore(ig: Ignore, more: Ignore) {
    && (ig.date ==> more.date) && (ig.size ==> more.size)
    && (ig.dateIfOlder ==> more.dateIfOlder) && (ig.sizeIfOlder ==> more.sizeIfOlder)
  }

  predicate SameType(a: FileInfo, b: FileInfo) { a.kind.Some? && b.kind.Some? && a.kind == b.kind }

  // ---------------------------------------------------------------- the plan

  // The conditions under which the Subtract methods take a file away.
  function Listed(x: map<string, FileInfo>): FileInfo -> bool { (f: FileInfo) => f.name in x }
  function NotListed(x: map<string, FileInfo>): FileInfo -> bool { (f: FileInfo) => f.name !in x }
  function ListedSame(x: map<string, FileInfo>, ig: Ignore): FileInfo -> bool {
    (f: FileInfo) => f.name in x && SameAs(f, x[f.name], ig)
  }

  function ListedSameType(x: map<string, FileInfo>): FileInfo -> bool {
    (f: FileInfo) => f.name in x && SameType(f, x[f.name])
  }

  function NotDirectory(): FileInfo -> bool { (f: FileInfo) => !f.IsDirectory() }

  /** What settings a plan is made with: whether everything is transferred anyway, whether files
      are deleted, and which files limits of date and size, the mode of recursion and missing
      rights take out of the transfer. */
  datatype Settings = Settings(ignore: Ignore, transferAll: bool, delete: bool, unwanted: FileInfo -> bool)

  /** The sets of a plan; `different` is what is to be transferred before the limits apply. */
  datatype Plan = Plan(
    toRm: seq<FileInfo>, different: seq<FileInfo>, same: seq<FileInfo>,
    mismatched: seq<FileInfo>, toTransfer: seq<FileInfo>)

  // The files that stand in the way: directories at the target where something else is to go.
  ghost function MismatchedOf(target: seq<FileInfo>, x: map<string, FileInfo>): seq<FileInfo> {
    Kept(Kept(Kept(target, NotListed(x)), ListedSameType(x)), NotDirectory())
  }

  // InitSets.
  ghost function PlanOf(source: seq<FileInfo>, target: seq<FileInfo>, settings: Settings): Plan {
    var toRm := Kept(target, Listed(Entries(source)));
    var different :=
      if settings.transferAll then source else Kept(source, ListedSame(Entries(target), settings.ignore));
    var same := if settings.transferAll then [] else Kept(source, Listed(Entries(different)));
    var wanted := Kept(different, settings.unwanted);
    var mismatched := MismatchedOf(target, Entries(wanted));
    Plan(toRm, different, same, mismatched,
         if settings.delete then wanted else Kept(wanted, Listed(Entries(mismatched))))
  }

  // ---------------------------------------------------------------- the sets as objects

  // What FindByName would find, for every name.
  method NamesOf(x: seq<FileInfo>) returns (names: map<string, FileInfo>)
    ensures names == Entries(x)
  {
    names := map[];
    for i := 0 to |x|
      invariant names == Entries(x[..i])
    {
      EntriesNext(x, i);
      names := names[x[i].name := x[i]];
    }
    assert x[..|x|] == x;
  }

  /** InitSets: the sets are copied from the listings and thinned out in place. */
  method InitSets(source: seq<FileInfo>, target: seq<FileInfo>, settings: Settings)
    returns (toRm: FileSet, toTransfer: FileSet, same: FileSet, mismatched: FileSet)
    requires ByName(source) && ByName(target)
    ensures fresh(toRm) && fresh(toTransfer) && fresh(same) && fresh(mismatched)
    ensures var p := PlanOf(source, target, settings);
      && toRm.files == p.toRm && toTransfer.files == p.toTransfer
      && same.files == p.same && mismatched.files == p.mismatched
  {
    hide ByName, Kept, Entries;
    toRm := new FileSet(target);
    var inSource := NamesOf(source);
    toRm.SubtractIf(Listed(inSource));
    toTransfer := new FileSet(source);
    same := NoFiles();
    if !settings.transferAll {
      var inTarget := NamesOf(target);
      toTransfer.SubtractIf(ListedSame(inTarget, settings.ignore));
      same := new FileSet(source);
      var different := NamesOf(toTransfer.files);
      same.SubtractIf(Listed(different));
    }
    toTransfer.SubtractIf(settings.unwanted);
    var going := NamesOf(toTransfer.files);
    mismatched := MismatchedSet(target, going);
    if !settings.delete {
      var inMismatched := NamesOf(mismatched.files);
      toTransfer.SubtractIf(Listed(inMismatched));
    }
  }

  method MismatchedSet(target: seq<FileInfo>, going: map<string, FileInfo>) returns (s: FileSet)
    requires ByName(target)
    ensures fresh(s) && s.Valid() && s.files == MismatchedOf(target, going)
  {
    hide ByName, Kept;
    s := new FileSet(target);
    s.SubtractIf(NotListed(going));
    s.SubtractIf(ListedSameType(going));
    s.SubtractIf(NotDirectory());
  }

  method NoFiles() returns (s: FileSet)
    ensures fresh(s) && s.files == []
  {
    s := new FileSet([]);
  }

  // ---------------------------------------------------------------- what a plan is worth

  lemma KeptMeans(s: seq<FileInfo>, p: FileInfo -> bool)
    requires ByName(s)
    ensures ByName(Kept(s, p))
    ensures forall n :: n in Entries(Kept(s, p)) <==> n in Entries(s) && !p(Entries(s)[n])
    ensures forall n :: n in Entries(Kept(s, p)) ==> Entries(Kept(s, p))[n] == Entries(s)[n]
    ensures forall n :: n in Entries(s) ==> Entries(s)[n].name == n
  {
    hide Less;
    var k := Kept(s, p);
    KeptSorted(s, p);
    forall n | n in Entries(s) ensures Entries(s)[n].name == n {
      var i := IndexOf(s, n);
    }
    forall n | n in Entries(k) ensures n in Entries(s) && !p(Entries(s)[n]) && Entries(k)[n] == Entries(s)[n] {
      var i := IndexOf(k, n);
      assert k[i] in k;
      var j :| 0 <= j < |s| && s[j] == k[i];
      EntryAt(s, j);
    }
    forall n | n in Entries(s) && !p(Entries(s)[n]) ensures n in Entries(k) {
      var i := IndexOf(s, n);
      assert s[i] in k;
      var j :| 0 <= j < |k| && k[j] == s[i];
      EntryAt(k, j);
    }
  }

  lemma {:induction false} KeptSorted(s: seq<FileInfo>, p: FileInfo -> bool)
    requires ByName(s)
    ensures ByName(Kept(s, p))
  {
    hide Less;
    if s != [] {
      KeptSorted(s[1..], p);
      var r := Kept(s[1..], p);
      forall i | 0 <= i < |r| ensures Less(s[0].name, r[i].name) {
        assert r[i] in s[1..];
        var j :| 0 <= j < |s[1..]| && s[1..][j] == r[i];
        assert s[j + 1] == r[i];
      }
    }
  }

  // The target has nothing under the name that will do for what the source has.
  predicate Differs(s: map<string, FileInfo>, t: map<string, FileInfo>, n: string, settings: Settings)
    requires n in s
  {
    settings.transferAll || !(n in t && WillDo(s[n], t[n], settings.ignore))
  }

  // The target has a directory where the source has something not known to be one.
  predicate InTheWay(s: map<string, FileInfo>, t: map<string, FileInfo>, n: string)
    requires n in s
  {
    n in t && t[n].IsDirectory() && !s[n].IsDirectory()
  }

  // x has exactly these names, in order, each with what there is in m under it.
  ghost predicate Consists(x: seq<FileInfo>, names: set<string>, m: map<string, FileInfo>) {
    ByName(x) && Entries(x).Keys == names && forall n :: n in names ==> n in m && Entries(x)[n] == m[n]
  }

  ghost function DifferentNames(s: map<string, FileInfo>, t: map<string, FileInfo>, settings: Settings): set<string> {
    set n | n in s && Differs(s, t, n, settings)
  }

  ghost function WantedNames(s: map<string, FileInfo>, t: map<string, FileInfo>, settings: Settings): set<string> {
    set n | n in s && Differs(s, t, n, settings) && !settings.unwanted(s[n])
  }

  ghost function NamesInTheWay(s: map<string, FileInfo>, t: map<string, FileInfo>, settings: Settings): set<string> {
    set n | n in s && Differs(s, t, n, settings) && !settings.unwanted(s[n]) && InTheWay(s, t, n)
  }

  ghost function TransferredNames(s: map<string, FileInfo>, t: map<string, FileInfo>, settings: Settings): set<string> {
    set n | && n in s && Differs(s, t, n, settings) && !settings.unwanted(s[n])
            && (settings.delete || !InTheWay(s, t, n))
  }

  lemma NamedRight(s: seq<FileInfo>)
    requires ByName(s)
    ensures forall n :: n in Entries(s) ==> Entries(s)[n].name == n
  {
    hide ByName, Kept, Entries;
    KeptMeans(s, NotDirectory());
  }

  lemma KeptConsists(x: seq<FileInfo>, names: set<string>, m: map<string, FileInfo>, p: FileInfo -> bool)
    requires Consists(x, names, m)
    ensures Consists(Kept(x, p), (set n | n in names && n in m && !p(m[n])), m)
  {
    hide ByName, Kept, Entries;
    KeptMeans(x, p);
  }

  lemma Whole(x: seq<FileInfo>)
    requires ByName(x)
    ensures Consists(x, Entries(x).Keys, Entries(x))
  {
  }

  lemma DifferentMeans(source: seq<FileInfo>, target: seq<FileInfo>, settings: Settings)
    requires ByName(source) && ByName(target)
    ensures var s, t := Entries(source), Entries(target);
      Consists(PlanOf(source, target, settings).different, DifferentNames(s, t, settings), s)
  {
    hide ByName, Kept, Entries, Consists, SameAs, WillDo, Listed, MismatchedOf;
    var s, t := Entries(source), Entries(target);
    var p := ListedSame(t, settings.ignore);
    Whole(source);
    NamedRight(source);
    KeptConsists(source, s.Keys, s, p);
    forall n | n in s ensures p(s[n]) <==> n in t && WillDo(s[n], t[n], settings.ignore) {
      if n in t { SameAsIff(s[n], t[n], settings.ignore); }
    }
    if settings.transferAll {
      assert DifferentNames(s, t, settings) == s.Keys;
    } else {
      assert DifferentNames(s, t, settings) == set n | n in s.Keys && n in s && !p(s[n]);
    }
  }

  lemma WantedMeans(source: seq<FileInfo>, target: seq<FileInfo>, settings: Settings)
    requires ByName(source) && ByName(target)
    ensures var s, t, p := Entries(source), Entries(target), PlanOf(source, target, settings);
      && Consists(Kept(p.different, settings.unwanted), WantedNames(s, t, settings), s)
      && Consists(p.mismatched, NamesInTheWay(s, t, settings), t)
  {
    hide ByName, Kept, Entries, Consists, Differs, ListedSame, Listed, MismatchedOf;
    var s, t, p := Entries(source), Entries(target), PlanOf(source, target, settings);
    DifferentMeans(source, target, settings);
    KeptConsists(p.different, DifferentNames(s, t, settings), s, settings.unwanted);
    var d := DifferentNames(s, t, settings);
    assert WantedNames(s, t, settings) == set n | n in d && n in s && !settings.unwanted(s[n]);
    MismatchedMeans(target, Kept(p.different, settings.unwanted), WantedNames(s, t, settings), s);
    assert NamesInTheWay(s, t, settings)
        == set n | n in t && n in WantedNames(s, t, settings) && t[n].IsDirectory() && !s[n].IsDirectory();
  }

  // A directory at the target is in the way exactly if something is wanted there that is not known to
  // be a directory.
  lemma MismatchedMeans(target: seq<FileInfo>, wanted: seq<FileInfo>, names: set<string>, s: map<string, FileInfo>)
    requires ByName(target) && Consists(wanted, names, s)
    ensures var t := Entries(target);
      Consists(MismatchedOf(target, Entries(wanted)),
               (set n | n in t && n in names && t[n].IsDirectory() && !s[n].IsDirectory()), t)
  {
    hide ByName, Kept, Entries, MismatchedOf;
    var t, x, m := Entries(target), Entries(wanted), MismatchedOf(target, Entries(wanted));
    NamedRight(target);
    MismatchedName(target, x);
    var want := set n | n in t && n in names && t[n].IsDirectory() && !s[n].IsDirectory();
    forall n ensures n in Entries(m) <==> n in want {
      assert n in names ==> x[n] == s[n];
    }
    assert Entries(m).Keys == want;
  }

  lemma MismatchedName(target: seq<FileInfo>, x: map<string, FileInfo>)
    requires ByName(target)
    ensures var t, m := Entries(target), MismatchedOf(target, x);
      && ByName(m) && (forall n :: n in Entries(m) ==> n in t && Entries(m)[n] == t[n])
      && (forall n :: n in Entries(m) <==> n in t && n in x && t[n].IsDirectory() && !SameType(t[n], x[n]))
  {
    hide ByName, Kept, Entries, SameType;
    var a := Kept(target, NotListed(x));
    KeptMeans(target, NotListed(x));
    KeptMeans(a, ListedSameType(x));
    KeptMeans(Kept(a, ListedSameType(x)), NotDirectory());
  }

  /** What a plan comes to, name by name. To be removed is what the source does not have. The same is
      what will do, unless everything is transferred. In the way is a directory where something else
      is wanted. To be transferred is what differs and is wanted, unless a directory is in the way
      that may not be deleted. */
  lemma TransferMeans(source: seq<FileInfo>, target: seq<FileInfo>, settings: Settings)
    requires ByName(source) && ByName(target)
    ensures var s, t, p := Entries(source), Entries(target), PlanOf(source, target, settings);
      && Consists(p.toRm, t.Keys - s.Keys, t)
      && Consists(p.same, s.Keys - DifferentNames(s, t, settings), s)
      && Consists(p.mismatched, NamesInTheWay(s, t, settings), t)
      && Consists(p.toTransfer, TransferredNames(s, t, settings), s)
  {
    hide ByName, Kept, Entries, ListedSame, MismatchedOf, Consists, Differs;
    var s, t, p := Entries(source), Entries(target), PlanOf(source, target, settings);
    WantedMeans(source, target, settings);
    Whole(target);
    KeptConsists(target, t.Keys, t, Listed(s));
    NamedRight(target);
    NamedRight(source);
    assert t.Keys - s.Keys == set n | n in t.Keys && n in t && !Listed(s)(t[n]);
    SameMeans(source, target, settings);
    var w := WantedNames(s, t, settings);
    KeptConsists(Kept(p.different, settings.unwanted), w, s, Listed(Entries(p.mismatched)));
    NamesOfMismatched(source, target, settings);
    if settings.delete {
      assert TransferredNames(s, t, settings) == w;
    } else {
      assert TransferredNames(s, t, settings)
          == set n | n in w && n in s && !Listed(Entries(p.mismatched))(s[n]);
    }
  }

  lemma NamesOfMismatched(source: seq<FileInfo>, target: seq<FileInfo>, settings: Settings)
    requires ByName(source) && ByName(target)
    ensures var s, t, p := Entries(source), Entries(target), PlanOf(source, target, settings);
      Entries(p.mismatched).Keys == NamesInTheWay(s, t, settings)
  {
    hide ByName, Kept, Entries, MismatchedOf, Differs, ListedSame, Listed;
    WantedMeans(source, target, settings);
  }

  lemma SameMeans(source: seq<FileInfo>, target: seq<FileInfo>, settings: Settings)
    requires ByName(source) && ByName(target)
    ensures var s, t, p := Entries(source), Entries(target), PlanOf(source, target, settings);
      Consists(p.same, s.Keys - DifferentNames(s, t, settings), s)
  {
    hide ByName, Kept, Entries, ListedSame, MismatchedOf, Differs;
    var s, t, p := Entries(source), Entries(target), PlanOf(source, target, settings);
    DifferentMeans(source, target, settings);
    NamedRight(source);
    Whole(source);
    var d := DifferentNames(s, t, settings);
    KeptConsists(source, s.Keys, s, Listed(Entries(p.different)));
    NoEntries([]);
    if settings.transferAll {
      assert d == s.Keys by { AllDiffer(s, t, settings); }
      NoneByName();
    } else {
      assert s.Keys - d == set n | n in s.Keys && n in s && !Listed(Entries(p.different))(s[n]);
    }
  }

  lemma AllDiffer(s: map<string, FileInfo>, t: map<string, FileInfo>, settings: Settings)
    requires settings.transferAll
    ensures DifferentNames(s, t, settings) == s.Keys
  {
  }

  lemma NoneByName()
    ensures ByName([])
  {
  }

  /** What is the same and what is different divide the source between them. */
  lemma SameAndTransferPartition(source: seq<FileInfo>, target: seq<FileInfo>, settings: Settings)
    requires ByName(source) && ByName(target)
    ensures var p := PlanOf(source, target, settings); var s, t := Entries(p.same), Entries(p.different);
      s.Keys + t.Keys == Entries(source).Keys && s.Keys !! t.Keys
  {
    hide ByName, Kept, Entries, MismatchedOf, Differs;
    DifferentMeans(source, target, settings);
    SameMeans(source, target, settings);
  }

  /** What is to be removed is neither to be transferred nor in the way. */
  lemma RemovedIsNotTransferred(source: seq<FileInfo>, target: seq<FileInfo>, settings: Settings)
    requires ByName(source) && ByName(target)
    ensures var p := PlanOf(source, target, settings);
      Entries(p.toRm).Keys !! Entries(p.toTransfer).Keys && Entries(p.toRm).Keys !! Entries(p.mismatched).Keys
  {
    hide ByName, Kept, Entries, MismatchedOf, PlanOf, Differs;
    TransferMeans(source, target, settings);
  }

  // What the target comes to when a plan is carried out: what is to be deleted is, if that is
  // wanted; a directory that is there stays, and everything else that is transferred becomes what
  // the source has.
  ghost function Executed(source: seq<FileInfo>, target: seq<FileInfo>, settings: Settings): map<string, FileInfo> {
    var p := PlanOf(source, target, settings);
    var t, w := Entries(target), Entries(p.toTransfer);
    var gone := if settings.delete then Entries(p.toRm).Keys + Entries(p.mismatched).Keys else {};
    map n | n in t.Keys + w.Keys && (n in w || n !in gone) ::
      if n in w && !(w[n].IsDirectory() && n in t && n !in gone && t[n].IsDirectory()) then w[n] else t[n]
  }

  // With deletion nothing is left that the source does not have. A wanted file is there, or will do,
  // unless a directory is in the way that may not be deleted, which stays.
  lemma ExecutedMatches(source: seq<FileInfo>, target: seq<FileInfo>, settings: Settings, n: string)
    requires ByName(source) && ByName(target)
    ensures var s, t, e := Entries(source), Entries(target), Executed(source, target, settings);
      && (settings.delete && n in e ==> n in s)
      && (n in s && !s[n].IsDirectory() && !settings.unwanted(s[n]) ==>
            if settings.delete || !InTheWay(s, t, n) then n in e && WillDo(s[n], e[n], settings.ignore)
            else n in e && e[n] == t[n])
  {
    hide ByName, Kept, Entries, MismatchedOf, PlanOf, WillDo;
    TransferMeans(source, target, settings);
    var s := Entries(source);
    if n in s {
      SameAsItself(s[n], settings.ignore);
      SameAsIff(s[n], s[n], settings.ignore);
    }
  }

  lemma NothingRemoved(source: seq<FileInfo>, after: seq<FileInfo>, settings: Settings)
    requires ByName(source) && ByName(after) && forall n :: n in Entries(after) ==> n in Entries(source)
    ensures PlanOf(source, after, settings).toRm == []
  {
    hide ByName, Kept, Entries, MismatchedOf, PlanOf, Differs;
    TransferMeans(source, after, settings);
    var rm := PlanOf(source, after, settings).toRm;
    assert Entries(rm) == map[] by { assert Entries(rm).Keys == {}; }
    NoEntries(rm);
  }

  /** Once a plan has been carried out, planning again finds only directories to go through; and with
      deletion it finds nothing to remove. */
  lemma PlanConverges(source: seq<FileInfo>, target: seq<FileInfo>, after: seq<FileInfo>, settings: Settings)
    requires ByName(source) && ByName(target) && ByName(after) && !settings.transferAll
    requires Entries(after) == Executed(source, target, settings)
    ensures var q := PlanOf(source, after, settings);
      && (settings.delete ==> q.toRm == [])
      && forall i :: 0 <= i < |q.toTransfer| ==> q.toTransfer[i].IsDirectory()
  {
    hide ByName, Kept, Entries, Executed, MismatchedOf, PlanOf, WillDo;
    var s, a := Entries(source), Entries(after);
    if settings.delete {
      forall n | n in a ensures n in s {
        ExecutedMatches(source, target, settings, n);
      }
      NothingRemoved(source, after, settings);
    }
    TransferMeans(source, after, settings);
    var w := PlanOf(source, after, settings).toTransfer;
    forall i | 0 <= i < |w| ensures w[i].IsDirectory() {
      EntryAt(w, i);
      ExecutedMatches(source, target, settings, w[i].name);
    }
  }

  /** If everything is transferred anyway, planning again with deletion still finds nothing to remove,
      and all that is wanted is to be transferred once more. */
  lemma PlanOfAllConverges(source: seq<FileInfo>, target: seq<FileInfo>, after: seq<FileInfo>, settings: Settings)
    requires ByName(source) && ByName(target) && ByName(after) && settings.delete && settings.transferAll
    requires Entries(after) == Executed(source, target, settings)
    ensures var q := PlanOf(source, after, settings);
      q.toRm == [] && q.toTransfer == PlanOf(source, target, settings).toTransfer
  {
    hide ByName, Kept, Entries, MismatchedOf, Executed;
    forall n | n in Entries(after) ensures n in Entries(source) {
      ExecutedMatches(source, target, settings, n);
    }
    NothingRemoved(source, after, settings);
  }
}

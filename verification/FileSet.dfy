/**
 FileSet.cc: files in an array sorted by name, found by bisection and merged and thinned out in
 place; and the plan of what a mirror is to do, made of such sets (MirrorJob::InitSets).
 */
module FileSet {
  import opened Lexical
  import opened Sequences

  datatype Kind = Unknown | Directory | Symlink | Normal | Redirect

  // A date and how coarse it is.
  datatype Date = Date(time: int, precision: nat)

  /** What is known of a file: attributes that are not defined are None. */
  datatype FileInfo = FileInfo(
    name: string, kind: Option<Kind>, symlink: Option<string>, date: Option<Date>, size: Option<int>, rest: int)
  {
    predicate IsDirectory() { kind == Some(Directory) }
  }

  // How one entry takes over what it lacks from another of the same name.
  type Merger = (FileInfo, FileInfo) -> FileInfo

  ghost predicate KeepsNames(m: Merger) { forall a, b :: m(a, b).name == a.name }

  ghost predicate ByName(s: seq<FileInfo>) {
    forall i, j :: 0 <= i < j < |s| ==> Less(s[i].name, s[j].name)
  }

  // ---------------------------------------------------------------- sets as maps

  // The entry under each name.
  ghost function Entries(s: seq<FileInfo>): map<string, FileInfo> {
    if s == [] then map[] else Entries(s[..|s| - 1])[s[|s| - 1].name := s[|s| - 1]]
  }

  lemma NamesDiffer(s: seq<FileInfo>, i: nat, j: nat)
    requires ByName(s) && i < j < |s|
    ensures s[i].name != s[j].name
  {
    LessIrreflexive(s[i].name);
  }

  lemma {:induction false} EntriesAre(s: seq<FileInfo>)
    requires ByName(s)
    ensures forall i :: 0 <= i < |s| ==> s[i].name in Entries(s) && Entries(s)[s[i].name] == s[i]
    ensures forall n :: n in Entries(s) ==> exists i :: 0 <= i < |s| && s[i].name == n
    decreases |s|
  {
    hide Less;
    if s != [] {
      var t := s[..|s| - 1];
      EntriesAre(t);
      forall i | 0 <= i < |s| ensures s[i].name in Entries(s) && Entries(s)[s[i].name] == s[i] {
        if i < |t| {
          NamesDiffer(s, i, |t|);
          assert t[i] == s[i];
        }
      }
      forall n | n in Entries(s) ensures exists i :: 0 <= i < |s| && s[i].name == n {
        if n in Entries(t) {
          var i :| 0 <= i < |t| && t[i].name == n;
          assert s[i].name == n;
        } else {
          assert s[|t|].name == n;
        }
      }
    }
  }

  // Where a name is.
  lemma IndexOf(s: seq<FileInfo>, n: string) returns (i: nat)
    requires ByName(s) && n in Entries(s)
    ensures i < |s| && s[i].name == n && Entries(s)[n] == s[i]
  {
    EntriesAre(s);
    i :| 0 <= i < |s| && s[i].name == n;
  }

  // A name is not among the entries before its own.
  lemma NotBefore(s: seq<FileInfo>, k: nat)
    requires ByName(s) && k < |s|
    ensures ByName(s[..k]) && s[k].name !in Entries(s[..k])
  {
    hide Less;
    if s[k].name in Entries(s[..k]) {
      var i := IndexOf(s[..k], s[k].name);
      NamesDiffer(s, i, k);
    }
  }

  lemma EntryAt(s: seq<FileInfo>, i: nat)
    requires ByName(s) && i < |s|
    ensures s[i].name in Entries(s) && Entries(s)[s[i].name] == s[i]
  {
    EntriesAre(s);
  }

  // Where the names at or after a given one begin.
  ghost predicate IsFirstFrom(s: seq<FileInfo>, name: string, k: int) {
    && 0 <= k <= |s|
    && (forall i :: 0 <= i < k ==> Less(s[i].name, name))
    && (forall i :: k <= i < |s| ==> !Less(s[i].name, name))
  }

  // The last names of two arrays with the same entries are the same.
  lemma LastIsLast(s: seq<FileInfo>, t: seq<FileInfo>)
    requires ByName(s) && ByName(t) && Entries(s) == Entries(t) && s != [] && t != []
    ensures s[|s| - 1] == t[|t| - 1]
  {
    hide Less, ByName, Entries;
    var a, b := s[|s| - 1], t[|t| - 1];
    EntryAt(s, |s| - 1);
    EntryAt(t, |t| - 1);
    var i := IndexOf(t, a.name);
    var j := IndexOf(s, b.name);
    InOrder(t, i, |t| - 1);
    InOrder(s, j, |s| - 1);
    if a.name != b.name {
      LessTransitive(a.name, b.name, a.name);
      LessIrreflexive(a.name);
    }
  }

  /** An array sorted by name is determined by its entries. */
  lemma {:induction false} SortedIsUnique(s: seq<FileInfo>, t: seq<FileInfo>)
    requires ByName(s) && ByName(t) && Entries(s) == Entries(t)
    ensures s == t
    decreases |s|
  {
    hide Less, ByName, Entries;
    NoEntries(s);
    NoEntries(t);
    if s != [] && t != [] {
      LastIsLast(s, t);
      WithoutLast(s);
      WithoutLast(t);
      SortedIsUnique(s[..|s| - 1], t[..|t| - 1]);
      assert s == s[..|s| - 1] + [s[|s| - 1]] && t == t[..|t| - 1] + [t[|t| - 1]];
    }
  }

  lemma NoEntries(s: seq<FileInfo>)
    requires ByName(s)
    ensures Entries(s) == map[] <==> s == []
  {
    if s != [] { EntryAt(s, 0); }
  }

  lemma WithoutLast(s: seq<FileInfo>)
    requires s != [] && ByName(s)
    ensures ByName(s[..|s| - 1]) && Entries(s[..|s| - 1]) == Entries(s) - {s[|s| - 1].name}
  {
    NotBefore(s, |s| - 1);
    PutAndRemove(Entries(s[..|s| - 1]), s[|s| - 1].name, s[|s| - 1]);
  }

  lemma PutAndRemove(x: map<string, FileInfo>, n: string, f: FileInfo)
    requires n !in x
    ensures x[n := f] - {n} == x
  {
  }

  /** What a merge comes to: the entries of both, those of one name merged. */
  ghost function Union(x: map<string, FileInfo>, y: map<string, FileInfo>, m: Merger): map<string, FileInfo> {
    map n | n in x.Keys + y.Keys :: if n in x && n in y then m(x[n], y[n]) else if n in x then x[n] else y[n]
  }

  // An entry put in its place.
  ghost function Placed(x: map<string, FileInfo>, f: FileInfo, m: Merger): map<string, FileInfo> {
    x[f.name := if f.name in x then m(x[f.name], f) else f]
  }

  /** Merging one by one is merging all at once. */
  lemma UnionNext(x: map<string, FileInfo>, s: seq<FileInfo>, k: nat, m: Merger)
    requires ByName(s) && k < |s|
    ensures Union(x, Entries(s[..k + 1]), m) == Placed(Union(x, Entries(s[..k]), m), s[k], m)
  {
    assert s[..k + 1][..k] == s[..k];
    NotBefore(s, k);
  }

  // ---------------------------------------------------------------- the object

  class FileSet {
    var files: seq<FileInfo>
    var ind: int

    ghost predicate Valid()
      reads this
    {
      ByName(files)
    }

    ghost function Contents(): map<string, FileInfo>
      reads this
    {
      Entries(files)
    }

    constructor (files: seq<FileInfo>)
      requires ByName(files)
      ensures Valid() && this.files == files && ind == 0
    {
      this.files, ind := files, 0;
    }

    /** FindGEIndByName: bisection. */
    method FindGEIndByName(name: string) returns (k: nat)
      requires Valid()
      ensures IsFirstFrom(files, name, k)
    {
      var n := |files|;
      if n == 0 || Less(files[n - 1].name, name) {
        forall i | 0 <= i < n ensures Less(files[i].name, name) {
          if i < n - 1 { LessTransitive(files[i].name, files[n - 1].name, name); }
        }
        return n;
      }
      var l, u := 0, n - 1;
      while l < u
        invariant 0 <= l <= u < n
        invariant forall i :: 0 <= i < l ==> Less(files[i].name, name)
        invariant !Less(files[u].name, name)
      {
        var m := (l + u) / 2;
        LessTotal(files[m].name, name);
        if Less(name, files[m].name) {
          LessIrreflexive(name);
          if Less(files[m].name, name) { LessTransitive(name, files[m].name, name); }
          u := m;
        } else if Less(files[m].name, name) {
          forall i | 0 <= i < m + 1 ensures Less(files[i].name, name) {
            if i < m { LessTransitive(files[i].name, files[m].name, name); }
          }
          l := m + 1;
        } else {
          LessIrreflexive(name);
          FirstFromFound(files, name, m);
          return m;
        }
      }
      FromHereOn(files, name, u);
      return u;
    }

    method FindByName(name: string) returns (f: Option<FileInfo>)
      requires Valid()
      ensures f == if name in Contents() then Some(Contents()[name]) else None
    {
      EntriesAre(files);
      var n := FindGEIndByName(name);
      AbsentUnlessFirst(files, name, n);
      if n < |files| && files[n].name == name { return Some(files[n]); }
      return None;
    }

    method AddBefore(k: nat, f: FileInfo)
      requires Valid() && IsFirstFrom(files, f.name, k) && f.name !in Contents()
      modifies this
      ensures Valid() && files == Inserted(old(files), f, k) && ind == old(ind)
      ensures Contents() == old(Contents())[f.name := f]
    {
      ghost var s := files;
      files := Inserted(files, f, k);
      InsertedEntries(s, f, k);
    }

    method MergeAt(k: nat, f: FileInfo, m: Merger)
      requires Valid() && KeepsNames(m) && k < |files| && files[k].name == f.name
      modifies this
      ensures Valid() && files == old(files)[k := m(old(files[k]), f)] && ind == old(ind)
      ensures Contents() == Placed(old(Contents()), f, m)
    {
      ghost var s := files;
      files := files[k := m(files[k], f)];
      UpdatedEntries(s, files[k], k);
      EntryAt(s, k);
    }

    /** Add: an entry that is there already takes over what it lacks, a new one goes to its place. */
    method Add(f: FileInfo, m: Merger)
      requires Valid() && KeepsNames(m)
      modifies this
      ensures Valid() && Contents() == Placed(old(Contents()), f, m) && ind == old(ind)
    {
      var k := FindGEIndByName(f.name);
      AbsentUnlessFirst(files, f.name, k);
      if k < |files| && files[k].name == f.name {
        MergeAt(k, f, m);
      } else {
        AddBefore(k, f);
      }
    }

    /** Merge_insert: one by one. */
    method MergeInsert(set': seq<FileInfo>, m: Merger)
      requires Valid() && KeepsNames(m) && ByName(set')
      modifies this
      ensures Valid() && Contents() == Union(old(Contents()), Entries(set'), m) && ind == old(ind)
    {
      hide Entries, Union, Placed, ByName;
      UnionNone(Contents(), set', m);
      for i := 0 to |set'|
        invariant Valid() && ind == old(ind) && Contents() == Union(old(Contents()), Entries(set'[..i]), m)
      {
        Add(set'[i], m);
        UnionNext(old(Contents()), set', i, m);
      }
      assert set'[..|set'|] == set';
    }

    // The linear merge of the two arrays.
    method MergeLinear(set': seq<FileInfo>, m: Merger)
      requires Valid() && KeepsNames(m) && ByName(set')
      modifies this
      ensures Valid() && Contents() == Union(old(Contents()), Entries(set'), m) && ind == old(ind)
    {
      hide Entries, Union, ByName, Less;
      var r: seq<FileInfo> := [];
      var i, j := 0, 0;
      MergingStarts(files, set', m);
      while i < |set'| && j < |files|
        invariant files == old(files) && ind == old(ind) && Merging(files, set', m, r, j, i)
        decreases |set'| - i + |files| - j
      {
        LessTotal(set'[i].name, files[j].name);
        if set'[i].name == files[j].name {
          TakeBoth(files, set', m, r, j, i);
          r, i, j := r + [m(files[j], set'[i])], i + 1, j + 1;
        } else if Less(set'[i].name, files[j].name) {
          TakeSecond(files, set', m, r, j, i);
          r, i := r + [set'[i]], i + 1;
        } else {
          TakeFirst(files, set', m, r, j, i);
          r, j := r + [files[j]], j + 1;
        }
      }
      while i < |set'|
        invariant files == old(files) && ind == old(ind)
        invariant Merging(files, set', m, r, j, i) && (i == |set'| || j == |files|)
      {
        TakeSecond(files, set', m, r, j, i);
        r, i := r + [set'[i]], i + 1;
      }
      while j < |files|
        invariant files == old(files) && ind == old(ind) && Merging(files, set', m, r, j, i) && i == |set'|
      {
        TakeFirst(files, set', m, r, j, i);
        r, j := r + [files[j]], j + 1;
      }
      MergingEnds(files, set', m, r);
      files := r;
    }

    /** Merge: whichever way the estimate of the work selects, the result is the same union. */
    method Merge(set': seq<FileInfo>, m: Merger)
      requires Valid() && KeepsNames(m) && ByName(set')
      modifies this
      ensures Valid() && Contents() == Union(old(Contents()), Entries(set'), m) && ind == old(ind)
    {
      if |set'| == 0 {
        UnionNone(Contents(), set', m);
        assert set'[..0] == set';
        return;
      }
      var k := FindGEIndByName(set'[0].name);
      if |files| - k < |files| * 2 / |set'| {
        MergeInsert(set', m);
      } else {
        MergeLinear(set', m);
      }
    }

    // Sub: the current entry stays current.
    method Sub(i: nat)
      requires Valid() && i < |files|
      modifies this
      ensures Valid() && files == RemoveAt(old(files), i) && ind == old(ind) - (if old(ind) > i then 1 else 0)
    {
      files := RemoveAt(files, i);
      if ind > i { ind := ind - 1; }
    }

    /** The loop that all Subtract methods are: what meets the condition goes, in place. */
    method SubtractIf(p: FileInfo -> bool)
      requires Valid()
      modifies this
      ensures Valid() && files == Kept(old(files), p)
    {
      hide ByName, Less;
      ghost var s := files;
      var i := 0;
      ghost var done := 0;
      ThinningStarts(s, p);
      while i < |files|
        invariant Valid() && Thinning(s, files, p, done, i)
        decreases |files| - i
      {
        ThinningNext(s, files, p, done, i);
        if p(files[i]) {
          Sub(i);
        } else {
          i := i + 1;
        }
        done := done + 1;
      }
      ThinningEnds(s, files, p, done);
    }
  }

  function Kept(s: seq<FileInfo>, p: FileInfo -> bool): seq<FileInfo> { Filter(s, f => !p(f)) }

  // s has been gone through up to done, and now the array is done up to i.
  ghost predicate Thinning(s: seq<FileInfo>, now: seq<FileInfo>, p: FileInfo -> bool, done: nat, i: nat) {
    i <= |now| && done <= |s| && now[i..] == s[done..] && now[..i] == Kept(s[..done], p)
  }

  lemma ThinningStarts(s: seq<FileInfo>, p: FileInfo -> bool)
    ensures Thinning(s, s, p, 0, 0)
  {
  }

  lemma ThinningNext(s: seq<FileInfo>, now: seq<FileInfo>, p: FileInfo -> bool, done: nat, i: nat)
    requires Thinning(s, now, p, done, i) && i < |now|
    ensures if p(now[i]) then Thinning(s, RemoveAt(now, i), p, done + 1, i) else Thinning(s, now, p, done + 1, i + 1)
  {
    hide Filter;
    assert |now[i..]| == |s[done..]| && now[i] == now[i..][0] == s[done..][0] == s[done];
    FilterNext(s, done, f => !p(f));
    assert s[done..][1..] == s[done + 1..] && now[i..][1..] == now[i + 1..];
    var r := RemoveAt(now, i);
    assert r[..i] == now[..i] && r[i..] == now[i + 1..];
    assert now[..i + 1] == now[..i] + [now[i]];
  }

  lemma ThinningEnds(s: seq<FileInfo>, now: seq<FileInfo>, p: FileInfo -> bool, done: nat)
    requires Thinning(s, now, p, done, |now|)
    ensures now == Kept(s, p)
  {
    assert now[|now|..] == [] && s[..|s|] == s && now[..|now|] == now;
  }

  lemma FromHereOn(s: seq<FileInfo>, name: string, k: nat)
    requires ByName(s) && k < |s| && !Less(s[k].name, name)
    ensures forall i :: k <= i < |s| ==> !Less(s[i].name, name)
  {
    forall i | k <= i < |s| ensures !Less(s[i].name, name) {
      if k < i && Less(s[i].name, name) { LessTransitive(s[k].name, s[i].name, name); }
    }
  }

  lemma FirstFromFound(s: seq<FileInfo>, name: string, k: nat)
    requires ByName(s) && k < |s| && s[k].name == name
    ensures IsFirstFrom(s, name, k)
  {
    LessIrreflexive(name);
    FromHereOn(s, name, k);
  }

  lemma InOrder(s: seq<FileInfo>, k: nat, i: nat)
    requires ByName(s) && k <= i < |s|
    ensures k < i ==> Less(s[k].name, s[i].name)
  {
  }

  lemma BelowOrAt(s: seq<FileInfo>, name: string, k: nat, i: nat)
    requires ByName(s) && IsFirstFrom(s, name, k) && k <= i < |s| && s[i].name == name
    ensures k == i
  {
    hide ByName;
    InOrder(s, k, i);
  }

  // A name is found at the first place it can be, or nowhere.
  lemma AbsentUnlessFirst(s: seq<FileInfo>, name: string, k: nat)
    requires ByName(s) && IsFirstFrom(s, name, k)
    ensures name in Entries(s) <==> k < |s| && s[k].name == name
    ensures k < |s| && s[k].name == name ==> Entries(s)[name] == s[k]
  {
    hide Less;
    if name in Entries(s) {
      var i := IndexOf(s, name);
      LessIrreflexive(name);
      assert k <= i;
      BelowOrAt(s, name, k, i);
    }
    if k < |s| { EntryAt(s, k); }
  }

  function Inserted(s: seq<FileInfo>, f: FileInfo, k: nat): (r: seq<FileInfo>)
    requires k <= |s|
    ensures |r| == |s| + 1
    ensures forall i :: 0 <= i < |r| ==> r[i] == if i < k then s[i] else if i == k then f else s[i - 1]
  {
    s[..k] + [f] + s[k..]
  }

  // A new entry at its place leaves the array sorted.
  lemma InsertedInOrder(s: seq<FileInfo>, f: FileInfo, k: nat, i: nat, j: nat)
    requires ByName(s) && IsFirstFrom(s, f.name, k) && f.name !in Entries(s) && i < j <= |s|
    ensures var r := Inserted(s, f, k); Less(r[i].name, r[j].name)
  {
    hide Less, ByName;
    if i == k {
      EntryAt(s, j - 1);
      LessTotal(s[j - 1].name, f.name);
    } else if j != k {
      InOrder(s, if i < k then i else i - 1, if j < k then j else j - 1);
    }
  }

  lemma InsertedIsSorted(s: seq<FileInfo>, f: FileInfo, k: nat)
    requires ByName(s) && IsFirstFrom(s, f.name, k) && f.name !in Entries(s)
    ensures ByName(Inserted(s, f, k))
  {
    hide Less;
    var r := Inserted(s, f, k);
    assert |r| == |s| + 1 by { InsertedSize(s, f, k); }
    forall i, j | 0 <= i < j < |r| ensures Less(r[i].name, r[j].name) {
      InsertedInOrder(s, f, k, i, j);
    }
  }

  lemma InsertedSize(s: seq<FileInfo>, f: FileInfo, k: nat)
    requires k <= |s|
    ensures |Inserted(s, f, k)| == |s| + 1
  {
  }

  // And its entries are the old ones and the new one.
  lemma InsertedEntries(s: seq<FileInfo>, f: FileInfo, k: nat)
    requires ByName(s) && IsFirstFrom(s, f.name, k) && f.name !in Entries(s)
    ensures var r := Inserted(s, f, k); ByName(r) && Entries(r) == Entries(s)[f.name := f]
  {
    hide Less, ByName, Entries;
    var r, x := Inserted(s, f, k), Entries(s)[f.name := f];
    InsertedIsSorted(s, f, k);
    forall i | 0 <= i < |r| ensures Entry(x, r[i]) {
      if i != k { EntryAt(s, if i < k then i else i - 1); }
    }
    forall n | n in x ensures Has(r, n) {
      if n == f.name {
        assert r[k].name == n;
      } else {
        var i := IndexOf(s, n);
        assert r[if i < k then i else i + 1].name == n;
      }
    }
    SameEntries(r, x);
  }

  predicate Entry(x: map<string, FileInfo>, f: FileInfo) { f.name in x && x[f.name] == f }

  ghost predicate Has(s: seq<FileInfo>, n: string) { exists i :: 0 <= i < |s| && s[i].name == n }

  lemma SameEntries(s: seq<FileInfo>, x: map<string, FileInfo>)
    requires ByName(s) && (forall i :: 0 <= i < |s| ==> Entry(x, s[i])) && forall n :: n in x ==> Has(s, n)
    ensures Entries(s) == x
  {
    EntriesAre(s);
    forall n | n in x ensures n in Entries(s) && Entries(s)[n] == x[n] {
      assert Has(s, n);
      var i :| 0 <= i < |s| && s[i].name == n;
      assert Entry(x, s[i]);
    }
    forall n | n in Entries(s) ensures n in x {
      var i := IndexOf(s, n);
      assert Entry(x, s[i]);
    }
  }

  lemma UpdatedEntries(s: seq<FileInfo>, f: FileInfo, k: nat)
    requires ByName(s) && k < |s| && s[k].name == f.name
    ensures var r := s[k := f]; ByName(r) && Entries(r) == Entries(s)[f.name := f]
  {
    hide Less;
    var r := s[k := f];
    var x := Entries(s)[f.name := f];
    forall i | 0 <= i < |r| ensures Entry(x, r[i]) {
      EntryAt(s, i);
      if i < k { NamesDiffer(s, i, k); } else if k < i { NamesDiffer(s, k, i); }
    }
    forall n | n in x ensures Has(r, n) {
      EntryAt(s, k);
      var i := IndexOf(s, n);
      assert r[i].name == n;
    }
    SameEntries(r, x);
  }

  lemma UnionNone(x: map<string, FileInfo>, s: seq<FileInfo>, m: Merger)
    ensures Union(x, Entries(s[..0]), m) == x
  {
  }

  // ---------------------------------------------------------------- the linear merge

  ghost predicate AllBelow(s: seq<FileInfo>, t: seq<FileInfo>, k: nat) {
    k < |t| ==> forall i :: 0 <= i < |s| ==> Less(s[i].name, t[k].name)
  }

  // The merge of a up to j and b up to i is r, and what is left comes after it.
  ghost predicate Merging(a: seq<FileInfo>, b: seq<FileInfo>, m: Merger, r: seq<FileInfo>, j: nat, i: nat) {
    && j <= |a| && i <= |b| && ByName(a) && ByName(b) && ByName(r) && KeepsNames(m)
    && AllBelow(r, a, j) && AllBelow(r, b, i)
    && Entries(r) == Union(Entries(a[..j]), Entries(b[..i]), m)
  }

  lemma MergingStarts(a: seq<FileInfo>, b: seq<FileInfo>, m: Merger)
    requires ByName(a) && ByName(b) && KeepsNames(m)
    ensures Merging(a, b, m, [], 0, 0)
  {
  }

  lemma MergingEnds(a: seq<FileInfo>, b: seq<FileInfo>, m: Merger, r: seq<FileInfo>)
    requires Merging(a, b, m, r, |a|, |b|)
    ensures ByName(r) && Entries(r) == Union(Entries(a), Entries(b), m)
  {
    assert a[..|a|] == a && b[..|b|] == b;
  }

  // What comes after all of r is new to it.
  lemma Pushed(r: seq<FileInfo>, f: FileInfo)
    requires ByName(r) && forall i :: 0 <= i < |r| ==> Less(r[i].name, f.name)
    ensures ByName(r + [f]) && f.name !in Entries(r) && Entries(r + [f]) == Entries(r)[f.name := f]
  {
    hide Less;
    var s := r + [f];
    assert s[..|r|] == r;
    assert ByName(s);
    NotBefore(s, |r|);
  }

  lemma StillBelow(r: seq<FileInfo>, f: FileInfo, t: seq<FileInfo>, k: nat)
    requires ByName(t) && AllBelow(r, t, k) && k <= |t|
    requires k < |t| ==> Less(f.name, t[k].name)
    ensures AllBelow(r + [f], t, k)
  {
    hide Less;
  }

  lemma NextBelow(r: seq<FileInfo>, f: FileInfo, t: seq<FileInfo>, k: nat)
    requires ByName(t) && AllBelow(r, t, k) && k < |t| && f.name == t[k].name
    ensures AllBelow(r + [f], t, k + 1)
  {
    hide Less;
    if k + 1 < |t| {
      forall i | 0 <= i < |r| ensures Less(r[i].name, t[k + 1].name) {
        LessTransitive(r[i].name, t[k].name, t[k + 1].name);
      }
    }
  }

  lemma EntriesNext(s: seq<FileInfo>, k: nat)
    requires k < |s|
    ensures Entries(s[..k + 1]) == Entries(s[..k])[s[k].name := s[k]]
  {
    assert s[..k + 1][..k] == s[..k];
  }

  lemma TakeSecond(a: seq<FileInfo>, b: seq<FileInfo>, m: Merger, r: seq<FileInfo>, j: nat, i: nat)
    requires Merging(a, b, m, r, j, i) && i < |b| && (j < |a| ==> Less(b[i].name, a[j].name))
    ensures Merging(a, b, m, r + [b[i]], j, i + 1)
  {
    hide Less, Entries;
    Pushed(r, b[i]);
    NextBelow(r, b[i], b, i);
    StillBelow(r, b[i], a, j);
    UnionNext(Entries(a[..j]), b, i, m);
  }

  lemma TakeFirst(a: seq<FileInfo>, b: seq<FileInfo>, m: Merger, r: seq<FileInfo>, j: nat, i: nat)
    requires Merging(a, b, m, r, j, i) && j < |a| && (i < |b| ==> Less(a[j].name, b[i].name))
    ensures Merging(a, b, m, r + [a[j]], j + 1, i)
  {
    hide Less, Entries;
    Pushed(r, a[j]);
    NextBelow(r, a[j], a, j);
    StillBelow(r, a[j], b, i);
    EntriesNext(a, j);
    UnionLeft(Entries(a[..j]), Entries(b[..i]), a[j], m);
  }

  lemma UnionLeft(x: map<string, FileInfo>, y: map<string, FileInfo>, f: FileInfo, m: Merger)
    requires f.name !in Union(x, y, m)
    ensures Union(x[f.name := f], y, m) == Union(x, y, m)[f.name := f]
  {
  }

  lemma TakeBoth(a: seq<FileInfo>, b: seq<FileInfo>, m: Merger, r: seq<FileInfo>, j: nat, i: nat)
    requires Merging(a, b, m, r, j, i) && j < |a| && i < |b| && a[j].name == b[i].name
    ensures Merging(a, b, m, r + [m(a[j], b[i])], j + 1, i + 1)
  {
    hide Less, Entries;
    var f := m(a[j], b[i]);
    Pushed(r, f);
    NextBelow(r, f, a, j);
    NextBelow(r, f, b, i);
    EntriesNext(a, j);
    EntriesNext(b, i);
    UnionBoth(Entries(a[..j]), Entries(b[..i]), a[j], b[i], m);
  }

  lemma UnionBoth(x: map<string, FileInfo>, y: map<string, FileInfo>, f: FileInfo, g: FileInfo, m: Merger)
    requires f.name == g.name && f.name !in Union(x, y, m)
    ensures Union(x[f.name := f], y[g.name := g], m) == Union(x, y, m)[f.name := m(f, g)]
  {
  }

  /** However two sets are merged, linearly, by insertion or entry by entry, the arrays are equal. */
  lemma MergesAgree(a: seq<FileInfo>, b: seq<FileInfo>, r1: seq<FileInfo>, r2: seq<FileInfo>, m: Merger)
    requires ByName(r1) && Entries(r1) == Union(Entries(a), Entries(b), m)
    requires ByName(r2) && Entries(r2) == Union(Entries(a), Entries(b), m)
    ensures r1 == r2
  {
    SortedIsUnique(r1, r2);
  }
}

/**
 What FileAccess::Path::Optimize makes of a path that starts with neither a slash nor a tilde:
 exactly when the result is still such a path and leads to the same place.
 */
module PathRelative {
  import opened PathOptimize

  // The components of a path that has no prefix.
  function Steps(p: string): seq<string> {
    Components("/" + p)
  }

  // ---------------------------------------------------------------- the second loop

  // Whether the text of the stack begins with a slash: it does once a name is put on a stack that
  // had become empty, and no longer when that stack is emptied and ".." is put on it.
  function Led(stack: seq<string>, led: bool, cs: seq<string>): bool
    decreases |cs|
  {
    if cs == [] then led
    else Led(Enter(false, stack, cs[0]), LedAfter(stack, led, cs[0]), cs[1..])
  }

  function LedAfter(stack: seq<string>, led: bool, c: string): bool {
    if c == "" || c == "." || stack != [] then led else c != ".."
  }

  // The text that stands for a stack.
  function Text(stack: seq<string>, led: bool): string {
    Rendered(!led, stack)
  }

  lemma UpWithoutPrefix(stack: seq<string>, led: bool)
    requires Kept(false, stack)
    ensures Up("", Text(stack, led)) == Text(Enter(false, stack, ".."), LedAfter(stack, led, ".."))
  {
    hide LastIsDoubleDot, Rendered, Back;
    var r := Text(stack, led);
    assert "" + r == r;
    if stack == [] {
      EmptyText(led);
      JustDots();
    } else {
      var c := stack[|stack| - 1];
      var below := stack[..|stack| - 1];
      LastIsDoubleDotMeans(!led, stack);
      RenderedTop(!led, stack);
      if c == ".." {
        RenderedPush(!led, stack, "..");
      } else {
        BackOverName(Rendered(!led, below), c);
        if below == [] { EmptyText(led); }
      }
    }
  }

  lemma EmptyText(led: bool)
    ensures Text([], led) == "" && Up("", "") == ".."
  {
  }

  lemma JustDots()
    ensures Text([".."], false) == ".." && [] + [".."] == [".."]
  {
    assert Slashed([".."]) == "/" + ".." + "";
  }

  // The text of a stack does not end in a slash.
  lemma TextEnd(stack: seq<string>, led: bool)
    requires Kept(false, stack)
    ensures !EndsInSlash("" + Text(stack, led))
  {
    hide Rendered;
    assert "" + Text(stack, led) == Text(stack, led);
    if stack == [] { EmptyText(led); } else { RenderedTop(!led, stack); }
  }

  // One component further along.
  lemma WalkStep(stack: seq<string>, led: bool, c: string, s: string)
    requires Kept(false, stack) && '/' !in c && NUL !in c && Boundary(s) && Plain(s) && (c != "" || s != "")
    ensures Walk("", Text(stack, led), "/" + c + s)
         == Walk("", Text(Enter(false, stack, c), LedAfter(stack, led, c)), s)
  {
    hide Rendered, Up, Text;
    var out := Text(stack, led);
    var t := "/" + c + s;
    if c == "" {
      assert t[1..] == s;
    } else if c == "." {
      assert t[2..] == s && DotAt(t, 1) && At(t, 1) == '.';
    } else if c == ".." {
      assert t[3..] == s && DotsAt(t, 1) && !DotAt(t, 1) && At(t, 1) == '.';
      UpWithoutPrefix(stack, led);
    } else {
      NameIsNoDots(c, s);
      WalkPush(stack, led, c, s);
    }
  }

  lemma WalkPush(stack: seq<string>, led: bool, c: string, s: string)
    requires Kept(false, stack) && Name(c) && c != ".."
    requires var t := "/" + c + s; At(t, 1) != '/' && !DotAt(t, 1) && !DotsAt(t, 1)
    ensures Walk("", Text(stack, led), "/" + c + s) == Walk("", Text(stack + [c], LedAfter(stack, led, c)), s)
  {
    hide DotAt, DotsAt, Rendered;
    var out := Text(stack, led);
    var t := "/" + c + s;
    assert t[1..] == c + s && out + [t[0]] == out + "/";
    TextEnd(stack, led);
    assert Walk("", out, t) == Walk("", out + "/", c + s);
    WalkName("", out + "/", c, s);
    RenderedPush(!LedAfter(stack, led, c), stack, c);
    if stack == [] {
      EmptyText(led);
      EmptyText(true);
    }
  }

  /** The second loop keeps the stack of components, and of its text it keeps whether a slash
      leads it. */
  lemma {:induction false} WalkSteps(stack: seq<string>, led: bool, s: string)
    requires Kept(false, stack) && Boundary(s) && Plain(s)
    ensures var cs := Components(s);
      Walk("", Text(stack, led), s)
        == Text(Follow(false, stack, cs), Led(stack, led, cs)) + (if EndsInSlash(s) then "/" else "")
    decreases |s|
  {
    hide Text;
    var out := Text(stack, led);
    if s == "" {
      assert out + "" == out;
    } else if s == "/" {
      JustSlash("/");
      OneEmptyStep(stack, led);
      assert "/"[1..] == "";
      TextEnd(stack, led);
      assert Walk("", out, "/") == out + "/";
    } else {
      var c, s' := Head(s[1..]), Rest(s[1..]);
      assert s == "/" + c + s';
      assert NUL !in c && Plain(s');
      WalkStep(stack, led, c, s');
      EnterKeeps(false, stack, c);
      WalkSteps(Enter(false, stack, c), LedAfter(stack, led, c), s');
      assert EndsInSlash(s) == EndsInSlash(s');
    }
  }

  lemma OneEmptyStep(stack: seq<string>, led: bool)
    ensures Follow(false, stack, [""]) == stack && Led(stack, led, [""]) == led
  {
    assert [""][1..] == [];
  }

  // ---------------------------------------------------------------- when a slash leads

  // Some of the components lead back to where they started.
  ghost predicate ComesBack(stack: seq<string>, cs: seq<string>) {
    exists k: nat :: k <= |cs| && Follow(false, stack, cs[..k]) == []
  }

  lemma ComesBackNext(stack: seq<string>, cs: seq<string>)
    requires cs != []
    ensures ComesBack(stack, cs) <==> stack == [] || ComesBack(Enter(false, stack, cs[0]), cs[1..])
  {
    var next := Enter(false, stack, cs[0]);
    if ComesBack(stack, cs) && stack != [] {
      var k: nat :| k <= |cs| && Follow(false, stack, cs[..k]) == [];
      assert k > 0;
      assert cs[..k][0] == cs[0] && cs[..k][1..] == cs[1..][..k - 1];
    }
    if stack == [] {
      assert cs[..0] == [];
    } else if ComesBack(next, cs[1..]) {
      var k: nat :| k <= |cs[1..]| && Follow(false, next, cs[1..][..k]) == [];
      assert cs[..k + 1][0] == cs[0] && cs[..k + 1][1..] == cs[1..][..k];
    }
  }

  /** A slash leads what is left on the stack exactly if the components came back to where they
      started and what is left begins with a name. */
  lemma {:induction false} LedIff(stack: seq<string>, led: bool, cs: seq<string>)
    requires Follow(false, stack, cs) != []
    ensures var end := Follow(false, stack, cs);
      if ComesBack(stack, cs) then Led(stack, led, cs) <==> end[0] != ".."
      else Led(stack, led, cs) == led && stack != [] && end[0] == stack[0]
    decreases |cs|
  {
    if cs == [] {
      assert ComesBack(stack, cs) ==> stack == [];
    } else {
      var next, led' := Enter(false, stack, cs[0]), LedAfter(stack, led, cs[0]);
      ComesBackNext(stack, cs);
      LedIff(next, led', cs[1..]);
    }
  }

  // ---------------------------------------------------------------- the first loop

  // How many components of no account, or "..", stand at the beginning.
  function LeadRun(cs: seq<string>): (n: nat)
    ensures n <= |cs|
    ensures forall i :: 0 <= i < n ==> cs[i] in {"", ".", ".."}
    ensures n < |cs| ==> cs[n] !in {"", ".", ".."}
  {
    if cs != [] && cs[0] in {"", ".", ".."} then 1 + LeadRun(cs[1..]) else 0
  }

  // What is left of the text at j is what is left of the components after n, if anything is.
  ghost predicate LeftAt(p: string, j: nat, cs: seq<string>, n: nat)
    requires j <= |p| && n <= |cs|
  {
    if n == |cs| then j == |p|
    else j < |p| && Steps(p[j..]) == cs[n..] && EndsInSlash(p[j..]) == EndsInSlash(p)
  }

  lemma StepsSplit(c: string, s: string)
    requires '/' !in c
    ensures Steps(c + "/" + s) == [c] + Steps(s)
  {
    assert "/" + (c + "/" + s) == "/" + (c + ("/" + s));
    ComponentsCons(c, "/" + s);
  }

  lemma StepsOne(c: string)
    requires '/' !in c
    ensures Steps(c) == [c]
  {
    ComponentsCons(c, "");
    assert c + "" == c && Components("") == [];
  }

  lemma EndOfRest(p: string, i: nat)
    requires i < |p|
    ensures EndsInSlash(p[i..]) == EndsInSlash(p)
  {
  }

  // Where a name begins, the run ends.
  lemma RunEnds(p: string, i: nat)
    requires i < |p| && Plain(p) && p[i] != '/' && !DotAt(p, i) && !DotsAt(p, i)
    ensures LeadRun(Steps(p[i..])) == 0
  {
    var s := p[i..];
    var c := Head(s);
    assert s == c + Rest(s);
    ComponentsCons(c, Rest(s));
    assert forall k :: i <= k < |p| ==> p[k] != NUL;
    assert |c| < |s| ==> s[|c|] == '/';
    assert c != "" && c[0] == p[i];
    if |c| > 1 { assert c[1] == p[i + 1]; }
  }

  // What one turn of the first loop skips: a component c and the slash after it, if there is one,
  // and if c is empty one more slash.
  lemma SkippedText(p: string, i: nat) returns (c: string)
    requires Plain(p) && 0 < i < |p| && p[i - 1] == '/' && Skippable(p, i)
    ensures c in {"", ".", ".."} && i + |c| <= |p| && p[i..i + |c|] == c
    ensures i + |c| < |p| ==> p[i + |c|] == '/'
    ensures c == "" ==> p[i] == '/' && SkipStart(p, i) == SkipStart(p, if At(p, i + 1) == '/' then i + 2 else i + 1)
    ensures c != "" ==> SkipStart(p, i) == SkipStart(p, if i + |c| < |p| then i + |c| + 1 else |p|)
  {
    c := if p[i] == '/' then "" else if At(p, i + 1) == '.' then ".." else ".";
    forall k | i <= k < |p| ensures p[k] != NUL {
    }
  }

  // The first loop skips exactly the run.
  lemma {:induction false} SkipRun(p: string, i: nat)
    requires Plain(p) && 0 < i <= |p| && (p[i - 1] == '/' || i == |p|)
    ensures var cs := Steps(p[i..]); LeftAt(p, SkipStart(p, i), cs, LeadRun(cs))
    decreases |p| - i
  {
    hide Steps, LeadRun, LeftAt, SkipStart;
    if i == |p| {
      SkipAtEnd(p);
      NothingLeft(p);
    } else if Skippable(p, i) {
      var c := SkippedText(p, i);
      var j := i + |c|;
      if c == "" {
        var next := if At(p, i + 1) == '/' then i + 2 else i + 1;
        SkipRun(p, next);
        if next == i + 2 { RunOver(p, SkipStart(p, i), "", i + 1, i + 2); }
        RunOver(p, SkipStart(p, i), "", i, i + 1);
      } else if j < |p| {
        SkipRun(p, j + 1);
        RunOver(p, SkipStart(p, i), c, i, j + 1);
      } else {
        SkipAtEnd(p);
        LastLeft(p, c, i);
      }
    } else {
      RunEnds(p, i);
      StopsHere(p, i);
    }
  }

  lemma NothingLeft(p: string)
    ensures var cs := Steps(p[|p|..]); LeftAt(p, |p|, cs, LeadRun(cs))
  {
    assert p[|p|..] == "";
    StepsOne("");
  }

  lemma LastLeft(p: string, c: string, i: nat)
    requires i <= |p| && p[i..] == c && c in {"", ".", ".."}
    ensures var cs := Steps(p[i..]); LeftAt(p, |p|, cs, LeadRun(cs))
  {
    StepsOne(c);
  }

  lemma StopsHere(p: string, i: nat)
    requires i < |p| && LeadRun(Steps(p[i..])) == 0 && !Skippable(p, i)
    ensures SkipStart(p, i) == i && LeftAt(p, i, Steps(p[i..]), 0)
  {
    EndOfRest(p, i);
    StepsSome(p[i..]);
    assert Steps(p[i..])[0..] == Steps(p[i..]);
  }

  lemma StepsSome(p: string)
    ensures Steps(p) != []
  {
  }

  lemma SkipAtEnd(p: string)
    ensures SkipStart(p, |p|) == |p|
  {
  }

  // One more component in front of the run.
  lemma RunOn(p: string, j: nat, c: string, cs: seq<string>)
    requires j <= |p| && LeftAt(p, j, cs, LeadRun(cs)) && c in {"", ".", ".."}
    ensures LeftAt(p, j, [c] + cs, LeadRun([c] + cs))
  {
    hide Steps;
    var ds := [c] + cs;
    assert ds[1..] == cs;
    assert LeadRun(ds) == 1 + LeadRun(cs);
    assert ds[1 + LeadRun(cs)..] == cs[LeadRun(cs)..];
  }

  // The same in the text: c and a slash stand from i to j.
  lemma RunOver(p: string, end: nat, c: string, i: nat, j: nat)
    requires i + |c| + 1 == j <= |p| && p[i..j] == c + "/" && c in {"", ".", ".."}
    requires end <= |p| && LeftAt(p, end, Steps(p[j..]), LeadRun(Steps(p[j..])))
    ensures LeftAt(p, end, Steps(p[i..]), LeadRun(Steps(p[i..])))
  {
    hide Steps;
    assert p[i..] == p[i..j] + p[j..];
    StepsSplit(c, p[j..]);
    RunOn(p, end, c, Steps(p[j..]));
  }

  // What the first loop skips of a path without a prefix: nothing, unless it begins with ".".
  function Skipped(cs: seq<string>): (n: nat)
    ensures n <= |cs|
  {
    if cs != [] && cs[0] == "." then LeadRun(cs) else 0
  }

  lemma SkipRelative(p: string)
    requires p != "" && !Absolute(p) && Plain(p)
    ensures var cs := Steps(p); LeftAt(p, SkipStart(p, 0), cs, Skipped(cs))
    ensures var cs := Steps(p); Skipped(cs) < |cs| ==> cs[Skipped(cs)] != "" && cs[Skipped(cs)] != "."
  {
    hide Steps, Components;
    var cs := Steps(p);
    assert p[0..] == p;
    assert |p| > 1 ==> p[1] != NUL;
    if DotAt(p, 0) {
      if |p| == 1 {
        assert p == ".";
        StepsOne(".");
        SkipAtEnd(p);
      } else {
        assert p == "." + "/" + p[2..];
        StepsSplit(".", p[2..]);
        SkipRun(p, 2);
        RunOn(p, SkipStart(p, 2), ".", Steps(p[2..]));
      }
    } else {
      FirstStep(p);
    }
  }

  lemma FirstStep(p: string)
    requires p != "" && p[0] != '/' && Plain(p) && !DotAt(p, 0)
    ensures var cs := Steps(p); cs != [] && cs[0] == Head(p) && cs[0] != "" && cs[0] != "."
  {
    var c := Head(p);
    assert p == c + Rest(p);
    ComponentsCons(c, Rest(p));
    assert c[0] == p[0];
    assert |c| < |p| ==> p[|c|] == '/';
  }

  // ---------------------------------------------------------------- where a path leads

  // How much longer a directory's path gets.
  function Gain(cs: seq<string>): int {
    if cs == [] then 0
    else (if cs[0] == "" || cs[0] == "." then 0 else if cs[0] == ".." then -1 else 1) + Gain(cs[1..])
  }

  lemma {:induction false} ArriveLength(dir: seq<string>, cs: seq<string>)
    requires |dir| >= |cs|
    ensures |Arrive(dir, cs)| == |dir| + Gain(cs) >= |dir| - |cs|
    decreases |cs|
  {
    if cs != [] { ArriveLength(Visit(dir, cs[0]), cs[1..]); }
  }

  lemma {:induction false} ArriveJoin(dir: seq<string>, a: seq<string>, b: seq<string>)
    ensures Arrive(dir, a + b) == Arrive(Arrive(dir, a), b)
    decreases |a|
  {
    if a == [] {
      assert a + b == b;
    } else {
      assert (a + b)[0] == a[0] && (a + b)[1..] == a[1..] + b;
      ArriveJoin(Visit(dir, a[0]), a[1..], b);
    }
  }

  lemma {:induction false} RunArrives(dir: seq<string>, run: seq<string>)
    requires forall i :: 0 <= i < |run| ==> run[i] in {"", ".", ".."}
    ensures ".." !in run ==> Arrive(dir, run) == dir
    ensures ".." in run ==> Gain(run) < 0
    ensures Gain(run) <= 0
    decreases |run|
  {
    if run != [] { RunArrives(Visit(dir, run[0]), run[1..]); }
  }

  function Deep(n: nat): (dir: seq<string>)
    ensures |dir| == n
  {
    seq(n, i => "d")
  }

  // Skipping a run changes where the rest leads, from some directory, exactly if it has "..".
  lemma SkippingMatters(run: seq<string>, cs: seq<string>)
    requires forall i :: 0 <= i < |run| ==> run[i] in {"", ".", ".."}
    ensures (forall dir :: Arrive(dir, run + cs) == Arrive(dir, cs)) <==> ".." !in run
  {
    forall dir ensures Arrive(dir, run + cs) == Arrive(Arrive(dir, run), cs) {
      ArriveJoin(dir, run, cs);
    }
    if ".." in run {
      var dir := Deep(|run| + |cs|);
      RunArrives(dir, run);
      ArriveLength(dir, run);
      ArriveLength(Arrive(dir, run), cs);
      ArriveLength(dir, cs);
      assert Arrive(dir, run + cs) != Arrive(dir, cs);
    } else {
      forall dir ensures Arrive(dir, run + cs) == Arrive(dir, cs) {
        RunArrives(dir, run);
      }
    }
  }

  // ---------------------------------------------------------------- the result

  lemma {:induction false} LastComponent(s: string)
    requires s != "" && s[0] == '/'
    ensures var cs := Components(s); cs != [] && (cs[|cs| - 1] == "" <==> EndsInSlash(s))
    decreases |s|
  {
    var c, s' := Head(s[1..]), Rest(s[1..]);
    assert s == "/" + c + s';
    if s' == "" {
      assert Components(s) == [c] + Components("") == [c];
    } else {
      LastComponent(s');
    }
  }

  lemma TextBegins(stack: seq<string>, led: bool)
    requires stack != [] && Name(stack[0])
    ensures var r := Text(stack, led); r != "" && r[0] == if led then '/' else stack[0][0]
  {
    if !led { FirstChar(stack); }
  }

  // A text that no slash leads reads back as its stack.
  lemma TextReadsBack(stack: seq<string>, t: string)
    requires Kept(false, stack) && (t == "" || (t == "/" && stack != []))
    ensures Follow(false, [], Steps(Text(stack, false) + t)) == stack
  {
    hide Slashed, Components;
    if stack == [] {
      EmptyText(false);
      StepsOne("");
      OneEmptyStep([], false);
    } else {
      assert Name(stack[0]);
      BelowRoot(stack);
      assert "/" + (Text(stack, false) + t) == Slashed(stack) + t;
      ReadsBack(false, stack, t);
    }
  }

  lemma NothingKept(p: string)
    requires p != "" && !Absolute(p) && Plain(p) && Skipped(Steps(p)) == |Steps(p)|
    ensures Optimized(p, 0) == ""
  {
    SkipRelative(p);
    assert p[|p|..] == "" && p[..0] == "";
    WalkEmpty("");
  }

  // The first name of what is left, and what follows it.
  lemma FirstLeft(p: string) returns (c: string, s: string)
    requires p != "" && !Absolute(p) && Plain(p) && Skipped(Steps(p)) < |Steps(p)|
    ensures p[SkipStart(p, 0)..] == c + s && Boundary(s) && Plain(s) && Name(c)
    ensures Steps(p)[Skipped(Steps(p))..] == [c] + Components(s)
    ensures EndsInSlash(s) == EndsInSlash(p)
  {
    hide Slashless, Head;
    SkipRelative(p);
    var r := p[SkipStart(p, 0)..];
    c, s := Head(r), Rest(r);
    assert r == c + s;
    ComponentsCons(c, s);
    if s == "" {
      assert r == c && c[|c| - 1] in c;
    } else {
      assert EndsInSlash(s) == EndsInSlash(r);
    }
  }

  /** What Optimize writes: the stack of the components that are not skipped, led by a slash as
      Led says, and the final slash. */
  lemma SomethingKept(p: string)
    requires p != "" && !Absolute(p) && Plain(p) && Skipped(Steps(p)) < |Steps(p)|
    ensures var rest := Steps(p)[Skipped(Steps(p))..];
      && Name(rest[0]) && Kept(false, [rest[0]])
      && Optimized(p, 0) == Text(Follow(false, [rest[0]], rest[1..]), Led([rest[0]], false, rest[1..]))
                            + (if EndsInSlash(p) then "/" else "")
  {
    hide Led, Follow, Text, Skipped, Steps, Components, Walk, SkipStart;
    var c, s := FirstLeft(p);
    var rest := Steps(p)[Skipped(Steps(p))..];
    assert rest[0] == c && rest[1..] == Components(s);
    assert p[..0] == "";
    assert Optimized(p, 0) == Walk("", "", c + s);
    WalkName("", "", c, s);
    OneName(c);
    WalkSteps([c], false, s);
  }

  lemma OneName(c: string)
    ensures "" + c == c && Text([c], false) == c
  {
    assert Slashed([c]) == "/" + c + "";
  }

  // ---------------------------------------------------------------- exactly when it is right

  /** The result has no prefix either, and leads where the path leads, from every directory. */
  ghost predicate LeadsThere(p: string) {
    !Absolute(Optimized(p, 0)) && forall dir :: Arrive(dir, Steps(Optimized(p, 0))) == Arrive(dir, Steps(p))
  }

  // After some of the components nothing is left of them.
  ghost predicate Returns(cs: seq<string>) {
    exists k :: 0 < k <= |cs| && Follow(false, [], cs[..k]) == []
  }

  /** What can be seen of a path beforehand: no ".." is skipped after a leading "."; and either
      nothing is left of the other components and no slash follows them, or what is left begins
      with "..", or with the first of them, which never was gone and does not bring a tilde to
      the front. */
  ghost predicate Safe(p: string) {
    var cs := Steps(p);
    var n := Skipped(cs);
    var rest := cs[n..];
    var end := Follow(false, [], rest);
    && ".." !in cs[..n]
    && (if end == [] then |rest| <= 1 || rest[|rest| - 1] != ""
        else end[0] == ".." || (!Returns(rest) && At(end[0], 0) != '~'))
  }

  lemma ReturnsFromFirst(rest: seq<string>)
    requires rest != [] && Name(rest[0])
    ensures Returns(rest) <==> ComesBack([rest[0]], rest[1..])
  {
    assert Enter(false, [], rest[0]) == [rest[0]];
    if Returns(rest) {
      var k :| 0 < k <= |rest| && Follow(false, [], rest[..k]) == [];
      assert rest[..k][0] == rest[0] && rest[..k][1..] == rest[1..][..k - 1];
    }
    if ComesBack([rest[0]], rest[1..]) {
      var k: nat :| k <= |rest[1..]| && Follow(false, [rest[0]], rest[1..][..k]) == [];
      assert rest[..k + 1][0] == rest[0] && rest[..k + 1][1..] == rest[1..][..k];
    }
  }

  // When the result has no prefix.
  lemma StaysRelativeIff(end: seq<string>, led: bool, slash: bool)
    requires Kept(false, end)
    ensures !Absolute(Text(end, led) + (if slash then "/" else "")) <==>
      (if end == [] then !slash else !led && At(end[0], 0) != '~')
  {
    hide Text;
    var t := if slash then "/" else "";
    if end == [] {
      EmptyText(led);
      assert "" + t == t;
    } else {
      assert Name(end[0]);
      assert end[0][0] in end[0];
      TextBegins(end, led);
      assert (Text(end, led) + t)[0] == Text(end, led)[0];
    }
  }

  // Given that it has none, where it leads is settled by what was skipped.
  lemma LeadsThereIff(p: string, end: seq<string>, t: string)
    requires var cs := Steps(p); var n := Skipped(cs);
      && (forall i :: 0 <= i < n ==> cs[i] in {"", ".", ".."})
      && Follow(false, [], cs[n..]) == end && Kept(false, end)
    requires Optimized(p, 0) == Text(end, false) + t && (t == "" || (t == "/" && end != []))
    requires !Absolute(Optimized(p, 0))
    ensures LeadsThere(p) <==> ".." !in Steps(p)[..Skipped(Steps(p))]
  {
    hide Text, Skipped;
    var cs := Steps(p);
    var n := Skipped(cs);
    var r := Optimized(p, 0);
    TextReadsBack(end, t);
    ComponentsAreSlashless("/" + p);
    ComponentsAreSlashless("/" + r);
    assert cs == cs[..n] + cs[n..];
    assert Slashless(cs[n..]);
    forall dir ensures Arrive(dir, Steps(r)) == Arrive(dir, cs[n..]) {
      FollowArrives(false, dir, [], Steps(r));
      FollowArrives(false, dir, [], cs[n..]);
    }
    SkippingMatters(cs[..n], cs[n..]);
    if ".." !in cs[..n] {
      assert forall dir :: Arrive(dir, Steps(r)) == Arrive(dir, Steps(p));
    } else {
      var dir :| Arrive(dir, cs[..n] + cs[n..]) != Arrive(dir, cs[n..]);
      assert Arrive(dir, Steps(r)) != Arrive(dir, Steps(p));
    }
  }

  lemma EmptyPath()
    ensures Steps("") == [""] && Skipped(Steps("")) == 0 && Optimized("", 0) == ""
    ensures Safe("") && LeadsThere("")
  {
    StepsOne("");
    WalkEmpty("");
    assert Steps("")[0..] == [""];
    OneEmptyStep([], false);
  }

  /** For every path with no prefix: Optimize keeps it so and keeps where it leads if and only if
      the path is safe. */
  lemma RelativeIsRightIff(p: string)
    requires !Absolute(p) && Plain(p)
    ensures LeadsThere(p) <==> Safe(p)
  {
    hide Skipped, Steps, Follow, Text, Optimized, Led;
    var cs := Steps(p);
    var n := Skipped(cs);
    var rest := cs[n..];
    if p == "" {
      EmptyPath();
    } else if n == |cs| {
      NothingIff(p);
    } else {
      SomethingIff(p);
    }
  }

  lemma SkippedAre(cs: seq<string>)
    ensures forall i :: 0 <= i < Skipped(cs) ==> cs[i] in {"", ".", ".."}
  {
  }

  lemma NothingIff(p: string)
    requires p != "" && !Absolute(p) && Plain(p) && Skipped(Steps(p)) == |Steps(p)|
    ensures LeadsThere(p) <==> Safe(p)
  {
    hide Skipped, Steps, Text, Optimized;
    var cs := Steps(p);
    NothingKept(p);
    SkippedAre(cs);
    assert cs[|cs|..] == [] && cs[..|cs|] == cs;
    EmptyText(false);
    assert Text([], false) + "" == "";
    assert Follow(false, [], cs[|cs|..]) == [];
    LeadsThereIff(p, [], "");
  }

  lemma SomethingIff(p: string)
    requires p != "" && !Absolute(p) && Plain(p) && Skipped(Steps(p)) < |Steps(p)|
    ensures LeadsThere(p) <==> Safe(p)
  {
    hide Skipped, Steps, Text, Optimized, Led, ComesBack, Returns, Arrive;
    var cs := Steps(p);
    var n := Skipped(cs);
    var rest := cs[n..];
    var c := rest[0];
    SomethingKept(p);
    SkippedAre(cs);
    assert Enter(false, [], c) == [c];
    var end, led, t := Follow(false, [c], rest[1..]), Led([c], false, rest[1..]), if EndsInSlash(p) then "/" else "";
    assert Follow(false, [], rest) == end;
    AllSlashless(p, n);
    FollowKeeps(false, [c], rest[1..]);
    StaysRelativeIff(end, led, EndsInSlash(p));
    LastStep(p, n);
    ReturnsFromFirst(rest);
    assert At("..", 0) == '.';
    if end != [] {
      LedIff([c], false, rest[1..]);
    }
    if !Absolute(Optimized(p, 0)) {
      EitherText(end, led);
      LeadsThereIff(p, end, t);
    }
  }

  // The text of nothing is the same either way.
  lemma EitherText(end: seq<string>, led: bool)
    ensures end == [] || !led ==> Text(end, led) == Text(end, false)
  {
    if end == [] {
      EmptyText(true);
      EmptyText(false);
    }
  }

  lemma AllSlashless(p: string, n: nat)
    requires n < |Steps(p)|
    ensures Slashless(Steps(p)[n..][1..])
  {
    ComponentsAreSlashless("/" + p);
  }

  lemma LastStep(p: string, n: nat)
    requires p != "" && n < |Steps(p)| && Steps(p)[n] != ""
    ensures var rest := Steps(p)[n..]; EndsInSlash(p) <==> |rest| > 1 && rest[|rest| - 1] == ""
  {
    LastComponent("/" + p);
    assert EndsInSlash("/" + p) == EndsInSlash(p);
  }

  // A path that goes wrong: a name that is gone leaves its slash, which makes the path absolute.
  lemma GoneNameLeavesItsSlash()
    ensures !Safe("a/../b") && !LeadsThere("a/../b")
  {
    hide LeadsThere;
    assert "a/../b" == "a" + "/" + (".." + "/" + "b");
    StepsOfThree("a", "..", "b");
    var cs := ["a", "..", "b"];
    assert cs[0..] == cs;
    assert cs[..2] == ["a", ".."] && ["a", ".."][1..] == [".."] && [".."][1..] == [];
    assert Follow(false, [], cs[..2]) == [];
    assert cs[1..] == ["..", "b"] && ["..", "b"][1..] == ["b"] && ["b"][1..] == [];
    assert Follow(false, [], cs) == ["b"];
    assert Returns(cs);
    RelativeIsRightIff("a/../b");
  }

  // Another: ".." is skipped after a leading ".".
  lemma DotsAfterDotAreLost()
    ensures !Safe("./../a") && !LeadsThere("./../a")
  {
    hide LeadsThere, Follow;
    assert "./../a" == "." + "/" + (".." + "/" + "a");
    StepsOfThree(".", "..", "a");
    var cs := [".", "..", "a"];
    assert cs[1..] == ["..", "a"] && ["..", "a"][1..] == ["a"];
    assert Skipped(cs) == 2 && cs[..2][1] == "..";
    RelativeIsRightIff("./../a");
  }

  // And another: a tilde that "./" kept from the front gets there, and means a home.
  lemma TildeGetsToTheFront()
    ensures !Safe("./~a") && !LeadsThere("./~a")
  {
    hide LeadsThere;
    assert "./~a" == "." + "/" + "~a";
    StepsSplit(".", "~a");
    StepsOne("~a");
    var cs := [".", "~a"];
    assert cs[1..] == ["~a"] && ["~a"][1..] == [];
    assert Skipped(cs) == 1;
    assert Follow(false, [], ["~a"]) == Follow(false, ["~a"], []) == ["~a"];
    RelativeIsRightIff("./~a");
  }

  lemma StepsOfThree(a: string, b: string, c: string)
    requires '/' !in a && '/' !in b && '/' !in c
    ensures Steps(a + "/" + (b + "/" + c)) == [a, b, c]
  {
    StepsSplit(a, b + "/" + c);
    StepsSplit(b, c);
    StepsOne(c);
  }
}

/**
 FileAccess::Path::Optimize: a path is cleaned of empty, "." and ".." components by moving two
 pointers through one buffer. The loop is proved to refine a stack of components.
 */
module PathOptimize {

  const NUL: char := '\0'

  // ---------------------------------------------------------------- components

  // The text up to the first slash, and from it on.
  function Head(s: string): (r: string)
    ensures |r| <= |s| && s[..|r|] == r && '/' !in r
    ensures |r| < |s| ==> s[|r|] == '/'
  {
    if s == "" || s[0] == '/' then "" else [s[0]] + Head(s[1..])
  }

  function Rest(s: string): (r: string)
    ensures Head(s) + r == s && (r == "" || r[0] == '/')
  {
    s[|Head(s)|..]
  }

  // At a slash or at the end, as any point between two components is.
  predicate Boundary(s: string) { s == "" || s[0] == '/' }

  function Components(s: string): seq<string>
    requires Boundary(s)
    decreases |s|
  {
    if s == "" then [] else [Head(s[1..])] + Components(Rest(s[1..]))
  }

  // One component on top of a stack of kept ones. At the root there is nothing above; above any
  // other start only the text can say what there is.
  function Enter(rooted: bool, stack: seq<string>, c: string): seq<string> {
    if c == "" || c == "." then stack
    else if c != ".." then stack + [c]
    else if stack == [] || stack[|stack| - 1] == ".." then (if rooted then stack else stack + [".."])
    else stack[..|stack| - 1]
  }

  function Follow(rooted: bool, stack: seq<string>, cs: seq<string>): seq<string>
    decreases |cs|
  {
    if cs == [] then stack else Follow(rooted, Enter(rooted, stack, cs[0]), cs[1..])
  }

  function Slashed(stack: seq<string>): (r: string)
    ensures Boundary(r) && (r == "" <==> stack == [])
  {
    if stack == [] then "" else "/" + stack[0] + Slashed(stack[1..])
  }

  // The components as they follow the prefix: one that ends in a slash already has the first.
  function Rendered(rooted: bool, stack: seq<string>): string {
    if rooted && stack != [] then Slashed(stack)[1..] else Slashed(stack)
  }

  predicate EndsInSlash(s: string) { s != "" && s[|s| - 1] == '/' }

  // ---------------------------------------------------------------- the normal form

  function At(s: string, i: nat): char { if i < |s| then s[i] else NUL }

  // From i to the next slash or to the end.
  function NameEnd(p: string, i: nat): (k: nat)
    requires i <= |p|
    ensures k == i + |Head(p[i..])| && k <= |p|
    decreases |p| - i
  {
    if At(p, i) != '/' && i < |p| then NameEnd(p, i + 1) else i
  }

  // A name that may be kept: not empty, not "." and without a slash.
  predicate Name(c: string) { c != "" && c != "." && '/' !in c }

  function PrefixLength(p: string, device: nat): (k: nat)
    requires Absolute(p) || device <= |p|
    ensures k <= |p|
  {
    if At(p, 0) == '/' && At(p, 1) == '~' && device == 1 then NameEnd(p, 2)
    else if At(p, 0) == '/' then (if At(p, 1) == '/' && At(p, 2) != '/' then 2 else 1)
    else if At(p, 0) == '~' then NameEnd(p, 1)
    else device
  }

  // What follows the prefix, seen as a sequence of components.
  function Body(prefix: string, body: string): string {
    if EndsInSlash(prefix) then "/" + body else body
  }

  predicate Absolute(p: string) { At(p, 0) == '/' || At(p, 0) == '~' }

  // After the prefix: the components left on the stack, and a final slash if the path has one.
  function Cleaned(prefix: string, body: string): string
    requires Boundary(Body(prefix, body))
  {
    var rooted := EndsInSlash(prefix);
    var stack := Follow(rooted, [], Components(Body(prefix, body)));
    Rendered(rooted, stack) + (if EndsInSlash(Body(prefix, body)) && !(rooted && stack == []) then "/" else "")
  }

  lemma PrefixSplits(p: string, device: nat)
    requires Absolute(p)
    ensures var k := PrefixLength(p, device); k > 0 && Boundary(Body(p[..k], p[k..]))
  {
    var k := PrefixLength(p, device);
    if At(p, 0) == '/' && At(p, 1) == '~' && device == 1 {
      assert p[k..] == Rest(p[2..]);
    } else if At(p, 0) == '~' {
      assert p[k..] == Rest(p[1..]);
    }
  }

  function Normal(p: string, device: nat): string
    requires Absolute(p)
  {
    PrefixSplits(p, device);
    var k := PrefixLength(p, device);
    p[..k] + Cleaned(p[..k], p[k..])
  }

  // ---------------------------------------------------------------- what the loops compute

  // A component ".." or "." at i, seen with one character of context.
  predicate DotsAt(p: string, i: nat) {
    At(p, i) == '.' && At(p, i + 1) == '.' && (At(p, i + 2) == '/' || At(p, i + 2) == NUL)
  }

  predicate DotAt(p: string, i: nat) {
    At(p, i) == '.' && (At(p, i + 1) == '/' || At(p, i + 1) == NUL)
  }

  predicate Skippable(p: string, i: nat) {
    DotAt(p, i) || (0 < i <= |p| && p[i - 1] == '/' && (At(p, i) == '/' || DotsAt(p, i)))
  }

  // The first loop: where the first component that counts begins.
  function SkipStart(p: string, i: nat): (k: nat)
    requires i <= |p|
    ensures i <= k <= |p|
    decreases |p| - i
  {
    if Skippable(p, i) then
      var j := if p[i] == '.' && At(p, i + 1) == '.' then i + 2 else i + 1;
      SkipStart(p, if At(p, j) == '/' then j + 1 else j)
    else i
  }

  predicate LastIsDoubleDot(out: string) {
    || out == ".."
    || (|out| > 2 && out[|out| - 3..] == "/..")
  }

  // Back to before the last slash.
  function Back(out: string): (r: string)
    ensures |r| <= |out| && r == out[..|r|]
  {
    if out == "" then ""
    else if out[|out| - 1] == '/' then out[..|out| - 1]
    else Back(out[..|out| - 1])
  }

  function Up(prefix: string, out: string): string {
    if LastIsDoubleDot(out) || (out == "" && !EndsInSlash(prefix)) then
      out + (if prefix + out != "" && !EndsInSlash(prefix + out) then "/" else "") + ".."
    else Back(out)
  }

  // The second loop, with `out` written after the prefix so far and `s` still to be read.
  function Walk(prefix: string, out: string, s: string): (r: string)
    decreases |s|
  {
    if s == "" then out
    else if s[0] == '/' && At(s, 1) == '/' then Walk(prefix, out, s[1..])
    else if s[0] == '/' && DotAt(s, 1) then Walk(prefix, out, s[2..])
    else if s[0] == '/' && DotsAt(s, 1) then Walk(prefix, Up(prefix, out), s[3..])
    else if s[0] == '/' && EndsInSlash(prefix + out) then Walk(prefix, out, s[1..])
    else Walk(prefix, out + [s[0]], s[1..])
  }

  // What Optimize makes of any path.
  function Optimized(p: string, device: nat): string
    requires Absolute(p) || device <= |p|
  {
    var k := PrefixLength(p, device);
    p[..k] + Walk(p[..k], "", p[SkipStart(p, k)..])
  }

  // ---------------------------------------------------------------- one component of the walk

  predicate Plain(s: string) { NUL !in s }

  // A kept stack: names only, with ".." only at the bottom and only above an unknown start.
  predicate Kept(rooted: bool, stack: seq<string>) {
    && (forall i :: 0 <= i < |stack| ==> Name(stack[i]))
    && (forall i :: 0 <= i < |stack| && stack[i] == ".." ==> !rooted && (i == 0 || stack[i - 1] == ".."))
  }

  lemma EnterKeeps(rooted: bool, stack: seq<string>, c: string)
    requires Kept(rooted, stack) && '/' !in c
    ensures Kept(rooted, Enter(rooted, stack, c))
  {
  }

  predicate Slashless(cs: seq<string>) { forall i :: 0 <= i < |cs| ==> '/' !in cs[i] }

  lemma {:induction false} ComponentsAreSlashless(s: string)
    requires Boundary(s)
    ensures Slashless(Components(s))
    decreases |s|
  {
    hide Head, Rest;
    if s != "" { ComponentsAreSlashless(Rest(s[1..])); }
  }

  /** Only a start that is not a root keeps "..", and only directly after it. */
  lemma {:induction false} FollowKeeps(rooted: bool, stack: seq<string>, cs: seq<string>)
    requires Kept(rooted, stack) && Slashless(cs)
    ensures Kept(rooted, Follow(rooted, stack, cs))
    decreases |cs|
  {
    if cs != [] {
      EnterKeeps(rooted, stack, cs[0]);
      assert '/' !in cs[0] && Slashless(cs[1..]);
      FollowKeeps(rooted, Enter(rooted, stack, cs[0]), cs[1..]);
    }
  }

  lemma {:induction false} SlashedPush(stack: seq<string>, c: string)
    ensures Slashed(stack + [c]) == Slashed(stack) + "/" + c
  {
    if stack == [] {
      assert stack + [c] == [c] && [c][1..] == [];
      assert Slashed([c]) == "/" + c + "";
    } else {
      assert (stack + [c])[1..] == stack[1..] + [c];
      SlashedPush(stack[1..], c);
    }
  }

  // A non-empty stack does not end in a slash, and its last name is what Back removes.
  lemma RenderedTop(rooted: bool, stack: seq<string>)
    requires stack != [] && Name(stack[|stack| - 1])
    ensures var r := Rendered(rooted, stack); var c := stack[|stack| - 1]; var below := stack[..|stack| - 1];
      && r != "" && r[|r| - 1] != '/'
      && r == (if rooted && below == [] then c else Rendered(rooted, below) + "/" + c)
  {
    var c := stack[|stack| - 1];
    var below := stack[..|stack| - 1];
    assert below + [c] == stack;
    SlashedPush(below, c);
    assert c[|c| - 1] in c;
  }

  lemma {:induction false} BackOverName(a: string, c: string)
    requires '/' !in c
    ensures Back(a + "/" + c) == a
    ensures Back(c) == ""
    decreases |c|
  {
    if c == "" {
      assert a + "/" + c == a + "/";
    } else {
      var d := c[..|c| - 1];
      assert c == d + [c[|c| - 1]];
      assert '/' !in d && c[|c| - 1] in c;
      assert (a + "/" + c)[..|a + "/" + c| - 1] == a + "/" + d;
      BackOverName(a, d);
    }
  }

  lemma DoubleDotAfterSlash(a: string, c: string)
    requires Name(c)
    ensures LastIsDoubleDot(a + "/" + c) <==> c == ".."
  {
    var r := a + "/" + c;
    assert c != "." && '/' !in c;
    if |c| > 2 {
      assert r[|r| - 3] == c[|c| - 3] && c[|c| - 3] in c;
    } else if |c| == 2 {
      assert r[|r| - 3..] == "/" + c && ("/" + c)[1..] == c;
    } else {
      assert r[|r| - 2] == '/' && r == a + ['/', c[0]];
      if |r| > 2 { assert r[|r| - 3..][1] == '/'; }
    }
  }

  lemma LastIsDoubleDotMeans(rooted: bool, stack: seq<string>)
    requires stack != [] && Name(stack[|stack| - 1])
    ensures LastIsDoubleDot(Rendered(rooted, stack)) <==> stack[|stack| - 1] == ".."
  {
    hide Rendered;
    var r := Rendered(rooted, stack);
    var c := stack[|stack| - 1];
    RenderedTop(rooted, stack);
    if rooted && |stack| == 1 {
      assert r == c;
      if |r| > 2 { assert r[|r| - 3..][0] == r[|r| - 3] && r[|r| - 3] in c; }
    } else {
      var a := Rendered(rooted, stack[..|stack| - 1]);
      assert r == a + "/" + c;
      DoubleDotAfterSlash(a, c);
    }
  }

  // Meeting ".." in the loop does to the text what Enter does to the stack.
  lemma UpIsEnter(prefix: string, stack: seq<string>)
    requires prefix != "" && Kept(EndsInSlash(prefix), stack)
    ensures var rooted := EndsInSlash(prefix);
      Up(prefix, Rendered(rooted, stack)) == Rendered(rooted, Enter(rooted, stack, ".."))
  {
    hide LastIsDoubleDot;
    var rooted := EndsInSlash(prefix);
    var r := Rendered(rooted, stack);
    if stack == [] {
      NoDoubleDot();
      SlashedPush([], "..");
      assert [] + [".."] == [".."];
    } else {
      var c := stack[|stack| - 1];
      var below := stack[..|stack| - 1];
      assert below + [c] == stack;
      LastIsDoubleDotMeans(rooted, stack);
      RenderedTop(rooted, stack);
      assert (prefix + r)[|prefix + r| - 1] == r[|r| - 1];
      if c == ".." {
        SlashedPush(stack, "..");
      } else {
        BackOverName(Rendered(rooted, below), c);
      }
    }
  }

  lemma NoDoubleDot()
    ensures !LastIsDoubleDot("")
  {
  }

  // The rest of a name is copied as it stands.
  lemma {:induction false} WalkName(prefix: string, out: string, c: string, s: string)
    requires '/' !in c
    ensures Walk(prefix, out, c + s) == Walk(prefix, out + c, s)
    decreases |c|
  {
    if c == "" {
      assert c + s == s && out + c == out;
    } else {
      assert (c + s)[0] == c[0] && c[0] in c && (c + s)[1..] == c[1..] + s;
      WalkName(prefix, out + [c[0]], c[1..], s);
      assert out + [c[0]] + c[1..] == out + c;
    }
  }

  lemma EndsOf(prefix: string, out: string)
    requires out != ""
    ensures EndsInSlash(prefix + out) == EndsInSlash(out)
  {
  }

  // One component further along: the loop does what Enter does.
  lemma WalkComponent(prefix: string, stack: seq<string>, c: string, s: string)
    requires prefix != "" && Kept(EndsInSlash(prefix), stack) && '/' !in c && NUL !in c && Boundary(s) && Plain(s)
    requires c != "" || s != ""
    ensures var rooted := EndsInSlash(prefix);
      Walk(prefix, Rendered(rooted, stack), "/" + c + s) == Walk(prefix, Rendered(rooted, Enter(rooted, stack, c)), s)
  {
    hide Rendered;
    var rooted := EndsInSlash(prefix);
    var out := Rendered(rooted, stack);
    var t := "/" + c + s;
    if c == "" {
      assert t[1..] == s;
    } else if c == "." {
      assert t[2..] == s && DotAt(t, 1) && At(t, 1) == '.';
    } else if c == ".." {
      assert t[3..] == s && DotsAt(t, 1) && !DotAt(t, 1) && At(t, 1) == '.';
      UpIsEnter(prefix, stack);
    } else {
      NameIsNoDots(c, s);
      assert t[1..] == c + s;
      WalkNameAfterSlash(prefix, stack, c, s);
    }
  }

  lemma NameIsNoDots(c: string, s: string)
    requires Name(c) && c != ".." && NUL !in c && Boundary(s) && Plain(s)
    ensures var t := "/" + c + s; At(t, 1) != '/' && !DotAt(t, 1) && !DotsAt(t, 1)
  {
    var t := "/" + c + s;
    assert t[1] == c[0] && c[0] in c;
    if |c| > 1 { assert t[2] == c[1] && c[1] in c; }
    if |c| > 2 { assert t[3] == c[2] && c[2] in c; }
    if |c| == 1 { assert c[0] != '.' || c == "."; }
    assert |c| == 2 ==> c == [c[0], c[1]];
  }

  // Only the prefix itself makes the text end in a slash.
  lemma RenderedEnd(prefix: string, stack: seq<string>)
    requires prefix != "" && Kept(EndsInSlash(prefix), stack)
    ensures var rooted := EndsInSlash(prefix);
      EndsInSlash(prefix + Rendered(rooted, stack)) <==> rooted && stack == []
  {
    var out := Rendered(EndsInSlash(prefix), stack);
    if stack == [] {
      assert prefix + out == prefix;
    } else {
      RenderedTop(EndsInSlash(prefix), stack);
      EndsOf(prefix, out);
    }
  }

  lemma RenderedPush(rooted: bool, stack: seq<string>, c: string)
    requires Name(c)
    ensures Rendered(rooted, stack + [c]) == if rooted && stack == [] then c else Rendered(rooted, stack) + "/" + c
  {
    hide Rendered;
    RenderedTop(rooted, stack + [c]);
    assert (stack + [c])[..|stack|] == stack;
  }

  lemma WalkNameAfterSlash(prefix: string, stack: seq<string>, c: string, s: string)
    requires prefix != "" && Kept(EndsInSlash(prefix), stack) && Name(c) && c != ".."
    requires var t := "/" + c + s; At(t, 1) != '/' && !DotAt(t, 1) && !DotsAt(t, 1)
    ensures var rooted := EndsInSlash(prefix);
      Walk(prefix, Rendered(rooted, stack), "/" + c + s) == Walk(prefix, Rendered(rooted, stack + [c]), s)
  {
    hide DotAt, DotsAt, Slashed;
    var rooted := EndsInSlash(prefix);
    var out := Rendered(rooted, stack);
    var t := "/" + c + s;
    assert t[1..] == c + s;
    RenderedEnd(prefix, stack);
    RenderedPush(rooted, stack, c);
    SlashedEmpty();
    if rooted && stack == [] {
      WalkName(prefix, out, c, s);
      assert out + c == c;
    } else {
      assert Walk(prefix, out, t) == Walk(prefix, out + "/", c + s);
      WalkName(prefix, out + "/", c, s);
    }
  }

  lemma SlashedEmpty()
    ensures Slashed([]) == ""
  {
  }

  lemma {:induction false} WalkFollows(prefix: string, stack: seq<string>, s: string)
    requires prefix != "" && Kept(EndsInSlash(prefix), stack) && Boundary(s) && Plain(s)
    ensures var rooted := EndsInSlash(prefix);
      var end := Follow(rooted, stack, Components(s));
      Walk(prefix, Rendered(rooted, stack), s) ==
        Rendered(rooted, end) + (if EndsInSlash(s) && !(rooted && end == []) then "/" else "")
    decreases |s|
  {
    hide Rendered;
    var rooted := EndsInSlash(prefix);
    var out := Rendered(rooted, stack);
    if s == "" {
      assert out + "" == out;
    } else if s == "/" {
      assert Components(s) == [""];
      assert Follow(rooted, stack, [""]) == Follow(rooted, stack, []) == stack;
      LastSlash(prefix, stack);
    } else {
      var c, s' := Head(s[1..]), Rest(s[1..]);
      assert s == "/" + c + s';
      assert NUL !in c && Plain(s');
      WalkComponent(prefix, stack, c, s');
      EnterKeeps(rooted, stack, c);
      WalkFollows(prefix, Enter(rooted, stack, c), s');
      assert EndsInSlash(s) == EndsInSlash(s');
    }
  }

  lemma LastSlash(prefix: string, stack: seq<string>)
    requires prefix != "" && Kept(EndsInSlash(prefix), stack)
    ensures var rooted := EndsInSlash(prefix); var out := Rendered(rooted, stack);
      Walk(prefix, out, "/") == if rooted && stack == [] then out else out + "/"
  {
    assert "/"[1..] == "";
    RenderedEnd(prefix, stack);
  }

  // ---------------------------------------------------------------- the whole walk

  // Skipping one leading component of no account changes nothing below a root.
  lemma SkipOne(prefix: string, c: string, s: string)
    requires EndsInSlash(prefix) && (c == "" || c == "." || c == "..")
    ensures Cleaned(prefix, c + "/" + s) == Cleaned(prefix, s)
  {
    hide Head, Rendered;
    var t := "/" + (c + "/" + s);
    assert t[1..] == c + ("/" + s);
    HeadOf(c, "/" + s);
    assert Components(t) == [c] + Components("/" + s);
    assert ([c] + Components("/" + s))[1..] == Components("/" + s);
    assert Follow(true, [], Components(t)) == Follow(true, [], Components("/" + s));
    assert EndsInSlash(t) == EndsInSlash("/" + s);
  }

  lemma SkipLast(prefix: string, c: string)
    requires EndsInSlash(prefix) && (c == "" || c == "." || c == "..")
    ensures Cleaned(prefix, c) == ""
  {
    var t := "/" + c;
    assert t[1..] == c + "";
    HeadOf(c, "");
    assert Components(t) == [c] + Components("") == [c];
    assert Follow(true, [], [c]) == Follow(true, Enter(true, [], c), []) == [];
  }

  lemma {:induction false} HeadOf(c: string, s: string)
    requires '/' !in c && Boundary(s)
    ensures Head(c + s) == c && Rest(c + s) == s
    decreases |c|
  {
    if c == "" {
      assert c + s == s;
    } else {
      assert (c + s)[0] == c[0] && c[0] in c && (c + s)[1..] == c[1..] + s;
      HeadOf(c[1..], s);
    }
  }

  /** The first loop, and then the second, below a root. */
  lemma {:induction false} WalkAfterSkip(prefix: string, p: string, i: nat)
    requires EndsInSlash(prefix) && Plain(p) && 0 < i <= |p| && (p[i - 1] == '/' || i == |p|)
    ensures Walk(prefix, "", p[SkipStart(p, i)..]) == Cleaned(prefix, p[i..])
    decreases |p| - i
  {
    hide Cleaned, Walk, EndsInSlash;
    if i == |p| {
      assert p[i..] == "" && Walk(prefix, "", "") == "" by { WalkEmpty(prefix); }
      SkipLast(prefix, "");
    } else if Skippable(p, i) {
      var c := if p[i] == '/' then "" else if At(p, i + 1) == '.' then ".." else ".";
      var j := if p[i] == '.' && At(p, i + 1) == '.' then i + 2 else i + 1;
      assert j < |p| ==> p[j] != NUL;
      assert i + 1 < |p| ==> p[i + 1] != NUL;
      if p[i] == '/' {
        assert p[i..] == "" + "/" + p[i + 1..];
        SkipOne(prefix, "", p[i + 1..]);
        if At(p, i + 1) == '/' {
          assert p[i + 1..] == "" + "/" + p[i + 2..];
          SkipOne(prefix, "", p[i + 2..]);
          WalkAfterSkip(prefix, p, i + 2);
        } else {
          WalkAfterSkip(prefix, p, i + 1);
        }
      } else if At(p, j) == '/' {
        assert p[i..] == c + "/" + p[j + 1..];
        SkipOne(prefix, c, p[j + 1..]);
        WalkAfterSkip(prefix, p, j + 1);
      } else {
        assert p[i..] == c && j == |p|;
        SkipLast(prefix, c);
        assert p[|p|..] == "";
        WalkEmpty(prefix);
      }
    } else {
      WalkFromStart(prefix, p[i..]);
    }
  }

  lemma WalkEmpty(prefix: string)
    ensures Walk(prefix, "", "") == ""
  {
  }

  lemma WalkFromStart(prefix: string, s: string)
    requires EndsInSlash(prefix) && s != "" && Plain(s) && s[0] != '/' && !DotAt(s, 0) && !DotsAt(s, 0)
    ensures Walk(prefix, "", s) == Cleaned(prefix, s)
  {
    var t := "/" + s;
    assert At(t, 1) == At(s, 0) && At(t, 2) == At(s, 1) && At(t, 3) == At(s, 2);
    assert t[1..] == s && prefix + "" == prefix;
    assert Walk(prefix, "", t) == Walk(prefix, "", s);
    WalkFollows(prefix, [], t);
  }

  // Only a root's prefix ends in a slash.
  lemma PrefixEnds(p: string, device: nat)
    requires Absolute(p) && Plain(p)
    ensures var k := PrefixLength(p, device);
      EndsInSlash(p[..k]) || (Boundary(p[k..]) && SkipStart(p, k) == k)
  {
    var k := PrefixLength(p, device);
    if At(p, 0) == '/' && At(p, 1) == '~' && device == 1 {
      NameEndAtSlash(p, 2);
    } else if At(p, 0) == '~' {
      NameEndAtSlash(p, 1);
    }
  }

  lemma NameEndAtSlash(p: string, i: nat)
    requires 0 < i <= |p| && p[i - 1] != '/' && Plain(p)
    ensures var k := NameEnd(p, i); Boundary(p[k..]) && p[k - 1] != '/' && SkipStart(p, k) == k
  {
    var k := NameEnd(p, i);
    assert p[k..] == Rest(p[i..]);
    if k > i {
      assert Head(p[i..])[|Head(p[i..])| - 1] in Head(p[i..]);
      assert p[k - 1] == p[i..][k - 1 - i];
    }
  }

  /** For every path that starts with a slash or a tilde, the two loops compute the normal form
      that the stack of components gives, final slash included. */
  lemma OptimizedIsNormal(p: string, device: nat)
    requires Absolute(p) && Plain(p)
    ensures Optimized(p, device) == Normal(p, device)
  {
    hide Cleaned, Walk;
    var k := PrefixLength(p, device);
    PrefixSplits(p, device);
    PrefixEnds(p, device);
    if EndsInSlash(p[..k]) {
      WalkAfterSkip(p[..k], p, k);
    } else {
      WalkFollows(p[..k], [], p[k..]);
      WholeWalk(p[..k], p[k..]);
    }
  }

  lemma WholeWalk(prefix: string, s: string)
    requires prefix != "" && !EndsInSlash(prefix) && Boundary(s) && Plain(s)
    ensures Walk(prefix, "", s) == Cleaned(prefix, s)
  {
    WalkFollows(prefix, [], s);
  }

  // ---------------------------------------------------------------- what the normal form is worth

  // Where following one component leads from a directory, given by its names from the root down.
  function Visit(dir: seq<string>, c: string): seq<string> {
    if c == "" || c == "." then dir
    else if c == ".." then (if dir == [] then [] else dir[..|dir| - 1])
    else dir + [c]
  }

  function Arrive(dir: seq<string>, cs: seq<string>): seq<string>
    decreases |cs|
  {
    if cs == [] then dir else Arrive(Visit(dir, cs[0]), cs[1..])
  }

  lemma {:induction false} ArriveLast(dir: seq<string>, cs: seq<string>, c: string)
    ensures Arrive(dir, cs + [c]) == Visit(Arrive(dir, cs), c)
    decreases |cs|
  {
    if cs == [] {
      assert [c][1..] == [] && [] + [c] == [c];
    } else {
      assert (cs + [c])[1..] == cs[1..] + [c];
      ArriveLast(Visit(dir, cs[0]), cs[1..], c);
    }
  }

  lemma EnterArrives(rooted: bool, dir: seq<string>, stack: seq<string>, c: string)
    requires Kept(rooted, stack) && (rooted ==> dir == []) && '/' !in c
    ensures Arrive(dir, Enter(rooted, stack, c)) == Visit(Arrive(dir, stack), c)
  {
    ArriveLast(dir, stack, c);
    if c == ".." && stack != [] && stack[|stack| - 1] != ".." {
      var below, top := stack[..|stack| - 1], stack[|stack| - 1];
      assert stack == below + [top];
      ArriveLast(dir, below, top);
    }
  }

  lemma {:induction false} FollowArrives(rooted: bool, dir: seq<string>, stack: seq<string>, cs: seq<string>)
    requires Kept(rooted, stack) && Slashless(cs) && (rooted ==> dir == [])
    ensures Arrive(dir, Follow(rooted, stack, cs)) == Arrive(Arrive(dir, stack), cs)
    decreases |cs|
  {
    if cs != [] {
      assert '/' !in cs[0] && Slashless(cs[1..]);
      EnterKeeps(rooted, stack, cs[0]);
      EnterArrives(rooted, dir, stack, cs[0]);
      FollowArrives(rooted, dir, Enter(rooted, stack, cs[0]), cs[1..]);
    }
  }

  lemma ComponentsCons(c: string, s: string)
    requires '/' !in c && Boundary(s)
    ensures Components("/" + (c + s)) == [c] + Components(s)
  {
    hide Head, Rest;
    var t := "/" + (c + s);
    assert t[1..] == c + s;
    HeadOf(c, s);
  }

  lemma {:induction false} ComponentsOfSlashed(stack: seq<string>, t: string)
    requires Slashless(stack) && (t == "" || t == "/")
    ensures Components(Slashed(stack) + t) == stack + (if t == "/" then [""] else [])
  {
    hide Components;
    if stack == [] {
      assert Slashed(stack) + t == t;
      JustSlash(t);
    } else {
      var s := Slashed(stack[1..]) + t;
      assert '/' !in stack[0] && Slashless(stack[1..]);
      Regroup("/", stack[0], Slashed(stack[1..]), t);
      ComponentsCons(stack[0], s);
      ComponentsOfSlashed(stack[1..], t);
    }
  }

  lemma Regroup(a: string, b: string, c: string, d: string)
    ensures (a + b + c) + d == a + (b + (c + d))
  {
  }

  lemma JustSlash(t: string)
    requires t == "" || t == "/"
    ensures Components(t) == if t == "/" then [""] else []
  {
    if t == "/" {
      assert t[1..] == "";
    }
  }

  lemma {:induction false} FollowKept(rooted: bool, stack: seq<string>, cs: seq<string>)
    requires Kept(rooted, stack + cs)
    ensures Follow(rooted, stack, cs) == stack + cs
    decreases |cs|
  {
    if cs == [] {
      assert stack + cs == stack;
    } else {
      var k := |stack|;
      assert (stack + cs)[k] == cs[0];
      if k > 0 { assert (stack + cs)[k - 1] == stack[k - 1]; }
      assert stack + [cs[0]] + cs[1..] == stack + cs;
      assert Enter(rooted, stack, cs[0]) == stack + [cs[0]];
      FollowKept(rooted, stack + [cs[0]], cs[1..]);
    }
  }

  lemma {:induction false} FollowTrailing(rooted: bool, stack: seq<string>, cs: seq<string>)
    ensures Follow(rooted, stack, cs + [""]) == Follow(rooted, stack, cs)
    decreases |cs|
  {
    if cs == [] {
      assert cs + [""] == [""] && [""][1..] == [];
    } else {
      assert (cs + [""])[1..] == cs[1..] + [""];
      FollowTrailing(rooted, Enter(rooted, stack, cs[0]), cs[1..]);
    }
  }

  // A kept stack, written out with or without a final slash, reads back as itself.
  lemma ReadsBack(rooted: bool, stack: seq<string>, t: string)
    requires Kept(rooted, stack) && (t == "" || t == "/")
    ensures Follow(rooted, [], Components(Slashed(stack) + t)) == stack
  {
    assert Slashless(stack) by { assert forall i :: 0 <= i < |stack| ==> Name(stack[i]); }
    ComponentsOfSlashed(stack, t);
    assert [] + stack == stack && stack + [] == stack;
    FollowKept(rooted, [], stack);
    FollowTrailing(rooted, [], stack);
  }

  lemma BelowRoot(stack: seq<string>)
    requires stack != [] && Name(stack[0])
    ensures var r := Rendered(true, stack); Slashed(stack) == "/" + r && r != "" && r[0] != '/'
  {
    assert stack[0][0] in stack[0];
    assert Slashed(stack) == "/" + (stack[0] + Slashed(stack[1..]));
  }

  // What follows the prefix of a cleaned path, seen as components again.
  lemma CleanedBody(prefix: string, body: string)
    requires prefix != "" && Boundary(Body(prefix, body))
    ensures var rooted := EndsInSlash(prefix);
      var stack := Follow(rooted, [], Components(Body(prefix, body)));
      var c := Cleaned(prefix, body);
      var t := if EndsInSlash(Body(prefix, body)) && !(rooted && stack == []) then "/" else "";
      && Kept(rooted, stack)
      && Body(prefix, c) == (if rooted && stack == [] then "/" else Slashed(stack) + t)
      && (rooted ==> c == "" || c[0] != '/')
  {
    hide Slashed, Components, EndsInSlash;
    var rooted := EndsInSlash(prefix);
    var s := Body(prefix, body);
    ComponentsAreSlashless(s);
    FollowKeeps(rooted, [], Components(s));
    var stack := Follow(rooted, [], Components(s));
    SlashedEmpty();
    if rooted && stack != [] {
      assert Name(stack[0]);
      BelowRoot(stack);
      var t := if EndsInSlash(s) then "/" else "";
      assert "/" + (Rendered(true, stack) + t) == Slashed(stack) + t;
    }
  }

  /** Cleaning what is clean changes nothing. */
  lemma CleanedTwice(prefix: string, body: string)
    requires prefix != "" && Boundary(Body(prefix, body))
    ensures Boundary(Body(prefix, Cleaned(prefix, body)))
    ensures Cleaned(prefix, Cleaned(prefix, body)) == Cleaned(prefix, body)
  {
    var rooted := EndsInSlash(prefix);
    var stack := Follow(rooted, [], Components(Body(prefix, body)));
    var c := Cleaned(prefix, body);
    CleanedBody(prefix, body);
    var t := if EndsInSlash(Body(prefix, body)) && !(rooted && stack == []) then "/" else "";
    ReadsBack(rooted, stack, if rooted && stack == [] then "/" else t);
    SlashedEnds(stack, t);
    assert Slashed([]) + "/" == "/";
  }

  // A stack of names does not end in a slash of its own.
  lemma SlashedEnds(stack: seq<string>, t: string)
    requires (forall i :: 0 <= i < |stack| ==> Name(stack[i])) && (t == "" || t == "/")
    ensures EndsInSlash(Slashed(stack) + t) <==> t == "/"
  {
    hide Name, Slashed;
    var s := Slashed(stack);
    if t == "/" {
      assert (s + t)[|s|] == '/';
    } else {
      assert s + t == s;
      if stack != [] { RenderedTop(false, stack); }
    }
  }

  // A name after a tilde, and what follows, seen again.
  lemma NameEndAgain(p: string, i: nat, b: string)
    requires i <= |p| && Boundary(b)
    ensures var k := NameEnd(p, i); NameEnd(p[..k] + b, i) == k
  {
    var k := NameEnd(p, i);
    var c := Head(p[i..]);
    assert (p[..k] + b)[i..] == c + b;
    HeadOf(c, b);
  }

  // The prefix of a path is the prefix of any path made of it and a rest in which no slash is
  // doubled, unless a tilde has come to follow the root of a path that knows homes there.
  lemma PrefixAgain(p: string, device: nat, b: string)
    requires Absolute(p)
    requires var pre := p[..PrefixLength(p, device)];
      && Boundary(Body(pre, b)) && (EndsInSlash(pre) ==> b == "" || b[0] != '/')
      && !(pre == "/" && device == 1 && At(b, 0) == '~')
    ensures var k := PrefixLength(p, device); Absolute(p[..k] + b) && PrefixLength(p[..k] + b, device) == k
  {
    var k := PrefixLength(p, device);
    PrefixSplits(p, device);
    var q := p[..k] + b;
    assert q[0] == p[0];
    if At(p, 0) == '/' && At(p, 1) == '~' && device == 1 {
      assert q[1] == p[1];
      NameEndIsNoSlash(p, 2);
      NameEndAgain(p, 2, b);
    } else if At(p, 0) == '~' {
      NameEndIsNoSlash(p, 1);
      NameEndAgain(p, 1, b);
    } else if k == 2 {
      assert q[1] == p[1] == '/';
    }
  }

  lemma NameEndIsNoSlash(p: string, i: nat)
    requires 0 < i <= |p| && p[i - 1] != '/'
    ensures var k := NameEnd(p, i); !EndsInSlash(p[..k])
  {
    var k := NameEnd(p, i);
    if k > i {
      assert p[k - 1] == Head(p[i..])[k - 1 - i];
      assert Head(p[i..])[k - 1 - i] in Head(p[i..]);
    }
  }

  // A name after the root, seen again as part of the prefix.
  lemma TildePrefix(c: string, s: string)
    requires Name(c) && c[0] == '~' && Boundary(s)
    ensures var q := "/" + c + s; var k := PrefixLength(q, 1);
      k == 1 + |c| && q[..k] == "/" + c && q[k..] == s && !EndsInSlash("/" + c)
  {
    var q := "/" + c + s;
    var d := c[1..];
    assert '/' !in d && q[2..] == d + s;
    HeadOf(d, s);
    assert q[1] == c[0];
    assert c[|c| - 1] in c;
  }

  lemma CleanedKept(prefix: string, stack: seq<string>, t: string)
    requires prefix != "" && !EndsInSlash(prefix) && Kept(false, stack) && (t == "" || t == "/")
    ensures Cleaned(prefix, Slashed(stack) + t) == Slashed(stack) + t
  {
    hide Slashed, Components;
    var s := Slashed(stack) + t;
    SlashedEmpty();
    ReadsBack(false, stack, t);
    SlashedEnds(stack, t);
    assert Body(prefix, s) == s;
  }

  // The root is followed by a kept name with a tilde: seen again, that name is in the prefix.
  lemma TildeAfterRoot(stack: seq<string>, t: string)
    requires Kept(true, stack) && stack != [] && stack[0][0] == '~' && (t == "" || t == "/")
    ensures Normal(Slashed(stack) + t, 1) == Slashed(stack) + t
  {
    hide Cleaned, PrefixLength, EndsInSlash;
    var c, s := stack[0], Slashed(stack[1..]) + t;
    assert Name(c);
    assert Slashed(stack) + t == "/" + c + s;
    TildePrefix(c, s);
    assert Kept(false, stack[1..]);
    CleanedKept("/" + c, stack[1..], t);
  }

  /** The normal form of a normal form is itself. */
  lemma NormalTwice(p: string, device: nat)
    requires Absolute(p)
    ensures Absolute(Normal(p, device)) && Normal(Normal(p, device), device) == Normal(p, device)
  {
    hide Cleaned;
    var k := PrefixLength(p, device);
    PrefixSplits(p, device);
    var pre, body := p[..k], p[k..];
    var b := Cleaned(pre, body);
    var q := pre + b;
    CleanedBody(pre, body);
    CleanedTwice(pre, body);
    assert q[0] == p[0];
    if pre == "/" && device == 1 && At(b, 0) == '~' {
      TildeCase(body);
    } else {
      PrefixAgain(p, device, b);
      assert q[..k] == pre && q[k..] == b;
    }
  }

  lemma TildeCase(body: string)
    requires At(Cleaned("/", body), 0) == '~'
    ensures var q := "/" + Cleaned("/", body); Absolute(q) && Normal(q, 1) == q
  {
    hide Slashed;
    var stack := Follow(true, [], Components(Body("/", body)));
    var b := Cleaned("/", body);
    CleanedBody("/", body);
    var t := if EndsInSlash(Body("/", body)) then "/" else "";
    assert stack != [];
    assert Name(stack[0]);
    BelowRoot(stack);
    assert "/" + b == Slashed(stack) + t;
    FirstChar(stack);
    TildeAfterRoot(stack, t);
  }

  lemma FirstChar(stack: seq<string>)
    requires stack != [] && stack[0] != ""
    ensures Rendered(true, stack) != "" && Rendered(true, stack)[0] == stack[0][0]
  {
    assert Slashed(stack) == "/" + (stack[0] + Slashed(stack[1..]));
  }

  /** The cleaned path leads where the path led, from wherever its prefix leads: from the root,
      or from any home directory (as long as names are not links). */
  lemma CleanedLeadsThere(prefix: string, body: string, dir: seq<string>)
    requires prefix != "" && Boundary(Body(prefix, body)) && (EndsInSlash(prefix) ==> dir == [])
    ensures var c := Cleaned(prefix, body);
      && Boundary(Body(prefix, c))
      && Arrive(dir, Components(Body(prefix, c))) == Arrive(dir, Components(Body(prefix, body)))
  {
    hide Cleaned, Slashed;
    var rooted := EndsInSlash(prefix);
    var cs := Components(Body(prefix, body));
    var stack := Follow(rooted, [], cs);
    var c := Cleaned(prefix, body);
    CleanedBody(prefix, body);
    var t := if EndsInSlash(Body(prefix, body)) && !(rooted && stack == []) then "/" else "";
    var u := if rooted && stack == [] then "/" else t;
    SlashedEmpty();
    assert Slashed([]) + "/" == "/";
    assert Body(prefix, c) == Slashed(stack) + u;
    ReadsBack(rooted, stack, u);
    ComponentsAreSlashless(Body(prefix, body));
    ComponentsAreSlashless(Body(prefix, c));
    FollowArrives(rooted, dir, [], cs);
    FollowArrives(rooted, dir, [], Components(Body(prefix, c)));
    assert Arrive(dir, []) == dir;
  }

  // ---------------------------------------------------------------- once more

  lemma UpKeepsPlain(prefix: string, out: string)
    requires Plain(out)
    ensures Plain(Up(prefix, out))
  {
  }

  lemma {:induction false} WalkKeepsPlain(prefix: string, out: string, s: string)
    requires Plain(out) && Plain(s)
    ensures Plain(Walk(prefix, out, s))
    decreases |s|
  {
    hide Up, EndsInSlash;
    if s == "" {
    } else if s[0] == '/' && At(s, 1) == '/' {
      WalkKeepsPlain(prefix, out, s[1..]);
    } else if s[0] == '/' && DotAt(s, 1) {
      WalkKeepsPlain(prefix, out, s[2..]);
    } else if s[0] == '/' && DotsAt(s, 1) {
      UpKeepsPlain(prefix, out);
      WalkKeepsPlain(prefix, Up(prefix, out), s[3..]);
    } else if s[0] == '/' && EndsInSlash(prefix + out) {
      WalkKeepsPlain(prefix, out, s[1..]);
    } else {
      assert s[0] in s;
      WalkKeepsPlain(prefix, out + [s[0]], s[1..]);
    }
  }

  // What Optimize writes can be read again.
  lemma OptimizedIsPlain(p: string, device: nat)
    requires Plain(p) && (Absolute(p) || device <= |p|)
    ensures Plain(Optimized(p, device))
  {
    hide Walk;
    var k := PrefixLength(p, device);
    WalkKeepsPlain(p[..k], "", p[SkipStart(p, k)..]);
  }

  /** Optimizing what was optimized changes nothing. */
  lemma OptimizedTwice(p: string, device: nat)
    requires Absolute(p) && Plain(p)
    ensures var q := Optimized(p, device); Absolute(q) && Plain(q) && Optimized(q, device) == q
  {
    hide Optimized, Normal;
    OptimizedIsNormal(p, device);
    NormalTwice(p, device);
    OptimizedIsPlain(p, device);
    OptimizedIsNormal(Normal(p, device), device);
  }

  // ---------------------------------------------------------------- in place

  // A path in its buffer: its characters, then NUL.
  predicate PathIn(s: seq<char>, n: nat) {
    n < |s| && s[n] == NUL && Plain(s[..n])
  }

  method FindNameEnd(a: array<char>, ghost n: nat, i: nat) returns (k: nat)
    requires PathIn(a[..], n) && i <= n
    ensures k == NameEnd(a[..n], i)
  {
    k := i;
    while a[k] != '/' && a[k] != NUL
      invariant i <= k <= n && NameEnd(a[..n], i) == NameEnd(a[..n], k)
      decreases n - k
    {
      k := k + 1;
    }
    assert k < n ==> a[..n][k] == a[k];
  }

  method PrefixSize(a: array<char>, ghost n: nat, device: nat) returns (k: nat)
    requires PathIn(a[..], n) && (Absolute(a[..n]) || device <= n)
    ensures k == PrefixLength(a[..n], device)
  {
    Peek(a, n, 0);
    if a[0] == '/' && a[1] == '~' && device == 1 {
      Peek(a, n, 1);
      k := FindNameEnd(a, n, 2);
    } else if a[0] == '/' {
      Peek(a, n, 1);
      k := 1;
      if a[1] == '/' {
        Peek(a, n, 2);
        if a[2] == NUL || a[2] != '/' { k := 2; }
      }
    } else if a[0] == '~' {
      k := FindNameEnd(a, n, 1);
    } else {
      k := device;
    }
  }

  // A character of the buffer is the path's, or NUL at its end.
  lemma Peek(a: array<char>, n: nat, i: nat)
    requires PathIn(a[..], n) && i <= n
    ensures a[i] == At(a[..n], i) && (a[i] == NUL <==> i == n)
  {
    if i < n { assert a[..n][i] == a[i]; assert a[i] in a[..n]; }
  }

  method SkipLeading(a: array<char>, ghost n: nat, k: nat) returns (i: nat)
    requires PathIn(a[..], n) && k <= n
    ensures i == SkipStart(a[..n], k)
  {
    hide Plain, At;
    i := k;
    Ahead(a[..], n, i);
    while (a[i] == '.' && (a[i + 1] == '/' || a[i + 1] == NUL)) ||
          (i > 0 && a[i - 1] == '/' &&
           (a[i] == '/' || (a[i] == '.' && a[i + 1] == '.' && (a[i + 2] == '/' || a[i + 2] == NUL))))
      invariant k <= i <= n && SkipStart(a[..n], k) == SkipStart(a[..n], i)
      invariant Seen(a[..], n, i)
      decreases n - i
    {
      ghost var j := if a[i] == '.' && At(a[..n], i + 1) == '.' then i + 2 else i + 1;
      if a[i] == '.' && a[i + 1] == '.' { i := i + 1; }
      i := i + 1;
      Ahead(a[..], n, i);
      if a[i] == '/' { i := i + 1; }
      Ahead(a[..], n, i);
    }
  }

  // Looking three characters ahead in the buffer, never past its NUL.
  predicate Seen(s: seq<char>, n: nat, i: nat)
    requires n < |s| && i <= n
  {
    && s[i] == At(s[..n], i) && (s[i] == NUL <==> i == n)
    && (i < n ==> s[i + 1] == At(s[..n], i + 1) && (s[i + 1] == NUL <==> i + 1 == n))
    && (i + 1 < n ==> s[i + 2] == At(s[..n], i + 2) && (s[i + 2] == NUL <==> i + 2 == n))
    && (i + 2 < n ==> s[i + 3] == At(s[..n], i + 3) && (s[i + 3] == NUL <==> i + 3 == n))
    && (0 < i ==> s[i - 1] == s[..n][i - 1])
  }

  lemma Ahead(s: seq<char>, n: nat, i: nat)
    requires PathIn(s, n) && i <= n
    ensures Seen(s, n, i)
  {
    forall j | 0 <= j < n ensures s[j] == s[..n][j] && s[j] != NUL {
      assert s[j] in s[..n];
    }
  }

  // Steps back over the last component that was written.
  method StepBack(a: array<char>, k: nat, end: nat) returns (out: nat)
    requires k <= end <= a.Length
    ensures k <= out <= end && a[k..out] == Back(a[k..end])
  {
    out := end;
    while out > k
      invariant k <= out <= end && Back(a[k..end]) == Back(a[k..out])
    {
      assert a[k..out][..out - k - 1] == a[k..out - 1];
      out := out - 1;
      if a[out] == '/' { return; }
    }
  }

  method PutChar(a: array<char>, k: nat, end: nat, c: char) returns (out: nat)
    requires k <= end < a.Length
    modifies a
    ensures out == end + 1 && a[k..out] == old(a[k..end]) + [c]
    ensures a[..k] == old(a[..k]) && a[out..] == old(a[out..])
  {
    a[end] := c;
    out := end + 1;
  }

  method GoUp(a: array<char>, k: nat, end: nat, ghost inp: nat) returns (out: nat)
    requires k <= end <= inp && inp + 3 <= a.Length
    modifies a
    ensures k <= out <= inp + 3
    ensures a[..k] == old(a[..k]) && a[inp + 3..] == old(a[inp + 3..])
    ensures a[k..out] == Up(old(a[..k]), old(a[k..end]))
  {
    hide LastIsDoubleDot, Back;
    assert a[..k] + a[k..end] == a[..end];
    var doubledot := IsDoubleDot(a, k, end);
    if doubledot || end == 0 || (end == k && a[end - 1] != '/') {
      out := AddDots(a, k, end);
      AfterThree(old(a[..]), a[..], out, inp + 3);
    } else {
      out := StepBack(a, k, end);
    }
  }

  lemma AfterThree(s: seq<char>, t: seq<char>, i: nat, j: nat)
    requires i <= j <= |s| && |t| == |s| && s[i..] == t[i..]
    ensures s[j..] == t[j..]
  {
    assert s[i..][j - i..] == s[j..] && t[i..][j - i..] == t[j..];
  }

  method AddDots(a: array<char>, k: nat, end: nat) returns (out: nat)
    requires k <= end && end + 3 <= a.Length
    modifies a
    ensures out <= end + 3 && k <= out
    ensures a[..k] == old(a[..k]) && a[out..] == old(a[out..])
    ensures var divide := old(a[..end]) != [] && !EndsInSlash(old(a[..end]));
      a[k..out] == old(a[k..end]) + (if divide then "/" else "") + ".."
  {
    ghost var was, all := a[k..end], a[..];
    var slash := end > 0 && a[end - 1] != '/';
    out := end;
    if slash {
      out := PutChar(a, k, out, '/');
      AfterThree(all, a[..], out, out + 2);
    }
    ghost var mid := a[..];
    assert a[k..out] == was + (if slash then "/" else "");
    out := PutChar(a, k, out, '.');
    AfterThree(mid, a[..], out, out + 1);
    out := PutChar(a, k, out, '.');
    assert a[k..out] == was + (if slash then "/" else "") + "..";
    AfterThree(all, mid, out - 2, out);
  }

  method IsDoubleDot(a: array<char>, k: nat, end: nat) returns (r: bool)
    requires k <= end <= a.Length
    ensures r == LastIsDoubleDot(a[k..end])
  {
    return (end == k + 2 && a[k] == '.' && a[k + 1] == '.') ||
           (end > k + 2 && a[end - 3] == '/' && a[end - 2] == '.' && a[end - 1] == '.');
  }

  // The state of the second loop.
  ghost predicate Walking(now: seq<char>, full: seq<char>, n: nat, k: nat, start: nat, inp: nat, out: nat) {
    && |now| == |full| && PathIn(full, n) && k <= out <= inp <= n && start <= n
    && now[..k] == full[..k] && now[inp..] == full[inp..]
    && Walk(full[..k], now[k..out], full[..n][inp..]) == Walk(full[..k], "", full[..n][start..])
  }

  // What lies ahead in the path, read through the buffer.
  lemma AheadNow(now: seq<char>, full: seq<char>, n: nat, k: nat, start: nat, inp: nat, out: nat)
    requires Walking(now, full, n, k, start, inp, out)
    ensures var s := full[..n][inp..];
      && inp < |now| && now[inp] == At(s, 0) && (now[inp] == NUL <==> s == "")
      && (s != "" ==> inp + 1 < |now| && now[inp + 1] == At(s, 1) && (now[inp + 1] == NUL <==> |s| == 1))
      && (|s| > 1 ==> inp + 2 < |now| && now[inp + 2] == At(s, 2) && (now[inp + 2] == NUL <==> |s| == 2))
      && (|s| > 2 ==> inp + 3 < |now| && now[inp + 3] == At(s, 3) && (now[inp + 3] == NUL <==> |s| == 3))
  {
    hide Walk;
    Ahead(full, n, inp);
    assert now[inp..][0] == full[inp..][0];
    if inp < n { assert now[inp..][1] == full[inp..][1]; }
    if inp + 1 < n { assert now[inp..][2] == full[inp..][2]; }
    if inp + 2 < n { assert now[inp..][3] == full[inp..][3]; }
  }

  // Reading on without writing.
  lemma Passed(now: seq<char>, full: seq<char>, n: nat, k: nat, start: nat, inp: nat, out: nat, d: nat)
    requires Walking(now, full, n, k, start, inp, out) && inp + d <= n
    requires Walk(full[..k], now[k..out], full[..n][inp..]) == Walk(full[..k], now[k..out], full[..n][inp..][d..])
    ensures Walking(now, full, n, k, start, inp + d, out)
  {
    hide Walk, Plain;
    assert full[..n][inp..][d..] == full[..n][inp + d..];
    assert now[inp..][d..] == now[inp + d..] && full[inp..][d..] == full[inp + d..];
  }

  // The loop's body, at a slash or elsewhere.
  method Advance(a: array<char>, ghost full: seq<char>, ghost n: nat, k: nat, ghost start: nat, inp: nat, out: nat)
  returns (inp': nat, out': nat)
    requires Walking(a[..], full, n, k, start, inp, out) && inp < n
    modifies a
    ensures Walking(a[..], full, n, k, start, inp', out') && inp < inp'
  {
    ghost var s := full[..n][inp..];
    AheadNow(a[..], full, n, k, start, inp, out);
    if a[inp] == '/' {
      if a[inp + 1] == '/' {
        Passed(a[..], full, n, k, start, inp, out, 1);
        return inp + 1, out;
      }
      if a[inp + 1] == '.' {
        if a[inp + 2] == '/' || a[inp + 2] == NUL {
          Passed(a[..], full, n, k, start, inp, out, 2);
          return inp + 2, out;
        }
        if a[inp + 2] == '.' && (a[inp + 3] == '/' || a[inp + 3] == NUL) {
          inp', out' := TakeUp(a, full, n, k, start, inp, out);
          return;
        }
      }
      if out > 0 && a[out - 1] == '/' {
        assert a[..out] == full[..k] + a[k..out];
        Passed(a[..], full, n, k, start, inp, out, 1);
        return inp + 1, out;
      }
    }
    assert a[..out] == full[..k] + a[k..out];
    inp', out' := TakeChar(a, full, n, k, start, inp, out);
  }

  method TakeUp(a: array<char>, ghost full: seq<char>, ghost n: nat, k: nat, ghost start: nat, inp: nat, out: nat)
  returns (inp': nat, out': nat)
    requires Walking(a[..], full, n, k, start, inp, out) && inp + 3 <= n
    requires var s := full[..n][inp..]; s[0] == '/' && DotsAt(s, 1)
    modifies a
    ensures Walking(a[..], full, n, k, start, inp', out') && inp' == inp + 3
  {
    ghost var s, was := full[..n][inp..], a[k..out];
    assert full[inp..][3..] == full[inp + 3..] && a[inp..][3..] == a[inp + 3..] && s[3..] == full[..n][inp + 3..];
    assert !DotAt(s, 1) && At(s, 1) == '.';
    assert Walk(full[..k], was, s) == Walk(full[..k], Up(full[..k], was), s[3..]);
    out' := GoUp(a, k, out, inp);
    inp' := inp + 3;
  }

  method TakeChar(a: array<char>, ghost full: seq<char>, ghost n: nat, k: nat, ghost start: nat, inp: nat, out: nat)
  returns (inp': nat, out': nat)
    requires Walking(a[..], full, n, k, start, inp, out) && inp < n
    requires var s := full[..n][inp..]; Walk(full[..k], a[k..out], s) == Walk(full[..k], a[k..out] + [s[0]], s[1..])
    modifies a
    ensures Walking(a[..], full, n, k, start, inp', out') && inp' == inp + 1
  {
    hide Walk;
    ghost var s, was := full[..n][inp..], a[k..out];
    assert full[inp..][1..] == full[inp + 1..] && a[inp..][1..] == a[inp + 1..] && s[1..] == full[..n][inp + 1..];
    assert a[inp] == a[inp..][0] == full[inp..][0] == s[0];
    a[out] := a[inp];
    inp', out' := inp + 1, out + 1;
    assert a[k..out'] == was + [s[0]];
  }

  method Rewrite(a: array<char>, ghost n: nat, k: nat, start: nat) returns (out: nat)
    requires PathIn(a[..], n) && k <= start <= n
    modifies a
    ensures out <= n && a[..out] == old(a[..k]) + Walk(old(a[..k]), "", old(a[..n][start..]))
  {
    ghost var full := a[..];
    var inp := start;
    out := k;
    AtStart(full, n, k, start);
    AheadNow(a[..], full, n, k, start, inp, out);
    while a[inp] != NUL
      invariant Walking(a[..], full, n, k, start, inp, out)
      invariant inp < a.Length && (a[inp] == NUL <==> inp == n)
      decreases n - inp
    {
      inp, out := Advance(a, full, n, k, start, inp, out);
      AheadNow(a[..], full, n, k, start, inp, out);
    }
    AtEnd(a[..], full, n, k, start, out);
  }

  lemma AtStart(full: seq<char>, n: nat, k: nat, start: nat)
    requires PathIn(full, n) && k <= start <= n
    ensures Walking(full, full, n, k, start, start, k)
  {
    assert full[k..k] == "";
  }

  lemma AtEnd(now: seq<char>, full: seq<char>, n: nat, k: nat, start: nat, out: nat)
    requires Walking(now, full, n, k, start, n, out)
    ensures now[..out] == full[..k] + Walk(full[..k], "", full[..n][start..])
  {
    assert full[..n][n..] == "";
    assert now[..out] == now[..k] + now[k..out];
  }

  /** Optimize, in place and up to the NUL that ends the path. */
  method Optimize(a: array<char>, ghost n: nat, device: nat) returns (m: nat)
    requires PathIn(a[..], n) && (Absolute(a[..n]) || device <= n)
    modifies a
    ensures m <= n && PathIn(a[..], m) && a[..m] == Optimized(old(a[..n]), device)
    ensures Absolute(old(a[..n])) ==> a[..m] == Normal(old(a[..n]), device)
  {
    hide Walk, Normal, PrefixLength, Plain;
    ghost var p := a[..n];
    var k := PrefixSize(a, n, device);
    var start := SkipLeading(a, n, k);
    assert a[..k] == p[..k];
    m := Rewrite(a, n, k, start);
    ghost var done := a[..m];
    a[m] := NUL;
    assert a[..m] == done == a[..][..m];
    OptimizedIsPlain(p, device);
    if Absolute(p) { OptimizedIsNormal(p, device); }
  }
}

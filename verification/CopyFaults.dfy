/**
 Where the copy engine goes wrong, and exactly when.
 */
module CopyFaults {
  import opened CopyEngine

  // ---------------------------------------------------------------- what a call puts

  // How much of the line buffer is passed on.
  function Cut(line: seq<Byte>, g: Peer): (n: nat)
    ensures n <= |line|
  {
    if g.eof || g.error then |line| else AfterLastNewline(line)
  }

  // Whether a call that copies gets to the end of the data or of the range.
  predicate Ends(s: Copy) {
    if s.get.buf == [] then s.get.eof
    else s.get.rangeLimit != FILE_END && s.get.rangeLimit <= s.get.pos + Allowed(s.get)
  }

  /** What a call that copies puts, in up to three pieces: what overflows the line buffer, or all
      of the data where there is no line buffer; the whole lines; and the rest at the end. */
  datatype Pieces = Pieces(first: seq<Byte>, second: seq<Byte>, third: seq<Byte>)

  function PiecesOf(s: Copy): Pieces {
    if s.get.buf == [] then Pieces([], [], if s.get.eof then s.line else [])
    else if !s.lineBuffered then Pieces(s.get.buf[..Allowed(s.get)], [], [])
    else
      var cut := Cut(Rest(s), s.get);
      Pieces(Overflow(s), Rest(s)[..cut], if Ends(s) then Rest(s)[cut..] else [])
  }

  function Overflow(s: Copy): seq<Byte> { if |s.line| > s.lineMax then s.line else [] }

  // The line buffer once it has been emptied, if it is too long, and the data added.
  function Rest(s: Copy): seq<Byte> {
    (if |s.line| > s.lineMax then [] else s.line) + s.get.buf[..Allowed(s.get)]
  }

  // Each piece where it goes: a direct write may move the destination before each.
  function Laid(s: Copy, inp: Inputs): map<int, Byte> {
    var k := PiecesOf(s);
    var p1 := PutBytes(s.put, k.first, inp.low1);
    var p2 := PutBytes(p1, k.second, inp.low2);
    Written(PutAt(s.put, k.first, inp.low1), k.first) + Written(PutAt(p1, k.second, inp.low2), k.second)
      + Written(PutAt(p2, k.third, inp.low3), k.third)
  }

  lemma PutNothing(p: Peer, low: LowWrite)
    ensures PutBytes(p, [], low) == p && Written(PutAt(p, [], low), []) == map[]
  {
    assert p.buf + [] == p.buf;
  }

  lemma Nothing(x: map<int, Byte>)
    ensures x + map[] == x && map[] + x == x
  {
  }

  lemma SumsAssociate(x: map<int, Byte>, y: map<int, Byte>, z: map<int, Byte>)
    ensures (x + y) + z == x + (y + z)
  {
  }

  lemma AtEofPuts(s: Copy, low: LowWrite)
    requires !s.lineBuffered ==> s.line == []
    ensures AtEof(s, low).dest == s.dest + Written(PutAt(s.put, s.line, low), s.line)
  {
    hide AfterSizeCheck, SizeOk, PreConfirm, PutBytes, PutAt, Written;
    AfterSizeCheckShape(Flushed(s, low));
    ConfirmPutsNothing(AfterSizeCheck(Flushed(s, low)));
    if s.line == [] {
      PutNothing(s.put, low);
      Nothing(s.dest);
    }
  }

  lemma AfterOverflowPuts(s: Copy, inp: Inputs)
    ensures var r := AfterOverflow(s, inp);
      && r.dest == s.dest + Written(PutAt(s.put, Overflow(s), inp.low1), Overflow(s))
      && r.put == PutBytes(s.put, Overflow(s), inp.low1)
      && r.line == (if |s.line| > s.lineMax then [] else s.line)
      && r.get == s.get && r.lineBuffered == s.lineBuffered
  {
    hide PutBytes, PutAt, Written;
    PutNothing(s.put, inp.low1);
    Nothing(s.dest);
  }

  lemma PassLinesPuts(s: Copy, inp: Inputs)
    ensures var r := PassLines(s, inp);
      var cut := Cut(s.line, s.get);
      && r.dest == s.dest + Written(PutAt(s.put, s.line[..cut], inp.low2), s.line[..cut])
      && r.put == PutBytes(s.put, s.line[..cut], inp.low2)
      && r.line == s.line[cut..] && r.get == s.get && r.lineBuffered == s.lineBuffered
  {
    hide PutBytes, PutAt, Written, AfterLastNewline;
    var cut := Cut(s.line, s.get);
    if cut > 0 || s.get.eof || s.get.error {
      PassedOn(s, s.line[..cut], inp.low2);
    } else {
      assert s.line[..cut] == [] && s.line[cut..] == s.line;
      PutNothing(s.put, inp.low2);
      Nothing(s.dest);
    }
  }

  lemma PassedOn(s: Copy, b: seq<Byte>, low: LowWrite)
    ensures var r := Put(s, b, low);
      && r.dest == s.dest + Written(PutAt(s.put, b, low), b) && r.put == PutBytes(s.put, b, low)
      && r.line == s.line && r.get == s.get && r.lineBuffered == s.lineBuffered
  {
    hide PutBytes, PutAt, Written;
  }

  // What has gone through the line buffer.
  lemma ThroughLinePuts(s: Copy, inp: Inputs)
    requires s.lineBuffered && s.get.buf != []
    ensures var r := ThroughLine(s, Allowed(s.get), inp);
      var k := PiecesOf(s);
      var p1 := PutBytes(s.put, k.first, inp.low1);
      && r.dest == s.dest + Written(PutAt(s.put, k.first, inp.low1), k.first)
                   + Written(PutAt(p1, k.second, inp.low2), k.second)
      && r.put == PutBytes(p1, k.second, inp.low2)
      && r.line == Rest(s)[Cut(Rest(s), s.get)..] && r.get == s.get.Skip(Allowed(s.get)) && r.lineBuffered
  {
    hide PutBytes, PutAt, Written, AfterLastNewline, AfterOverflow, PassLines, Allowed, Ends;
    var n := Allowed(s.get);
    AfterOverflowPuts(s, inp);
    var s1 := AfterOverflow(s, inp);
    PassLinesPuts(s1.(get := s1.get.Skip(n), line := s1.line + s.get.buf[..n], bytesCount := s1.bytesCount + n), inp);
  }

  lemma TakenGet(g: Peer, n: nat)
    requires n <= |g.buf|
    ensures g.Skip(n).rangeLimit == g.rangeLimit && g.Skip(n).pos == g.pos + n
  {
  }

  lemma StraightPuts(s: Copy, inp: Inputs)
    ensures var n := Allowed(s.get); var r := Straight(s, n, inp);
      var b := s.get.buf[..n];
      && r.dest == s.dest + Written(PutAt(s.put, b, inp.low1), b) && r.put == PutBytes(s.put, b, inp.low1)
      && r.line == s.line && r.get == s.get.Skip(n) && r.lineBuffered == s.lineBuffered
  {
    hide PutBytes, PutAt, Written, Allowed;
  }

  lemma LinedPuts(s: Copy, inp: Inputs)
    requires s.lineBuffered && s.get.buf != []
    ensures CopyData(s, inp).dest == s.dest + Laid(s, inp)
  {
    hide PutBytes, PutAt, Written, AtEof, ThroughLine, Allowed, Cut, Rest, Overflow, Peer.Skip;
    var r := ThroughLine(s, Allowed(s.get), inp);
    var k := PiecesOf(s);
    var p1 := PutBytes(s.put, k.first, inp.low1);
    var p2 := PutBytes(p1, k.second, inp.low2);
    var x, y := Written(PutAt(s.put, k.first, inp.low1), k.first), Written(PutAt(p1, k.second, inp.low2), k.second);
    var z := Written(PutAt(p2, k.third, inp.low3), k.third);
    ThroughLinePuts(s, inp);
    TakenGet(s.get, Allowed(s.get));
    SumsAssociate(s.dest, x, y);
    SumsAssociate(s.dest, x + y, z);
    if Ends(s) {
      AtEofPuts(r, inp.low3);
    } else {
      PutNothing(p2, inp.low3);
      Nothing(x + y);
    }
  }

  lemma UnlinedPuts(s: Copy, inp: Inputs)
    requires !s.lineBuffered && s.line == [] && s.get.buf != []
    ensures CopyData(s, inp).dest == s.dest + Laid(s, inp)
  {
    hide PutBytes, PutAt, Written, AtEof, Straight, Allowed, Peer.Skip;
    var b := s.get.buf[..Allowed(s.get)];
    var p1 := PutBytes(s.put, b, inp.low1);
    var x := Written(PutAt(s.put, b, inp.low1), b);
    StraightPuts(s, inp);
    TakenGet(s.get, Allowed(s.get));
    PutNothing(p1, inp.low2);
    PutNothing(p1, inp.low3);
    Nothing(x);
    Nothing(s.dest + x);
    AtEofPuts(Straight(s, Allowed(s.get), inp), inp.low3);
  }

  lemma WithoutDataPuts(s: Copy, inp: Inputs)
    requires s.get.buf == [] && (!s.lineBuffered ==> s.line == [])
    ensures CopyData(s, inp).dest == s.dest + Laid(s, inp)
  {
    hide PutBytes, PutAt, Written, AtEof;
    var k := PiecesOf(s);
    var z := Written(PutAt(s.put, k.third, inp.low3), k.third);
    PutNothing(s.put, inp.low1);
    PutNothing(s.put, inp.low2);
    PutNothing(s.put, inp.low3);
    Nothing(z);
    Nothing(map[]);
    Nothing(s.dest);
    AtEofPuts(s, inp.low3);
  }

  lemma SizedPieces(s: Copy)
    ensures var s1 := s.(get := s.get.Sized()); PiecesOf(s1) == PiecesOf(s)
  {
    hide AfterLastNewline;
  }

  /** Exactly what a call that copies puts, whatever its direct writes do. */
  lemma CallPuts(s: Copy, inp: Inputs)
    requires s.phase == DoCopy && !s.failed && s.get.rangeStart == s.put.rangeStart && Copies(s, inp)
    requires !s.lineBuffered ==> s.line == []
    ensures Do(s, inp).dest == s.dest + Laid(s, inp)
  {
    hide CopyData, Realign, PiecesOf, PutBytes, PutAt, Written;
    var s1 := s.(get := s.get.Sized());
    SizedPieces(s);
    assert Do(s, inp) == CopyData(s1, inp);
    if s1.get.buf == [] {
      WithoutDataPuts(s1, inp);
    } else if s1.lineBuffered {
      LinedPuts(s1, inp);
    } else {
      UnlinedPuts(s1, inp);
    }
  }

  // r holds nothing that s does not hold.
  ghost predicate Fewer(s: Copy, r: Copy) {
    forall p :: p in r.dest ==> p in s.dest && r.dest[p] == s.dest[p]
  }

  lemma EofPutsNothing(s: Copy, low: LowWrite)
    requires s.line == []
    ensures AtEof(s, low).dest == s.dest
  {
    hide AtEof, PutAt, Written;
    AtEofPuts(s, low);
    PutNothing(s.put, low);
  }

  lemma CatchUpPutsNothing(s: Copy)
    ensures Fewer(s, CatchUp(s))
  {
    hide Peer.Seek, Peer.Seeks, Peer.Skip, SeeksBack;
  }

  lemma RealignPutsNothing(s: Copy, inp: Inputs)
    ensures Fewer(s, Realign(s, inp))
  {
    hide AtEof, Behind, CatchUp, Peer.Sized;
    var s1 := s.(line := [], get := s.get.Sized());
    EofPutsNothing(s1, inp.low3);
    BehindShape(s.(line := []));
    CatchUpPutsNothing(s1);
  }

  lemma HinderedPutsNothing(s: Copy)
    ensures Hindered(s).dest == s.dest
  {
    hide Hindered, BrokenOff;
    HinderedShape(s);
    BrokenOffShape(s);
  }

  lemma OtherwisePutsNothing(s: Copy, inp: Inputs)
    requires s.phase == DoCopy && !s.failed && s.get.rangeStart == s.put.rangeStart && !Copies(s, inp)
    ensures Fewer(s, Do(s, inp))
  {
    hide CopyData, Realign, Hindered, Clear, Peer.Sized;
    SizedKeeps(s.get);
    RealignPutsNothing(s.(get := s.get.Sized()), inp);
    HinderedPutsNothing(s);
    assert Do(s, inp) == CopyStep(s, inp);
  }

  // ---------------------------------------------------------------- for one source

  lemma SumIsRightIff(source: seq<Byte>, dest: map<int, Byte>, m: map<int, Byte>)
    requires Correct(source, dest)
    ensures Correct(source, dest + m) <==> Correct(source, m)
  {
    if Correct(source, dest + m) {
      forall p | p in m ensures 0 <= p < |source| && m[p] == source[p] {
        assert p in dest + m && (dest + m)[p] == m[p];
      }
    }
  }

  lemma WrittenIsRightIff(source: seq<Byte>, at: int, b: seq<Byte>)
    ensures Correct(source, Written(at, b)) <==> SourceAt(source, at, b)
  {
    var d := Written(at, b);
    if Correct(source, d) && b != [] {
      forall i | 0 <= i < |b|
        ensures 0 <= at + i < |source| && b[i] == source[at + i]
      {
        assert at + i in d && d[at + i] == b[i];
      }
      assert at in d && at + |b| - 1 in d;
      assert b == source[at..at + |b|];
    }
  }

  /** A Put is right exactly when its bytes belong where the destination goes on after the direct
      attempt. */
  lemma PutIsRightIff(source: seq<Byte>, s: Copy, b: seq<Byte>, low: LowWrite)
    requires Correct(source, s.dest)
    ensures Correct(source, Put(s, b, low).dest) <==> SourceAt(source, PutAt(s.put, b, low), b)
  {
    hide Correct, SourceAt, PutBytes, PutAt, Written;
    SumIsRightIff(source, s.dest, Written(PutAt(s.put, b, low), b));
    WrittenIsRightIff(source, PutAt(s.put, b, low), b);
  }

  /** That is its place; or where the session was found; or, if the store has failed, the end of
      what the destination holds, or the start if there was no output or it cannot seek. */
  lemma PlaceOfPut(p: Peer, b: seq<Byte>, low: LowWrite)
    requires p.place >= 0 && p.seekPos >= 0 && !p.asciiStream && (p.place == 0 ==> p.seekPos == 0)
    ensures PutAt(p, b, low) ==
      if !Direct(p, b) then p.place
      else match low
        case Displaced(to) => to
        case StoreFailed(end, _) => if p.canSeek && p.seekPos > 0 then end else 0
        case _ => p.place
  {
  }

  lemma CallIsRightFor(source: seq<Byte>, s: Copy, inp: Inputs)
    requires Inv(source, s) && s.phase == DoCopy && !s.failed
    ensures Correct(source, Do(s, inp).dest) <==> !Copies(s, inp) || Correct(source, Laid(s, inp))
  {
    hide Do, SourceAt, Covered, Laid, Copies;
    if Copies(s, inp) {
      CallPuts(s, inp);
      SumIsRightIff(source, s.dest, Laid(s, inp));
    } else {
      OtherwisePutsNothing(s, inp);
    }
  }

  // ---------------------------------------------------------------- exactly, from the state alone

  /** All that a copy's state knows of its source: what the destination holds, what is held back
      and what the peers buffer. */
  ghost function Known(s: Copy): map<int, Byte> {
    s.dest + Written(s.lineAt, s.line) + Written(s.get.pos, s.get.buf) + Written(s.put.place - |s.put.buf|, s.put.buf)
  }

  ghost predicate KnownByte(s: Copy, p: int, x: Byte) { p in Known(s) && Known(s)[p] == x }

  // The bytes b are known to be the source's at an offset.
  ghost predicate KnownAt(s: Copy, at: int, b: seq<Byte>) {
    forall i :: 0 <= i < |b| ==> KnownByte(s, at + i, b[i])
  }

  ghost predicate Knows(s: Copy, m: map<int, Byte>) {
    forall p :: p in m ==> KnownByte(s, p, m[p])
  }

  lemma KnowsWritten(s: Copy, at: int, b: seq<Byte>)
    ensures Knows(s, Written(at, b)) <==> KnownAt(s, at, b)
  {
    hide Known, KnownByte;
    var m := Written(at, b);
    if Knows(s, m) {
      forall i | 0 <= i < |b| ensures KnownByte(s, at + i, b[i]) {
        assert at + i in m && m[at + i] == b[i];
      }
    }
    if KnownAt(s, at, b) {
      forall p | p in m ensures KnownByte(s, p, m[p]) {
        assert KnownByte(s, at + (p - at), b[p - at]);
      }
    }
  }

  lemma KnownIsRight(source: seq<Byte>, s: Copy)
    requires Inv(source, s)
    ensures Correct(source, Known(s))
  {
    hide Correct, Covered, SourceAt, Written;
    WrittenKeepsCorrect(source, s.dest, s.lineAt, s.line);
    var d := s.dest + Written(s.lineAt, s.line);
    WrittenKeepsCorrect(source, d, s.get.pos, s.get.buf);
    WrittenKeepsCorrect(source, d + Written(s.get.pos, s.get.buf), s.put.place - |s.put.buf|, s.put.buf);
  }

  // Two sources alike where bytes are known.
  ghost predicate Alike(source: seq<Byte>, other: seq<Byte>, known: map<int, Byte>) {
    |other| == |source| && forall p :: p in known && 0 <= p < |source| ==> other[p] == source[p]
  }

  lemma AlikeAt(source: seq<Byte>, other: seq<Byte>, known: map<int, Byte>, at: int, b: seq<Byte>)
    requires Alike(source, other, known) && SourceAt(source, at, b) && forall p :: at <= p < at + |b| ==> p in known
    ensures SourceAt(other, at, b)
  {
    if b != [] {
      forall i | 0 <= i < |b| ensures other[at + i] == b[i] {
        assert at + i in known && b[i] == source[at..at + |b|][i];
      }
      assert b == other[at..at + |b|];
    }
  }

  // What the state does not know of, it does not depend on.
  lemma InvOfAlike(source: seq<Byte>, other: seq<Byte>, s: Copy)
    requires Inv(source, s) && Alike(source, other, Known(s))
    ensures Inv(other, s)
  {
    hide SourceAt, Covered, Alike;
    var k := Known(s);
    KnownKeys(s);
    AlikeAt(source, other, k, s.lineAt, s.line);
    AlikeAt(source, other, k, s.get.pos, s.get.buf);
    AlikeAt(source, other, k, s.put.place - |s.put.buf|, s.put.buf);
    assert Correct(other, s.dest) by { AlikeCorrect(source, other, k, s.dest); }
  }

  lemma KnownKeys(s: Copy)
    ensures var k := Known(s);
      && (forall p :: p in s.dest ==> p in k)
      && (forall p :: s.lineAt <= p < s.lineAt + |s.line| ==> p in k)
      && (forall p :: s.get.pos <= p < s.get.pos + |s.get.buf| ==> p in k)
      && (forall p :: s.put.place - |s.put.buf| <= p < s.put.place ==> p in k)
  {
  }

  lemma AlikeCorrect(source: seq<Byte>, other: seq<Byte>, known: map<int, Byte>, dest: map<int, Byte>)
    requires Alike(source, other, known) && Correct(source, dest) && forall p :: p in dest ==> p in known
    ensures Correct(other, dest)
  {
  }

  /** Bytes belong where they are for every source that the state may be copying exactly if the
      state knows that they do. */
  lemma BelongIff(source: seq<Byte>, s: Copy, m: map<int, Byte>)
    requires Inv(source, s)
    ensures (forall other :: Inv(other, s) ==> Correct(other, m)) <==> Knows(s, m)
  {
    hide Inv, Known;
    KnownIsRight(source, s);
    if Knows(s, m) {
      forall other | Inv(other, s) ensures Correct(other, m) {
        KnownIsRight(other, s);
        KnownBelongs(other, s, m);
      }
    } else {
      var p :| p in m && !KnownByte(s, p, m[p]);
      if Correct(source, m) {
        assert p !in Known(s);
        var other := source[p := m[p] + 1];
        InvOfAlike(source, other, s);
        assert other[p] != m[p];
      }
    }
  }

  lemma KnownBelongs(source: seq<Byte>, s: Copy, m: map<int, Byte>)
    requires Correct(source, Known(s)) && Knows(s, m)
    ensures Correct(source, m)
  {
    hide Known;
    forall p | p in m ensures 0 <= p < |source| && m[p] == source[p] {
      assert KnownByte(s, p, m[p]);
    }
  }

  // For every source that the state may be copying, a call puts right bytes only.
  ghost predicate AlwaysRight(s: Copy, inp: Inputs) {
    forall source :: Inv(source, s) ==> Correct(source, Do(s, inp).dest)
  }

  /** Exactly when a call is right for every source that the state may be copying, with or without
      a line buffer and whatever its direct writes do: it does not copy, or the state knows that
      each piece it puts belongs where it goes. */
  lemma CallIsRightIff(source: seq<Byte>, s: Copy, inp: Inputs)
    requires Inv(source, s) && s.phase == DoCopy && !s.failed
    ensures AlwaysRight(s, inp) <==> !Copies(s, inp) || Knows(s, Laid(s, inp))
  {
    hide Inv, Do, Copies, Correct, Knows, Laid;
    BelongIff(source, s, Laid(s, inp));
    forall other | Inv(other, s)
      ensures Correct(other, Do(s, inp).dest) <==> !Copies(s, inp) || Correct(other, Laid(s, inp))
    {
      CallIsRightFor(other, s, inp);
    }
  }

  // ---------------------------------------------------------------- two cases of that

  // What a call that copies works through: the line buffer and the allowed data.
  function Stream(s: Copy): seq<Byte> {
    s.line + s.get.buf[..Allowed(s.get)]
  }

  // How much of the stream the call puts.
  function PutTotal(s: Copy): nat {
    var k := PiecesOf(s); |k.first| + |k.second| + |k.third|
  }

  // How much of the line buffer, as it was before the call, a copying call puts.
  function HeldPut(s: Copy): (n: nat)
    ensures n <= |s.line|
  {
    if PutTotal(s) < |s.line| then PutTotal(s) else |s.line|
  }

  lemma PiecesJoin(s: Copy)
    requires !s.lineBuffered ==> s.line == []
    ensures var k := PiecesOf(s);
      PutTotal(s) <= |Stream(s)| && k.first + k.second + k.third == Stream(s)[..PutTotal(s)]
  {
    hide Ends, Allowed, Cut, Rest, Overflow;
    if s.get.buf != [] && s.lineBuffered {
      OverflowAndRest(s);
      Parts(Overflow(s), Rest(s), Cut(Rest(s), s.get));
    }
  }

  lemma OverflowAndRest(s: Copy)
    ensures Overflow(s) + Rest(s) == Stream(s)
  {
    hide Allowed;
  }

  lemma Parts(a: seq<Byte>, b: seq<Byte>, n: nat)
    requires n <= |b|
    ensures a + b[..n] + [] == (a + b)[..|a| + n] && a + b[..n] + b[n..] == (a + b)[..|a| + |b|]
  {
  }

  lemma WrittenJoin(at: int, a: seq<Byte>, b: seq<Byte>)
    ensures Written(at, a) + Written(at + |a|, b) == Written(at, a + b)
  {
  }

  // As long as no direct write moves the destination, the pieces follow each other.
  lemma LaidTogether(s: Copy, inp: Inputs)
    requires AllStay(inp) && (!s.lineBuffered ==> s.line == [])
    ensures PutTotal(s) <= |Stream(s)| && Laid(s, inp) == Written(s.put.place, Stream(s)[..PutTotal(s)])
  {
    hide PiecesOf, Laid, Written, Stream, PutTotal, AllStay;
    var k := PiecesOf(s);
    PiecesJoin(s);
    LaidInARow(s, inp);
    Joined(s, inp, k);
  }

  lemma Joined(s: Copy, inp: Inputs, k: Pieces)
    requires Laid(s, inp) == Written(s.put.place, k.first) + Written(s.put.place + |k.first|, k.second)
                             + Written(s.put.place + |k.first| + |k.second|, k.third)
    ensures Laid(s, inp) == Written(s.put.place, k.first + k.second + k.third)
  {
    hide Laid, Written;
    ThreeJoin(s.put.place, k.first, k.second, k.third);
  }

  lemma LaidInARow(s: Copy, inp: Inputs)
    requires AllStay(inp)
    ensures var k := PiecesOf(s); var at := s.put.place;
      Laid(s, inp) == Written(at, k.first) + Written(at + |k.first|, k.second)
                      + Written(at + |k.first| + |k.second|, k.third)
  {
    hide PiecesOf, PutBytes, PutAt, Written, Stays;
    var k := PiecesOf(s);
    InARow(s.put, k.first, inp.low1);
    var p1 := PutBytes(s.put, k.first, inp.low1);
    InARow(p1, k.second, inp.low2);
    InARow(PutBytes(p1, k.second, inp.low2), k.third, inp.low3);
  }

  lemma InARow(p: Peer, b: seq<Byte>, low: LowWrite)
    requires Stays(low)
    ensures PutAt(p, b, low) == p.place && PutBytes(p, b, low).place == p.place + |b|
  {
    hide PutBytes, PutAt;
    PutBytesShape(p, b, low);
  }

  lemma ThreeJoin(at: int, a: seq<Byte>, b: seq<Byte>, c: seq<Byte>)
    ensures Written(at, a) + Written(at + |a|, b) + Written(at + |a| + |b|, c) == Written(at, a + b + c)
  {
    hide Written;
    WrittenJoin(at, a, b);
    WrittenJoin(at, a + b, c);
  }

  // The data in hand is known to belong at the source's position.
  lemma DataIsKnown(source: seq<Byte>, s: Copy, i: nat)
    requires Inv(source, s) && i < |s.get.buf|
    ensures KnownByte(s, s.get.pos + i, s.get.buf[i])
  {
    hide Known, Correct, Covered;
    KnownIsRight(source, s);
    KnownKeys(s);
    assert s.get.buf[i] == source[s.get.pos..s.get.pos + |s.get.buf|][i];
    KnownIsTheSources(source, s, s.get.pos + i);
  }

  lemma KnownIsTheSources(source: seq<Byte>, s: Copy, p: int)
    requires Correct(source, Known(s)) && p in Known(s)
    ensures 0 <= p < |source| && Known(s)[p] == source[p]
  {
    hide Known;
  }

  lemma StreamIsKnownIff(source: seq<Byte>, s: Copy)
    requires Inv(source, s) && s.get.pos - |s.line| == s.put.place && PutTotal(s) <= |Stream(s)|
    ensures KnownAt(s, s.put.place, Stream(s)[..PutTotal(s)]) <==> KnownAt(s, s.put.place, s.line[..HeldPut(s)])
  {
    hide Inv, KnownByte, PutTotal, Allowed;
    var n, at := PutTotal(s), s.put.place;
    var all, held := Stream(s)[..n], s.line[..HeldPut(s)];
    if KnownAt(s, at, held) {
      forall i | 0 <= i < |all| ensures KnownByte(s, at + i, all[i]) {
        if i < |held| {
          assert KnownByte(s, at + i, held[i]);
        } else {
          DataIsKnown(source, s, i - |s.line|);
        }
      }
    }
    if KnownAt(s, at, all) {
      forall i | 0 <= i < |held| ensures KnownByte(s, at + i, held[i]) {
        assert KnownByte(s, at + i, all[i]);
      }
    }
  }

  /** As long as the destination goes on where it says it is and no direct write moves it, a call
      is right exactly if it does not copy, or the state knows that what it passes on out of the
      line buffer belongs at the put position. */
  lemma LineCallIsRightIff(source: seq<Byte>, s: Copy, inp: Inputs)
    requires Inv(source, s) && AllStay(inp) && Settled(s) && s.phase == DoCopy && !s.failed
    ensures AlwaysRight(s, inp) <==> !Copies(s, inp) || KnownAt(s, s.put.pos, s.line[..HeldPut(s)])
  {
    hide AlwaysRight, Knows, Laid, KnownAt, HeldPut, PutTotal, Stream, Clear, SourceAt, Correct, Covered, AllStay;
    CallIsRightIff(source, s, inp);
    LaidTogether(s, inp);
    KnowsWritten(s, s.put.place, Stream(s)[..PutTotal(s)]);
    if Copies(s, inp) { StreamIsKnownIff(source, s); }
  }

  /** Without a line buffer a call is right exactly if it does not copy, or the state knows that
      the block in hand belongs where the destination goes on after the direct attempt. */
  lemma UnbufferedCallIsRightIff(source: seq<Byte>, s: Copy, inp: Inputs)
    requires Inv(source, s) && !s.lineBuffered && s.phase == DoCopy && !s.failed
    ensures var b := s.get.buf[..Allowed(s.get)];
      AlwaysRight(s, inp) <==> !Copies(s, inp) || KnownAt(s, PutAt(s.put, b, inp.low1), b)
  {
    hide AlwaysRight, Knows, KnownAt, Copies, SourceAt, Correct, Covered, PutAt, PutBytes, Written, Allowed;
    var b := s.get.buf[..Allowed(s.get)];
    var p1 := PutBytes(s.put, b, inp.low1);
    CallIsRightIff(source, s, inp);
    PutNothing(p1, inp.low2);
    PutNothing(p1, inp.low3);
    PutNothing(s.put, inp.low1);
    Nothing(Written(PutAt(s.put, b, inp.low1), b));
    Nothing(map[]);
    KnowsWritten(s, PutAt(s.put, b, inp.low1), b);
  }

  /** A failed store in particular: after some output, and if the destination can seek, the block is
      right exactly if it belongs at the end that the destination finds; otherwise, at the start. */
  lemma FailedStoreIsRightIff(source: seq<Byte>, s: Copy, inp: Inputs)
    requires Inv(source, s) && !s.lineBuffered && s.phase == DoCopy && !s.failed && Copies(s, inp)
    requires s.put.place > 0 && s.put.seekPos >= 0 && !s.put.asciiStream
    requires Direct(s.put, s.get.buf[..Allowed(s.get)]) && inp.low1.StoreFailed?
    ensures var at := if s.put.canSeek && s.put.seekPos > 0 then inp.low1.end else 0;
      AlwaysRight(s, inp) <==> KnownAt(s, at, s.get.buf[..Allowed(s.get)])
  {
    hide Inv, AlwaysRight, KnownAt, Copies, PutAt, Allowed;
    UnbufferedCallIsRightIff(source, s, inp);
    PlaceOfPut(s.put, s.get.buf[..Allowed(s.get)], inp.low1);
  }

  /** Writing out the line buffer is right for every source that the state may be copying exactly
      if the state knows it to belong where the destination goes on. */
  lemma FlushIsRightIff(source: seq<Byte>, s: Copy, low: LowWrite)
    requires Inv(source, s) && s.lineBuffered
    ensures (forall other :: Inv(other, s) ==> Correct(other, Flushed(s, low).dest)) <==>
      KnownAt(s, PutAt(s.put, s.line, low), s.line)
  {
    hide Correct, SourceAt, KnownAt, Knows, Covered, PutAt, PutBytes, Written;
    var m := Written(PutAt(s.put, s.line, low), s.line);
    BelongIff(source, s, m);
    KnowsWritten(s, PutAt(s.put, s.line, low), s.line);
    forall other | Inv(other, s)
      ensures Correct(other, Flushed(s, low).dest) <==> Correct(other, m)
    {
      SumIsRightIff(other, s.dest, m);
    }
  }

  // A line buffer in its place is known to belong there.
  lemma InPlaceIsKnown(source: seq<Byte>, s: Copy, n: nat)
    requires Inv(source, s) && s.put.place == s.lineAt && n <= |s.line|
    ensures KnownAt(s, s.put.place, s.line[..n])
  {
    hide Known, Correct, Covered;
    KnownIsRight(source, s);
    KnownKeys(s);
    var b := s.line[..n];
    forall i | 0 <= i < |b| ensures KnownByte(s, s.lineAt + i, b[i]) {
      assert s.line[i] == source[s.lineAt..s.lineAt + |s.line|][i];
      KnownIsTheSources(source, s, s.lineAt + i);
    }
  }

  // ---------------------------------------------------------------- the failures are real

  const SOME_PEER: Peer :=
    Peer(0, 0, [], 0, false, false, false, false, false, NO_SIZE, true, true, false, 0, FILE_END)
  const CALM: Inputs := Inputs(Wrote(0), Wrote(0), Wrote(0), false, true, false)

  function Zeros(n: nat): (b: seq<Byte>)
    ensures |b| == n && forall i :: 0 <= i < n ==> b[i] == 0
  {
    seq(n, i => 0)
  }

  // n bytes of this source at p are not its n bytes at q.
  lemma DisplacedSource(p: nat, q: nat, n: nat) returns (source: seq<Byte>)
    requires p != q && n > 0
    ensures |source| == p + q + n && source[p..p + n] != source[q..q + n]
  {
    var hi := if p < q then q else p;
    source := seq(p + q + n, i => if i == hi + n - 1 then 1 else 0);
    assert source[p..p + n][n - 1] != source[q..q + n][n - 1];
  }

  lemma NothingIsRight(source: seq<Byte>, at: int)
    ensures Correct(source, map[]) && Covered(map[], at, at)
  {
  }

  // What is put by a call that has all its data in the line buffer, and by one without one.
  lemma OnePiece(s: Copy, inp: Inputs)
    ensures s.get.buf == [] && s.get.eof ==> Laid(s, inp) == Written(PutAt(s.put, s.line, inp.low3), s.line)
    ensures s.get.buf != [] && !s.lineBuffered ==>
      var b := s.get.buf[..Allowed(s.get)]; Laid(s, inp) == Written(PutAt(s.put, b, inp.low1), b)
  {
    hide PutAt, PutBytes, Written, Allowed;
    PutNothing(s.put, inp.low1);
    PutNothing(s.put, inp.low2);
    var b := s.get.buf[..Allowed(s.get)];
    PutNothing(PutBytes(s.put, b, inp.low1), inp.low2);
    PutNothing(PutBytes(s.put, b, inp.low1), inp.low3);
    Nothing(map[]);
    Nothing(Written(PutAt(s.put, s.line, inp.low3), s.line));
    Nothing(Written(PutAt(s.put, b, inp.low1), b));
  }

  /** Whenever a held-back line of any length stands at any other place than its own, there is a
      source and a copy of it for which writing it out goes wrong. */
  lemma DisplacedLineGoesWrong(at: nat, putPos: nat, n: nat) returns (source: seq<Byte>, s: Copy)
    requires at != putPos && n > 0
    ensures Inv(source, s) && s.lineAt == at && s.put.pos == putPos && |s.line| == n && Settled(s) && !LineInPlace(s)
    ensures s.phase == DoCopy && !s.failed && AllStay(CALM) && !Correct(source, Do(s, CALM).dest)
  {
    hide Do, Correct, Covered, Laid, PutAt, Written;
    source := DisplacedSource(at, putPos, n);
    s := Start(SOME_PEER, SOME_PEER, false, true, n, false, true)
      .(phase := DoCopy, line := source[at..at + n], lineAt := at, low := putPos,
        get := SOME_PEER.(pos := putPos + n, eof := true), put := SOME_PEER.(pos := putPos, place := putPos));
    NothingIsRight(source, putPos);
    assert source[putPos..putPos + n] != s.line;
    CallIsRightFor(source, s, CALM);
    OnePiece(s, CALM);
    InARow(s.put, s.line, CALM.low3);
    WrittenIsRightIff(source, putPos, s.line);
  }

  // A copy without a line buffer of a block at `at`, which is to be put next.
  function BlockInHand(source: seq<Byte>, at: nat, n: nat): Copy
    requires at + n <= |source|
  {
    Start(SOME_PEER, SOME_PEER, false, false, 0, false, true)
    .(phase := DoCopy, low := at, get := SOME_PEER.(pos := at, buf := source[at..at + n]),
      put := SOME_PEER.(pos := at, place := at, seekPos := at))
  }

  lemma BlockLandsAt(source: seq<Byte>, at: nat, to: nat, n: nat, inp: Inputs)
    requires at + n <= |source| && to + n <= |source| && source[at..at + n] != source[to..to + n]
    requires !inp.timeout && n > 0 && PutAt(BlockInHand(source, at, n).put, source[at..at + n], inp.low1) == to
    ensures var s := BlockInHand(source, at, n); Inv(source, s) && !Correct(source, Do(s, inp).dest)
  {
    hide Do, Correct, Covered, Laid, PutAt, Written;
    var s := BlockInHand(source, at, n);
    NothingIsRight(source, at);
    assert s.get.buf[..Allowed(s.get)] == source[at..at + n];
    CallIsRightFor(source, s, inp);
    OnePiece(s, inp);
    WrittenIsRightIff(source, to, source[at..at + n]);
  }

  /** Whenever a direct write of a block of any length finds the session anywhere else, there is a
      source and a copy of it for which that goes wrong. */
  lemma DisplacedBlockGoesWrong(at: nat, to: nat, n: nat) returns (source: seq<Byte>, s: Copy)
    requires at != to && n >= PUT_LL_MIN
    ensures Inv(source, s) && s.put.pos == s.put.place == at && s.phase == DoCopy && !s.failed && !s.lineBuffered
    ensures !Correct(source, Do(s, CALM.(low1 := Displaced(to))).dest)
  {
    hide Do, Inv, Correct;
    source := DisplacedSource(at, to, n);
    s := BlockInHand(source, at, n);
    BlockLandsAt(source, at, to, n, CALM.(low1 := Displaced(to)));
  }

  /** Whenever the store fails after some output and the destination is found to end anywhere else,
      at once or later, there is a source and a copy of it for which that goes wrong. */
  lemma ShortEndGoesWrong(at: nat, end: nat, n: nat, known: bool) returns (source: seq<Byte>, s: Copy)
    requires at > 0 && at != end && n >= PUT_LL_MIN
    ensures Inv(source, s) && s.put.pos == s.put.place == s.put.seekPos == at && s.put.canSeek
    ensures s.phase == DoCopy && !s.failed && !s.lineBuffered
    ensures !Correct(source, Do(s, CALM.(low1 := StoreFailed(end, known))).dest)
  {
    hide Do, Inv, Correct;
    source := DisplacedSource(at, end, n);
    s := BlockInHand(source, at, n);
    BlockLandsAt(source, at, end, n, CALM.(low1 := StoreFailed(end, known)));
  }

  lemma AttemptedBuffer(p: Peer, b: seq<Byte>, low: LowWrite)
    ensures Attempted(p, b, low).buf == p.buf && (DirectCount(p, b, low) > 0 ==> p.buf == [])
  {
    hide Peer.SeekTo;
    if Direct(p, b) && low.StoreFailed? { StoreFailedBuffer(p.(pos := p.place), low.end, low.known); }
  }

  lemma StoreFailedBuffer(p: Peer, end: nat, known: bool)
    requires p.buf == []
    ensures p.StoreFailed(end, known).buf == []
  {
    hide Peer.Seek;
    var q := p.Seek(true, if p.canSeek && p.seekPos > 0 then FILE_END else 0);
    SeekShape(p, true, if p.canSeek && p.seekPos > 0 then FILE_END else 0);
    assert q.buf == [];
    GoesOn(q, if known then end else FILE_END, end);
    GoesOn(q, q.seekPos, q.seekPos);
  }

  lemma GoesOn(q: Peer, seekPos: int, place: int)
    ensures q.(seekPos := seekPos, place := place).buf == q.(place := place).buf == q.buf
  {
  }

  lemma WrittenAt(place: int, b: seq<Byte>, at: int)
    ensures at in Written(place, b) <==> place <= at < place + |b|
    ensures place <= at < place + |b| ==> Written(place, b)[at] == b[at - place]
  {
  }

  lemma WasBuffered(dest: map<int, Byte>, q: Peer, i: nat)
    requires StillBuffered(dest, q) && i < |q.buf|
    ensures BufferedAt(dest, q, i)
  {
  }

  lemma GivenIsBuffered(dest: map<int, Byte>, q: Peer, b: seq<Byte>, n: nat, r: Peer, i: nat)
    requires n <= |b| && (n > 0 ==> q.buf == []) && StillBuffered(dest, q)
    requires r.buf == q.buf + b[n..] && r.place == q.place + |b| && i < |r.buf|
    ensures BufferedAt(dest + Written(q.place, b), r, i)
  {
    hide Written, StillBuffered;
    assert |r.buf| == |q.buf| + |b| - n;
    var at := r.place - |r.buf| + i;
    WrittenAt(q.place, b, at);
    assert at == q.place + n - |q.buf| + i;
    if i < |q.buf| {
      WasBuffered(dest, q, i);
      assert r.buf[i] == q.buf[i];
      assert at !in Written(q.place, b) && at in dest && dest[at] == q.buf[i];
    } else {
      assert r.buf[i] == b[n..][i - |q.buf|] == b[at - q.place];
      assert at in Written(q.place, b) && Written(q.place, b)[at] == r.buf[i];
    }
  }

  lemma TakenIsBuffered(dest: map<int, Byte>, q: Peer, b: seq<Byte>, n: nat, r: Peer)
    requires n <= |b| && (n > 0 ==> q.buf == []) && StillBuffered(dest, q)
    requires r.buf == q.buf + b[n..] && r.place == q.place + |b|
    ensures StillBuffered(dest + Written(q.place, b), r)
  {
    hide Written, BufferedAt;
    forall i: nat | i < |r.buf| ensures BufferedAt(dest + Written(q.place, b), r, i) {
      GivenIsBuffered(dest, q, b, n, r, i);
    }
  }

  /** Whatever its direct write does, right or wrong, a destination that buffers what it was given
      does so after a Put; so it may honestly be opened where it will go on. */
  lemma PutIsStillBuffered(s: Copy, b: seq<Byte>, low: LowWrite)
    requires StillBuffered(s.dest, s.put)
    ensures var r := Put(s, b, low);
      StillBuffered(r.dest, r.put) && StillBuffered(r.dest, r.put.(pos := r.put.place))
  {
    hide Attempted, DirectCount, Written;
    AttemptedBuffer(s.put, b, low);
    AttemptedPlace(s.put, b, low);
    var n, r, q := DirectCount(s.put, b, low), Put(s, b, low), Attempted(s.put, b, low);
    assert StillBuffered(s.dest, q) by { assert q.buf != [] ==> q == s.put; }
    AllTaken(s, b, low);
    TakenIsBuffered(s.dest, q, b, n, r.put);
    TakenIsBuffered(s.dest, q, b, n, r.put.(pos := r.put.place));
  }

  lemma AllTaken(s: Copy, b: seq<Byte>, low: LowWrite)
    ensures var n, r, q := DirectCount(s.put, b, low), Put(s, b, low), Attempted(s.put, b, low);
      r.put.buf == q.buf + b[n..] && r.put.place == q.place + |b| && r.dest == s.dest + Written(q.place, b)
  {
    hide Attempted, DirectCount, Written;
  }

  // If the buffer is not empty, nothing was attempted.
  lemma AttemptedPlace(p: Peer, b: seq<Byte>, low: LowWrite)
    ensures p.buf != [] ==> Attempted(p, b, low) == p
  {
  }

  // ---------------------------------------------------------------- and runs come to them

  // A run all of whose turns are honest, whatever else they are.
  ghost predicate HonestRun(source: seq<Byte>, s: Copy, turns: seq<Turn>)
    decreases |turns|
  {
    turns == [] ||
    (PeersHonest(source, s, turns[0]) && HonestRun(source, Do(Moved(s, turns[0]), turns[0].inp), turns[1..]))
  }

  lemma HonestTwice(source: seq<Byte>, s: Copy, t: Turn, u: Turn)
    requires PeersHonest(source, s, t) && PeersHonest(source, Do(Moved(s, t), t.inp), u)
    ensures HonestRun(source, s, [t, u])
    ensures Run(s, [t, u]) == Do(Moved(Do(Moved(s, t), t.inp), u), u.inp)
  {
    hide Do, Moved, PeersHonest;
    assert [t, u][1..] == [u] && [u][1..] == [];
    var s1 := Do(Moved(s, t), t.inp);
    assert HonestRun(source, s1, [u]);
    assert Run(s1, [u]) == Run(Do(Moved(s1, u), u.inp), []);
  }

  // A fresh copy that waits for nothing copies in its first call.
  lemma FirstCall(s: Copy, inp: Inputs)
    requires s.phase == Initial && !s.failed && !s.cont && !s.put.error && !s.get.error
    requires !s.put.broken && s.put.seekPos == 0
    requires !s.failIfCannotSeek && !inp.timeout && s.get.size == NO_SIZE && s.get.rangeStart == s.put.rangeStart == 0
    requires s.get.pos == s.put.pos == s.put.place == 0 && s.line == []
    ensures Do(s, inp) == CopyData(s.(low := 0, phase := DoCopy), inp)
  {
    hide CopyData, Realign, Hindered;
    var s1 := s.(low := 0, phase := DoCopy);
    assert s1.(get := s1.get.Sized()) == s1;
    assert AtRangeStart(s.(low := s.put.place)) == s.(low := 0);
    assert Do(s, inp) == CopyStep(s1, inp);
  }

  lemma FreshIsRight(source: seq<Byte>, s: Copy)
    requires s.dest == map[] && s.get.buf == s.put.buf == s.line == []
    requires s.low == s.put.place && s.get.rangeStart == s.put.rangeStart
    ensures Inv(source, s)
  {
  }

  const TWO_LINES: seq<Byte> := [NEWLINE, 65]

  // A line-buffered copy, fresh, and two turns of it: the first line is written and the next byte
  // held back; then both peers have fallen back by one byte, and the source is at its end.
  function LineCopy(): Copy { Start(SOME_PEER, SOME_PEER, false, true, 100, false, true) }
  function FirstTurn(): Turn { Turn(SOME_PEER.(buf := TWO_LINES), SOME_PEER, [], CALM) }
  function FallenBack(): Turn { Turn(SOME_PEER.(pos := 1, buf := [65], eof := true), SOME_PEER, [], CALM) }

  // What the first turn leaves.
  lemma OneLineWritten()
    ensures PeersHonest(TWO_LINES, LineCopy(), FirstTurn())
    ensures var s := Do(Moved(LineCopy(), FirstTurn()), CALM);
      && Inv(TWO_LINES, s) && s.phase == DoCopy && !s.failed && s.lineBuffered && s.line == [65]
      && s.lineMax == 100 && s.put.place == 1 && !s.failIfCannotSeek
  {
    hide Written, AtEof, Do, Inv, PutBytes, PutAt, Below;
    var source, s0 := TWO_LINES, LineCopy();
    assert Inv(source, s0) by { FreshIsRight(source, s0); }
    assert source[0..2] == TWO_LINES;
    MovedKeepsInv(source, s0, FirstTurn());
    var m := Moved(s0, FirstTurn());
    FirstTurnIsFine(source, m, CALM);
    FirstCall(m, CALM);
    FirstLine(m.(low := 0, phase := DoCopy));
  }

  lemma TwoBytesTaken(s: Copy)
    requires s.get == SOME_PEER.(buf := TWO_LINES) && s.lineBuffered
    ensures CopyData(s, CALM) == ThroughLine(s, 2, CALM)
  {
    hide ThroughLine, AtEof, Peer.Skip;
    ThroughLineShape(s, 2, CALM);
    TakenGet(s.get, 2);
  }

  lemma FirstLine(s: Copy)
    requires s.line == [] && s.get == SOME_PEER.(buf := TWO_LINES) && s.put == SOME_PEER
    requires s.lineBuffered && s.lineMax == 100
    ensures var r := CopyData(s, CALM);
      && r.phase == s.phase && r.failed == s.failed && r.lineBuffered && r.line == [65]
      && r.lineMax == 100 && r.put.place == 1 && r.failIfCannotSeek == s.failIfCannotSeek
  {
    hide ThroughLine, PutBytes, PutAt, Written, AtEof, Peer.Skip, Ends;
    assert s.line + TWO_LINES == TWO_LINES && TWO_LINES[..2] == TWO_LINES;
    assert TWO_LINES[..1] == [NEWLINE] && TWO_LINES[1..] == [65];
    assert AfterLastNewline(TWO_LINES) == 1 by { assert TWO_LINES[..|TWO_LINES| - 1] == TWO_LINES[..1]; }
    TwoBytesTaken(s);
    ThroughLineShape(s, 2, CALM);
    ThroughLinePuts(s, CALM);
    PutNothing(s.put, CALM.low1);
    InARow(s.put, TWO_LINES[..1], CALM.low2);
  }

  /** A run from a fresh copy, with honest peers and no direct write, that puts a wrong byte: both
      peers fall back by the same distance while a byte is held back. */
  lemma StaleLineRun()
    ensures var turns := [FirstTurn(), FallenBack()];
      && HonestRun(TWO_LINES, LineCopy(), turns) && (forall i :: 0 <= i < |turns| ==> AllStay(turns[i].inp))
      && !Correct(TWO_LINES, Run(LineCopy(), turns).dest)
  {
    hide Do, Correct, Inv, Moved, Copies;
    var s1 := Do(Moved(LineCopy(), FirstTurn()), CALM);
    OneLineWritten();
    assert TWO_LINES[1..2] == [65];
    assert PeersHonest(TWO_LINES, s1, FallenBack());
    HonestTwice(TWO_LINES, LineCopy(), FirstTurn(), FallenBack());
    MovedKeepsInv(TWO_LINES, s1, FallenBack());
    MovedPeers(s1, FallenBack());
    StaleLineGoesOn(Moved(s1, FallenBack()));
  }

  lemma StaleLineGoesOn(m: Copy)
    requires Inv(TWO_LINES, m) && m.phase == DoCopy && !m.failed && m.lineBuffered && m.line == [65]
    requires m.lineMax == 100 && !m.failIfCannotSeek && m.get == FallenBack().get && m.put == SOME_PEER
    ensures !Correct(TWO_LINES, Do(m, CALM).dest)
  {
    hide Do, Correct, Inv, Laid, Written;
    LaidTogether(m, CALM);
    assert Stream(m)[..PutTotal(m)] == [65, 65];
    assert TWO_LINES[0..2][0] == NEWLINE;
    WrittenIsRightIff(TWO_LINES, 0, [65, 65]);
    CallIsRightFor(TWO_LINES, m, CALM);
  }

  lemma MovedPeers(s: Copy, t: Turn)
    ensures var m := Moved(s, t);
      && m.get == t.get && m.put == t.put
      && m.phase == s.phase && m.failed == s.failed && m.lineBuffered == s.lineBuffered && m.line == s.line
      && m.lineMax == s.lineMax && m.failIfCannotSeek == s.failIfCannotSeek
  {
    hide Below, Written;
  }

  lemma FirstTurnIsFine(source: seq<Byte>, m: Copy, inp: Inputs)
    requires Inv(source, m) && m.phase == Initial && m.line == [] && m.put.buf == [] && Settled(m) && AllStay(inp)
    ensures Inv(source, Do(m, inp))
  {
    hide Inv, Do, Loses;
    DoKeepsInvIff(source, m, inp);
  }

  // A copy without a line buffer, fresh, and its first turn, which puts `b`.
  function BlockCopy(): Copy { Start(SOME_PEER, SOME_PEER, false, false, 0, false, true) }
  function FirstBlock(b: seq<Byte>): Turn { Turn(SOME_PEER.(buf := b), SOME_PEER, [], CALM) }

  // What the first turn leaves.
  lemma OneBlockPut(source: seq<Byte>, b: seq<Byte>)
    requires b != [] && |b| <= |source| && source[..|b|] == b
    ensures PeersHonest(source, BlockCopy(), FirstBlock(b))
    ensures var s := Do(Moved(BlockCopy(), FirstBlock(b)), CALM);
      && Inv(source, s) && s.phase == DoCopy && !s.failed && !s.lineBuffered && s.line == [] && s.put.place == |b|
      && !s.failIfCannotSeek && s.low == 0 && s.dest == Written(0, b)
  {
    hide Written, AtEof, Do, Inv, PutBytes, PutAt, Below;
    var s0 := BlockCopy();
    var m := Moved(s0, FirstBlock(b));
    assert Inv(source, s0) by { FreshIsRight(source, s0); }
    assert source[0..0 + |b|] == b;
    MovedKeepsInv(source, s0, FirstBlock(b));
    FirstTurnIsFine(source, m, CALM);
    FirstCall(m, CALM);
    var s := m.(low := 0, phase := DoCopy);
    assert s.get.buf[..Allowed(s.get)] == b;
    InARow(s.put, b, CALM.low1);
    assert m.dest == map[] by { NothingBelow(0); }
    Nothing(Written(0, b));
    assert CopyData(s, CALM) == Straight(s, |b|, CALM);
  }

  lemma NothingBelow(hi: int)
    ensures Below(map[], hi) == map[]
  {
  }

  // The second turn comes after a fine first one.
  lemma SecondTurn(source: seq<Byte>, b: seq<Byte>, t: Turn)
    requires b != [] && |b| <= |source| && source[..|b|] == b
    requires PeersHonest(source, Do(Moved(BlockCopy(), FirstBlock(b)), CALM), t)
    ensures HonestRun(source, BlockCopy(), [FirstBlock(b), t])
    ensures var m := Moved(Do(Moved(BlockCopy(), FirstBlock(b)), CALM), t);
      && Run(BlockCopy(), [FirstBlock(b), t]) == Do(m, t.inp)
      && Inv(source, m) && m.phase == DoCopy && !m.failed && !m.lineBuffered && m.line == [] && !m.failIfCannotSeek
  {
    hide Do, Inv, PeersHonest, Below, Written;
    OneBlockPut(source, b);
    HonestTwice(source, BlockCopy(), FirstBlock(b), t);
    MovedKeepsInv(source, Do(Moved(BlockCopy(), FirstBlock(b)), CALM), t);
  }

  lemma OneBlockGoesTo(source: seq<Byte>, m: Copy, inp: Inputs, b: seq<Byte>, to: int)
    requires Inv(source, m) && m.phase == DoCopy && !m.failed && !m.lineBuffered && Copies(m, inp)
    requires b != [] && m.get.buf == b && m.get.rangeLimit == FILE_END && PutAt(m.put, b, inp.low1) == to
    ensures Correct(source, Do(m, inp).dest) <==> SourceAt(source, to, b)
  {
    hide Inv, Do, Correct, SourceAt, Laid, PutAt, Copies;
    assert m.get.buf[..Allowed(m.get)] == b;
    CallIsRightFor(source, m, inp);
    OnePiece(m, inp);
    WrittenIsRightIff(source, to, b);
  }

  // Then a large block is in hand, and its direct write finds that the store has failed and that
  // the destination holds nothing.
  function BlockTurn(canSeek: bool, known: bool): Turn {
    Turn(SOME_PEER.(pos := 1, buf := Zeros(PUT_LL_MIN)),
         SOME_PEER.(pos := 1, place := 1, seekPos := 1, canSeek := canSeek), [],
         CALM.(low1 := StoreFailed(0, known)))
  }

  /** A run from a fresh copy, with honest peers, that puts wrong bytes, whether the destination can
      seek and is to find its end, at once or later, or begins again: the store fails, and the block
      it was given is appended where the destination goes on. */
  lemma FailedStoreRun(canSeek: bool, known: bool)
    ensures var source := [1] + Zeros(PUT_LL_MIN); var turns := [FirstBlock([1]), BlockTurn(canSeek, known)];
      var r := Run(BlockCopy(), turns);
      HonestRun(source, BlockCopy(), turns) && !Correct(source, r.dest)
  {
    hide Do, Correct, Inv, Zeros, Moved, PutAt, Run, HonestRun, Copies;
    var b := Zeros(PUT_LL_MIN);
    var source := [1] + b;
    var t := BlockTurn(canSeek, known);
    var s1 := Do(Moved(BlockCopy(), FirstBlock([1])), CALM);
    assert source[..1] == [1] && source[1..1 + |b|] == b;
    OneBlockPut(source, [1]);
    assert PeersHonest(source, s1, t);
    SecondTurn(source, [1], t);
    MovedPeers(s1, t);
    assert source[0..|b|][0] == 1 && b[0] == 0;
    BlockGoesToStart(Moved(s1, t), t.inp, canSeek, known);
    OneBlockGoesTo(source, Moved(s1, t), t.inp, b, 0);
  }

  lemma BlockGoesToStart(m: Copy, inp: Inputs, canSeek: bool, known: bool)
    requires m.get == BlockTurn(canSeek, known).get && m.put == BlockTurn(canSeek, known).put
    requires inp == BlockTurn(canSeek, known).inp && m.line == [] && !m.failIfCannotSeek
    ensures Copies(m, inp) && PutAt(m.put, m.get.buf, inp.low1) == 0
  {
    hide Zeros;
  }

  lemma MovedLow(s: Copy, t: Turn)
    requires s.low <= 0
    ensures Moved(s, t).low <= 0
  {
    hide Below, Written;
  }

  // Or the store has failed between the calls, the destination has found that it holds nothing, but
  // has not been opened there when the next byte is in hand.
  function UnopenedTurn(): Turn {
    Turn(SOME_PEER.(pos := 1, buf := [2]), SOME_PEER.(pos := 1, place := 0), [], CALM)
  }

  /** A run from a fresh copy, with honest peers and no direct write, that puts a wrong byte: the
      destination still says that it stands where its store failed. */
  lemma UnopenedRun()
    ensures var turns := [FirstBlock([1]), UnopenedTurn()];
      && HonestRun([1, 2], BlockCopy(), turns) && (forall i :: 0 <= i < |turns| ==> AllStay(turns[i].inp))
      && !Correct([1, 2], Run(BlockCopy(), turns).dest)
  {
    hide Do, Correct, Inv, Moved;
    var source := [1, 2];
    var t := UnopenedTurn();
    var s1 := Do(Moved(BlockCopy(), FirstBlock([1])), CALM);
    assert source[..1] == [1] && source[1..2] == [2] && source[0..1] == [1];
    OneBlockPut(source, [1]);
    assert PeersHonest(source, s1, t);
    SecondTurn(source, [1], t);
    MovedPeers(s1, t);
    OneBlockGoesTo(source, Moved(s1, t), t.inp, [2], 0);
  }

  // Or the destination still buffers what it was given when the source falls back into that.
  const BUFFERED: nat := 0x1800
  const FELL_TO: nat := 0x400

  function FallsInto(): Turn {
    Turn(SOME_PEER.(pos := FELL_TO, buf := Zeros(BUFFERED - FELL_TO)),
         SOME_PEER.(pos := BUFFERED, place := BUFFERED, buf := Zeros(BUFFERED)), [], CALM)
  }

  /** A run from a fresh copy, with honest peers and no direct write, that leaves a gap: the
      destination seeks back to the source and loses what it had not written yet. */
  lemma LostBufferRun()
    ensures var turns := [FirstBlock(Zeros(BUFFERED)), FallsInto()];
      var r := Run(BlockCopy(), turns);
      && HonestRun(Zeros(BUFFERED), BlockCopy(), turns) && (forall i :: 0 <= i < |turns| ==> AllStay(turns[i].inp))
      && r.low <= 0 < r.put.place && r.put.buf == [] && 0 !in r.dest
  {
    hide Do, Correct, Inv, Zeros, Moved, SeekPut, Written;
    var source := Zeros(BUFFERED);
    var t := FallsInto();
    var s1 := Do(Moved(BlockCopy(), FirstBlock(source)), CALM);
    assert source[..BUFFERED] == source && source[FELL_TO..BUFFERED] == Zeros(BUFFERED - FELL_TO);
    OneBlockPut(source, source);
    assert PeersHonest(source, s1, t);
    SecondTurn(source, source, t);
    MovedPeers(s1, t);
    var m := Moved(s1, t);
    assert m.low <= 0 by { MovedLow(s1, t); }
    SizedKeeps(m.get);
    SeeksBackNow(m, CALM);
    AllIsLost(m.(get := m.get.Sized()));
  }

  lemma SeeksBackNow(m: Copy, inp: Inputs)
    requires CallSeeksBack(m, inp) && m.get.rangeStart == m.put.rangeStart && m.line == []
    ensures Do(m, inp) == SeekPut(m.(get := m.get.Sized()), m.get.pos)
  {
    hide CopyData, SeekPut, SkipData, AtEof, Clear, Peer.Sized, FallsBehind, Hindered, Behind;
    SizedKeeps(m.get);
    var s := m.(get := m.get.Sized());
    SizedTwice(m.get);
    LosesWithoutLine(m);
    AheadNow(s, inp);
    assert Realign(s, inp) == Ahead(s, inp) by { assert s.(line := []) == s; }
    assert Do(m, inp) == CopyStep(m, inp) == Realign(s, inp);
  }

  lemma AheadNow(s: Copy, inp: Inputs)
    requires s.get.Sized() == s.get && FallsBehind(s)
    ensures s.get.pos < s.put.pos && Ahead(s, inp) == SeekPut(s, s.get.pos)
  {
    hide SeekPut, SkipData, AtEof, Peer.Sized, SeeksBack;
  }

  lemma SizedTwice(g: Peer)
    ensures g.Sized().Sized() == g.Sized()
  {
  }

  // What a destination with nothing written yet is left with.
  lemma AllIsLost(s: Copy)
    requires s.put.Seeks(s.get.pos) && s.put.place == |s.put.buf| && s.get.pos > 0
    ensures var r := SeekPut(s, s.get.pos);
      r.low <= s.low && r.put.place == s.get.pos && r.put.buf == [] && 0 !in r.dest
  {
    hide Peer.Seek, Peer.Seeks;
    PutSeekShape(s.put, s.get.pos);
  }
}

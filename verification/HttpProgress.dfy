/**
 What a read of a body hands out once the wanted byte has arrived, and that reading comes to the
 end of a body that has arrived.
 */
module HttpProgress {
  import opened HttpBody

  // ---------------------------------------------------------------- what is in reach

  /** From byte k of a chunked body on, how many bytes of its own chunk have arrived: for a decoder
      that is `pos` bytes into a chunk of `size`, or at a chunk's head. None if byte k has not. */
  function InChunk(size: int, pos: nat, wire: seq<Byte>, k: nat): (n: nat)
    decreases |wire|, size - pos
  {
    if size < 0 then
      var n := LineEnd(wire);
      if n == |wire| || !IsHex(wire[0]) then 0 else InChunk(ScanHex(wire[..n]), 0, wire[n + 1..], k)
    else if wire == [] || size == 0 then 0
    else if pos >= size then
      if |wire| < 2 || wire[0] != CR || wire[1] != LF then 0 else InChunk(UNKNOWN, 0, wire[2..], k)
    else
      var n := if |wire| < size - pos then |wire| else size - pos;
      if k < n then n - k else InChunk(size, pos + n, wire[n..], k - n)
  }

  // What has arrived of the body.
  ghost function Arrived(s: Reader): seq<Byte>
    requires Valid(s)
  {
    Remaining(s, s.recv).body
  }

  // From byte k of what has arrived on, what can be handed out in one piece.
  function InReach(s: Reader, k: nat): nat {
    if s.chunked then
      InChunk(s.chunkSize, if s.chunkSize < 0 || s.chunkPos < 0 then 0 else s.chunkPos, s.recv, k)
    else
      var rest := if s.bodySize < 0 then |s.recv| else Min(|s.recv|, s.bodySize - s.bytesReceived);
      if k < rest then rest - k else 0
  }

  // Nothing but the rate limit and the caller keeps data back.
  predicate MayRead(s: Reader) {
    && s.phase == Body && 0 <= s.realPos <= s.pos
    && !(s.noRest && s.realPos == 0 && s.pos > 0)
    && !(!s.chunked && s.entitySize >= 0 && s.pos >= s.entitySize)
  }

  function Least(a: nat, b: nat, c: nat): nat {
    if a <= b && a <= c then a else if b <= c then b else c
  }

  // The next m bytes from the wanted position on are handed out, and nothing else is used up.
  ghost predicate HandsOut(s: Reader, t: Reader, o: Outcome, m: nat)
    requires Valid(s) && Valid(t) && s.realPos <= s.pos
  {
    var k := s.pos - s.realPos;
    && k + m <= |Arrived(s)| && o == Data(Arrived(s)[k..k + m])
    && t.phase == Body && t.pos == s.pos && t.realPos == s.pos + m
    && Remaining(t, t.recv) == Decoded(Arrived(s)[k + m..], Remaining(s, s.recv).end)
    && t.chunked == s.chunked && t.noRest == s.noRest && t.entitySize == s.entitySize
  }

  lemma SplitInChunk(size: nat, pos: nat, wire: seq<Byte>, j: nat, k: nat)
    requires pos < size && j <= k && j <= |wire| && j <= size - pos && wire != []
    ensures InChunk(size, pos, wire, k) == InChunk(size, pos + j, wire[j..], k - j)
  {
    var n := if |wire| < size - pos then |wire| else size - pos;
    if j < n {
      assert wire[j..][n - j..] == wire[n..];
    } else if k < n {
    } else {
      assert j == n;
    }
  }

  // Nothing is under way.
  lemma NothingMore(s: Reader)
    ensures s.recv + [] == s.recv
  {
  }

  // One step further into the response, m is what s was.
  ghost predicate SameFrom(s: Reader, m: Reader, j: nat)
    requires Valid(s) && Valid(m)
  {
    && j <= |Arrived(s)| && Remaining(m, m.recv) == Decoded(Arrived(s)[j..], Remaining(s, s.recv).end)
    && m.realPos == s.realPos + j && m.pos == s.pos && m.phase == s.phase
    && m.chunked == s.chunked && m.noRest == s.noRest && m.entitySize == s.entitySize
  }

  lemma HandsOutLater(s: Reader, m: Reader, t: Reader, o: Outcome, j: nat, n: nat)
    requires Valid(s) && Valid(m) && Valid(t) && SameFrom(s, m, j) && m.realPos <= m.pos && HandsOut(m, t, o, n)
    ensures HandsOut(s, t, o, n)
  {
    hide Remaining;
    var b, k := Arrived(s), s.pos - s.realPos;
    assert b[j..][k - j..][..n] == b[k..k + n] && b[j..][k - j + n..] == b[k + n..];
    assert Arrived(m)[k - j..k - j + n] == b[k..k + n];
  }

  lemma HeadIsSame(s: Reader, n: nat)
    requires Valid(s) && s.phase == Body && s.chunked && s.chunkSize == UNKNOWN
    requires n == LineEnd(s.recv) < |s.recv| && IsHex(s.recv[0])
    ensures var m := s.(recv := s.recv[n + 1..], chunkSize := ScanHex(s.recv[..n]), chunkPos := 0);
      Valid(m) && SameFrom(s, m, 0) && forall k: nat :: InReach(m, k) == InReach(s, k)
  {
    hide Decode, ScanHex;
    NothingMore(s);
    UsedHead(s, n, []);
    var m := s.(recv := s.recv[n + 1..], chunkSize := ScanHex(s.recv[..n]), chunkPos := 0);
    NothingMore(m);
  }

  lemma FootIsSame(s: Reader)
    requires Valid(s) && s.phase == Body && s.chunked && s.chunkSize > 0 && s.chunkPos == s.chunkSize
    requires |s.recv| >= 2 && s.recv[0] == CR && s.recv[1] == LF
    ensures var m := s.(recv := s.recv[2..], chunkSize := UNKNOWN);
      Valid(m) && SameFrom(s, m, 0) && forall k: nat :: InReach(m, k) == InReach(s, k)
  {
    hide Decode;
    NothingMore(s);
    UsedFoot(s, []);
    NothingMore(s.(recv := s.recv[2..], chunkSize := UNKNOWN));
  }

  lemma SkipIsSame(s: Reader, j: nat)
    requires Valid(s) && s.phase == Body && s.recv != [] && j <= |s.recv|
    requires s.chunked ==> s.chunkSize > 0 && s.chunkPos < s.chunkSize && j <= s.chunkSize - s.chunkPos
    requires !s.chunked && s.bodySize >= 0 ==> j <= s.bodySize - s.bytesReceived
    ensures Valid(Skip(s, j)) && SameFrom(s, Skip(s, j), j) && Arrived(s)[..j] == s.recv[..j]
    ensures forall k: nat :: j <= k ==> InReach(Skip(s, j), k - j) == InReach(s, k)
  {
    hide Decode, InChunk;
    NothingMore(s);
    UsedData(s, j, []);
    NothingMore(Skip(s, j));
    if s.chunked {
      forall k: nat | j <= k ensures InReach(Skip(s, j), k - j) == InReach(s, k) {
        SplitInChunk(s.chunkSize, s.chunkPos, s.recv, j, k);
      }
    }
  }

  // With nothing to be had the decoding stops.
  lemma NothingThere(s: Reader)
    requires Valid(s) && s.phase == Body && s.chunked
    ensures s.recv == [] || s.chunkSize == 0 ==> Arrived(s) == []
    ensures s.chunkSize == UNKNOWN && s.recv != [] && (LineEnd(s.recv) == |s.recv| || !IsHex(s.recv[0])) ==>
      Arrived(s) == []
    ensures s.chunkSize > 0 && s.chunkPos == s.chunkSize && (|s.recv| < 2 || s.recv[0] != CR || s.recv[1] != LF) ==>
      Arrived(s) == []
  {
    if s.recv == [] { DecodeNothing(s.chunkSize, if s.chunkSize < 0 then 0 else s.chunkPos); }
  }

  lemma {:induction false} Read0HandsOut(s: Reader, size: nat, allowed: nat)
    requires Valid(s) && MayRead(s) && allowed > 0 && s.pos - s.realPos < |Arrived(s)|
    ensures InReach(s, s.pos - s.realPos) > 0
    ensures var (t, o) := Read0(s, size, allowed);
      Valid(t) && HandsOut(s, t, o, Least(size, allowed, InReach(s, s.pos - s.realPos)))
    decreases |s.recv|, 1
  {
    hide Remaining, Take, InReach, HandsOut, SameFrom;
    var k := s.pos - s.realPos;
    if s.chunked {
      NothingThere(s);
      if s.chunkSize == UNKNOWN {
        var n := LineEnd(s.recv);
        var m := s.(recv := s.recv[n + 1..], chunkSize := ScanHex(s.recv[..n]), chunkPos := 0);
        HeadIsSame(s, n);
        Onward(s, m, 0, size, allowed);
      } else if s.chunkPos == s.chunkSize {
        var m := s.(recv := s.recv[2..], chunkSize := UNKNOWN);
        FootIsSame(s);
        Onward(s, m, 0, size, allowed);
      } else {
        TakeHandsOut(s, size, allowed);
      }
    } else {
      PlainThere(s);
      TakeHandsOut(s, size, allowed);
    }
  }

  lemma PlainThere(s: Reader)
    requires Valid(s) && s.phase == Body && !s.chunked && Arrived(s) != []
    ensures s.recv != [] && (s.bodySize >= 0 ==> s.bytesReceived < s.bodySize)
  {
  }

  // The rest of the read, from m on.
  lemma {:induction false} Onward(s: Reader, m: Reader, j: nat, size: nat, allowed: nat)
    requires Valid(s) && Valid(m) && SameFrom(s, m, j) && MayRead(s) && j <= s.pos - s.realPos < |Arrived(s)|
    requires |m.recv| < |s.recv| && allowed > 0
    requires InReach(m, s.pos - s.realPos - j) == InReach(s, s.pos - s.realPos)
    ensures InReach(s, s.pos - s.realPos) > 0
    ensures var (t, o) := Read0(m, size, allowed);
      Valid(t) && HandsOut(s, t, o, Least(size, allowed, InReach(s, s.pos - s.realPos)))
    decreases |m.recv|, 2
  {
    hide Remaining, Read0, InReach, HandsOut;
    Read0HandsOut(m, size, allowed);
    var (t, o) := Read0(m, size, allowed);
    HandsOutLater(s, m, t, o, j, Least(size, allowed, InReach(s, s.pos - s.realPos)));
  }

  lemma {:induction false} TakeHandsOut(s: Reader, size: nat, allowed: nat)
    requires Valid(s) && MayRead(s) && allowed > 0 && s.pos - s.realPos < |Arrived(s)| && s.recv != []
    requires s.chunked ==> s.chunkSize > 0 && s.chunkPos < s.chunkSize
    requires !s.chunked && s.bodySize >= 0 ==> s.bytesReceived < s.bodySize
    ensures InReach(s, s.pos - s.realPos) > 0
    ensures var (t, o) := Take(s, size, allowed);
      Valid(t) && HandsOut(s, t, o, Least(size, allowed, InReach(s, s.pos - s.realPos)))
    decreases |s.recv|, 0
  {
    hide Remaining, Read0, InReach, HandsOut, SameFrom;
    var n := Available(s, allowed);
    var k := s.pos - s.realPos;
    if k > 0 {
      var j := Min(k, n);
      SkipIsSame(s, j);
      Onward(s, Skip(s, j), j, size, allowed);
    } else {
      var m := Min(size, n);
      SkipIsSame(s, m);
      AtTheByte(s, size, allowed);
    }
  }

  // The wanted byte is the next one.
  lemma AtTheByte(s: Reader, size: nat, allowed: nat)
    requires Valid(s) && MayRead(s) && allowed > 0 && s.pos == s.realPos && s.recv != []
    requires s.chunked ==> s.chunkSize > 0 && s.chunkPos < s.chunkSize
    requires !s.chunked && s.bodySize >= 0 ==> s.bytesReceived < s.bodySize
    requires var m := Min(size, Available(s, allowed));
      0 <= m <= |s.recv| && Valid(Skip(s, m)) && SameFrom(s, Skip(s, m), m) && Arrived(s)[..m] == s.recv[..m]
    ensures var m := Least(size, allowed, InReach(s, 0));
      m == Min(size, Available(s, allowed)) && HandsOut(s, Skip(s, m), Data(s.recv[..m]), m) && InReach(s, 0) > 0
  {
    hide Remaining;
    ReachIsAvailable(s, allowed);
    var m := Min(size, Available(s, allowed));
    assert Arrived(s)[0..0 + m] == s.recv[..m] && Arrived(s)[0 + m..] == Arrived(s)[m..];
  }

  lemma ReachIsAvailable(s: Reader, allowed: nat)
    requires Valid(s) && s.recv != []
    requires s.chunked ==> s.chunkSize > 0 && s.chunkPos < s.chunkSize
    requires !s.chunked && s.bodySize >= 0 ==> s.bytesReceived < s.bodySize
    ensures Available(s, allowed) == Min(InReach(s, 0), allowed) && InReach(s, 0) > 0
  {
  }

  /** When the wanted byte has arrived, Read hands out bytes of the body from it on: as many as are
      asked for, allowed in one pass, and have arrived of the same chunk, or of the known size. */
  lemma ReadHandsOut(s: Reader, size: nat, allowed: nat)
    requires Valid(s) && MayRead(s) && allowed > 0 && s.pos - s.realPos < |Arrived(s)|
    ensures InReach(s, s.pos - s.realPos) > 0
    ensures var (t, o) := Read(s, size, allowed);
      var k, m := s.pos - s.realPos, Least(size, allowed, InReach(s, s.pos - s.realPos));
      && k + m <= |Arrived(s)| && o == Data(Arrived(s)[k..k + m])
      && t.phase == Body && t.pos == t.realPos == s.pos + m && Valid(t)
      && Remaining(t, t.recv) == Decoded(Arrived(s)[k + m..], Remaining(s, s.recv).end)
      && t.chunked == s.chunked && t.noRest == s.noRest && t.entitySize == s.entitySize
  {
    hide Remaining, Read0, InReach;
    Read0HandsOut(s, size, allowed);
    var (t, o) := Read0(s, size, allowed);
    RemainingPos(t, t.recv, t.pos + |o.b|);
  }

  // ---------------------------------------------------------------- to the end of what has arrived

  // What is left of a chunked body has all arrived, with something after it.
  ghost predicate AllHere(s: Reader, left: seq<Byte>, tail: seq<Byte>)
    requires Valid(s)
  {
    s.phase == Body && s.chunked && tail != [] && Remaining(s, s.recv) == Decoded(left, Ended(tail))
  }

  predicate Enters(s: Reader, t: Reader, o: Outcome) {
    o == Again && t.phase == Trailer && t.pos == s.pos
  }

  // With nothing of the body left to hand out, a read enters the trailer.
  lemma {:induction false} Read0Finishes(s: Reader, size: nat, allowed: nat, left: seq<Byte>, tail: seq<Byte>)
    requires Valid(s) && AllHere(s, left, tail) && MayRead(s) && allowed > 0 && |left| <= s.pos - s.realPos
    ensures var (t, o) := Read0(s, size, allowed); Valid(t) && Enters(s, t, o)
    decreases |s.recv|, 1
  {
    hide Remaining, Take, SameFrom;
    EndsHere(s, left, tail);
    if s.chunkSize == UNKNOWN {
      var n := LineEnd(s.recv);
      var m := s.(recv := s.recv[n + 1..], chunkSize := ScanHex(s.recv[..n]), chunkPos := 0);
      HeadIsSame(s, n);
      SameIsHere(s, m, 0, left, tail);
      Read0Finishes(m, size, allowed, left[0..], tail);
    } else if s.chunkSize == 0 {
    } else if s.chunkPos == s.chunkSize {
      var m := s.(recv := s.recv[2..], chunkSize := UNKNOWN);
      FootIsSame(s);
      SameIsHere(s, m, 0, left, tail);
      Read0Finishes(m, size, allowed, left[0..], tail);
    } else {
      TakeFinishes(s, size, allowed, left, tail);
    }
  }

  lemma SameIsHere(s: Reader, m: Reader, j: nat, left: seq<Byte>, tail: seq<Byte>)
    requires Valid(s) && Valid(m) && AllHere(s, left, tail) && SameFrom(s, m, j)
    ensures j <= |left| && AllHere(m, left[j..], tail)
  {
    hide Remaining;
  }

  // What a decoder that ends has before it.
  lemma EndsHere(s: Reader, left: seq<Byte>, tail: seq<Byte>)
    requires Valid(s) && AllHere(s, left, tail)
    ensures s.recv != []
    ensures s.chunkSize == UNKNOWN ==> LineEnd(s.recv) < |s.recv| && IsHex(s.recv[0])
    ensures s.chunkSize > 0 && s.chunkPos == s.chunkSize ==> |s.recv| >= 2 && s.recv[0] == CR && s.recv[1] == LF
    ensures s.chunkSize > 0 && s.chunkPos < s.chunkSize ==> left != []
  {
  }

  lemma {:induction false} TakeFinishes(s: Reader, size: nat, allowed: nat, left: seq<Byte>, tail: seq<Byte>)
    requires Valid(s) && AllHere(s, left, tail) && MayRead(s) && allowed > 0 && |left| <= s.pos - s.realPos
    requires s.chunkSize > 0 && s.chunkPos < s.chunkSize && s.recv != []
    ensures var (t, o) := Take(s, size, allowed); Valid(t) && Enters(s, t, o)
    decreases |s.recv|, 0
  {
    hide Remaining, Read0, SameFrom, InReach;
    EndsHere(s, left, tail);
    var n := Available(s, allowed);
    var j := Min(s.pos - s.realPos, n);
    SkipIsSame(s, j);
    SameIsHere(s, Skip(s, j), j, left, tail);
    Read0Finishes(Skip(s, j), size, allowed, left[j..], tail);
  }

  // Reads that ask for something and may have it.
  predicate Hungry(es: seq<Event>) {
    forall i :: 0 <= i < |es| ==> es[i].Reads? && es[i].size > 0 && es[i].allowed > 0
  }

  // What is still to be handed out.
  function Wanted(left: seq<Byte>, k: int): seq<Byte>
    requires 0 <= k
  {
    if k <= |left| then left[k..] else []
  }

  lemma {:induction false} TrailerStays(x: Transfer, es: seq<Event>)
    requires Valid(x.r) && x.r.phase == Trailer && Hungry(es)
    ensures Unbroken(x, es) && Through(x, es) == x
    decreases |es|
  {
    if es != [] {
      assert Step(x, es[0]) == x;
      TrailerStays(x, es[1..]);
    }
  }

  lemma OneRead(x: Transfer, e: Event, left: seq<Byte>, tail: seq<Byte>) returns (m: nat)
    requires Valid(x.r) && AllHere(x.r, left, tail) && MayRead(x.r) && e.Reads? && e.size > 0 && e.allowed > 0
    ensures var y, k := Step(x, e), x.r.pos - x.r.realPos;
      && Valid(y.r)
      && if k < |left| then
           && 0 < m <= |left| - k && y.got == x.got + left[k..k + m] && MayRead(y.r)
           && y.r.pos == y.r.realPos && AllHere(y.r, left[k + m..], tail)
         else y.r.phase == Trailer && y.got == x.got
  {
    hide Remaining, Read0, InReach;
    var k := x.r.pos - x.r.realPos;
    if k < |left| {
      ReadHandsOut(x.r, e.size, e.allowed);
      m := Least(e.size, e.allowed, InReach(x.r, k));
    } else {
      m := 0;
      Read0Finishes(x.r, e.size, e.allowed, left, tail);
    }
  }

  /** Once all that is left of a chunked body has arrived, one read for each byte wanted and one more
      are enough to enter the trailer, with all that was wanted handed out. */
  lemma {:induction false} ReadsToTheEnd(x: Transfer, es: seq<Event>, left: seq<Byte>, tail: seq<Byte>)
    requires Valid(x.r) && AllHere(x.r, left, tail) && MayRead(x.r) && Hungry(es)
    requires |es| > |Wanted(left, x.r.pos - x.r.realPos)|
    ensures Unbroken(x, es)
    ensures var y := Through(x, es);
      y.r.phase == Trailer && y.got == x.got + Wanted(left, x.r.pos - x.r.realPos)
    decreases |es|
  {
    hide Step, AllHere, MayRead;
    var k := x.r.pos - x.r.realPos;
    var y := Step(x, es[0]);
    var m := OneRead(x, es[0], left, tail);
    WantedFrom(x.r);
    if k < |left| {
      ReadsToTheEnd(y, es[1..], left[k + m..], tail);
      assert left[k..k + m] + left[k + m..] == left[k..];
      assert left[k + m..][0..] == left[k + m..];
      assert x.got + left[k..k + m] + left[k + m..] == x.got + left[k..];
    } else {
      TrailerStays(y, es[1..]);
      assert x.got + [] == x.got && Wanted(left, k) == [];
    }
  }

  lemma WantedFrom(s: Reader)
    requires MayRead(s)
    ensures 0 <= s.realPos <= s.pos
  {
  }

  /** A whole encoded response that has arrived is read to its end: one read for each byte wanted and
      one more enter its trailer, with exactly the body from the wanted position on handed out. */
  lemma EncodedBodyArrives(chunks: seq<Chunk>, last: seq<Byte>, tail: seq<Byte>, pos: nat, realPos: nat, es: seq<Event>)
    requires WellFormed(chunks) && SizeLine(last, 0) && tail != [] && realPos <= pos && Hungry(es)
    requires |es| > |Wanted(BodyOf(chunks), pos - realPos)|
    ensures var x := Transfer(NewResponse(pos, realPos).(recv := Encode(chunks, last) + tail), [], []);
      && Unbroken(x, es)
      && Through(x, es).r.phase == Trailer && Through(x, es).got == Wanted(BodyOf(chunks), pos - realPos)
  {
    hide Decode, Encode, SizeLine, WellFormed;
    DecodeEncode(chunks, last, tail);
    var x := Transfer(NewResponse(pos, realPos).(recv := Encode(chunks, last) + tail), [], []);
    ReadsToTheEnd(x, es, BodyOf(chunks), tail);
    assert [] + Wanted(BodyOf(chunks), pos - realPos) == Wanted(BodyOf(chunks), pos - realPos);
  }

  // ---------------------------------------------------------------- a body of known size

  // All that is left of a body of known size has arrived, from the wanted position on.
  predicate PlainHere(s: Reader) {
    && s.phase == Body && !s.chunked && s.fault == NoFault && 0 <= s.bytesReceived <= s.bodySize
    && s.bodySize - s.bytesReceived <= |s.recv| && 0 <= s.realPos == s.pos
    && (s.entitySize < 0 || s.entitySize == s.pos + (s.bodySize - s.bytesReceived))
  }

  function PlainLeft(s: Reader): seq<Byte>
    requires PlainHere(s)
  {
    s.recv[..s.bodySize - s.bytesReceived]
  }

  lemma PlainRead(s: Reader, size: nat, allowed: nat)
    requires PlainHere(s)
    ensures PlainLeft(s) == [] ==> Read(s, size, allowed) == (s, Eof)
    ensures PlainLeft(s) != [] ==>
      var m := Least(size, allowed, |PlainLeft(s)|);
      var (t, o) := Read(s, size, allowed);
      && (allowed > 0 ==> o == Data(PlainLeft(s)[..m]))
      && PlainHere(t) && (allowed > 0 ==> PlainLeft(t) == PlainLeft(s)[m..])
  {
    hide ScanHex, LineEnd;
    if PlainLeft(s) != [] {
      assert Read0(s, size, allowed) == Take(s, size, allowed);
      assert Available(s, allowed) == Min(|PlainLeft(s)|, allowed);
    }
  }

  /** A body of known size that has arrived is read to its end: one read for each byte hands all of
      it out, and the next says that this is the end. */
  lemma {:induction false} PlainReadsToTheEnd(x: Transfer, es: seq<Event>, size: nat, allowed: nat)
    requires PlainHere(x.r) && Hungry(es) && |es| >= |PlainLeft(x.r)|
    ensures Unbroken(x, es)
    ensures var y := Through(x, es);
      Valid(y.r) && y.got == x.got + PlainLeft(x.r) && Read(y.r, size, allowed) == (y.r, Eof)
    decreases |es|
  {
    hide Read, PlainLeft;
    PlainRead(x.r, size, allowed);
    if es != [] {
      PlainRead(x.r, es[0].size, es[0].allowed);
      var y := Step(x, es[0]);
      PlainReadsToTheEnd(y, es[1..], size, allowed);
      if PlainLeft(x.r) != [] {
        var m := Least(es[0].size, es[0].allowed, |PlainLeft(x.r)|);
        assert x.got + PlainLeft(x.r)[..m] + PlainLeft(x.r)[m..] == x.got + PlainLeft(x.r);
      }
    } else {
      assert x.got + [] == x.got;
    }
  }
}

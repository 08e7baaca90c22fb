/**
 Where a copy begins and how it ends: what a whole run of the copy engine has copied.
 */
module CopyEnd {
  import opened CopyEngine

  // ---------------------------------------------------------------- where a copy begins

  // Nothing that was covered from `low`, or from 0, is given up.
  predicate Lower(r: Copy, low: int) {
    r.low <= (if low > 0 then low else 0) && r.phase != Initial
  }

  lemma FlushedLow(s: Copy, low: LowWrite)
    ensures var r := AfterSizeCheck(Flushed(s, low)); r.low <= s.low && r.phase == s.phase
  {
    hide Flushed, AfterSizeCheck;
    FlushedShape(s, low);
    AfterSizeCheckShape(Flushed(s, low));
  }

  lemma AtEofLow(s: Copy, low: LowWrite)
    requires s.phase != Initial
    ensures Lower(AtEof(s, low), s.low)
  {
    hide Flushed, AfterSizeCheck, SizeOk, PreConfirm;
    FlushedLow(s, low);
    ConfirmLow(AfterSizeCheck(Flushed(s, low)));
  }

  lemma CopyDataLow(s: Copy, inp: Inputs)
    requires s.phase != Initial
    ensures Lower(CopyData(s, inp), s.low)
  {
    hide PutBytes, PutAt, Written, AtEof, ThroughLine, Allowed;
    var n := Allowed(s.get);
    AtEofLow(s, inp.low3);
    if s.get.buf != [] {
      ThroughLineLow(s, n, inp);
      AtEofLow(if s.lineBuffered then ThroughLine(s, n, inp) else Straight(s, n, inp), inp.low3);
    }
  }

  lemma RealignLow(s: Copy, inp: Inputs)
    requires s.phase != Initial
    ensures Lower(Realign(s, inp), s.low)
  {
    hide AtEof, Behind, CatchUp, Peer.Sized;
    var s1 := s.(line := [], get := s.get.Sized());
    AtEofLow(s1, inp.low3);
    BehindShape(s.(line := []));
    CatchUpShape(s1);
  }

  lemma CopyStepLow(s: Copy, inp: Inputs)
    requires s.phase != Initial
    ensures Lower(CopyStep(s, inp), s.low)
  {
    hide CopyData, Realign, Hindered, BrokenOff, Peer.Sized, Clear;
    var s1 := s.(get := s.get.Sized());
    CopyDataLow(s1, inp);
    RealignLow(s1, inp);
    HinderedShape(s);
    BrokenOffShape(s);
  }

  lemma AwaitPutLow(s: Copy, inp: Inputs)
    requires s.phase != Initial
    ensures Lower(AwaitPut(s, inp), s.low)
  {
    hide CopyStep, Peer.Seek, Peer.Sized, PreConfirm, PreGetDone;
    var s0 := if s.put.seekPos != FILE_END then s.(get := s.get.Sized()) else s;
    ConfirmLow(s0);
    GetDoneLow(s0);
    CopyStepLow((if s0.get.canSeek then SeekGet(s0, s0.put.pos) else s0).(phase := DoCopy), inp);
  }

  // A call covers on from where the copy began.
  lemma DoLow(s: Copy, inp: Inputs)
    requires s.phase != Initial
    ensures Lower(Do(s, inp), s.low)
  {
    hide CopyStep, AwaitPut, Confirm, GetDone;
    CopyStepLow(s, inp);
    AwaitPutLow(s, inp);
    ConfirmLow(s);
    GetDoneLow(s);
  }

  // The first call, not continuing an old file, covers from the start of the range, or from
  // where a destination that cannot seek stands.
  lemma BeginLow(s: Copy, inp: Inputs)
    requires s.phase == Initial && !s.failed && !(s.cont && s.put.canSeek)
    ensures var seeks := s.put.rangeStart > 0 && s.put.canSeek;
      Lower(Do(s, inp), if seeks then s.put.Seek(true, s.put.rangeStart).place else s.put.place)
  {
    hide CopyStep, Peer.Seek, HeldAfter;
    CopyStepLow(AtRangeStart(s.(low := s.put.place)).(phase := DoCopy), inp);
  }

  /** What is covered stays covered, however often the peers fall back, fail or seek: after
      any turns the destination still holds the source from where it was covered before. */
  lemma {:induction false} LowNeverRises(s: Copy, turns: seq<Turn>)
    requires s.phase != Initial
    ensures Lower(Run(s, turns), s.low)
    decreases |turns|
  {
    hide Do;
    if turns != [] {
      var m := Moved(s, turns[0]);
      DoLow(m, turns[0].inp);
      LowNeverRises(Do(m, turns[0].inp), turns[1..]);
    }
  }

  // ---------------------------------------------------------------- the end of the data

  /** The offset the transfer has to reach: the end of the range, or the size of the source, even
      where it was forgotten because the position has passed it. */
  predicate Limit(g: Peer, limit: int) {
    if g.rangeLimit != FILE_END then limit == g.rangeLimit
    else limit >= 0 && (g.size == limit || (g.size == NO_SIZE_YET && g.pos > limit))
  }

  // The end was accepted at the put position, and that is not short of the limit.
  predicate Reached(s: Copy, limit: int) {
    s.putEofPos == s.put.pos && (s.put.pos <= 0 || s.put.pos >= limit)
  }

  lemma PutMoves(s: Copy, b: seq<Byte>, low: LowWrite)
    requires Stays(low) && Settled(s)
    ensures var r := Put(s, b, low);
      && r.put.pos == s.put.pos + |b| && Settled(r) && r.get == s.get && r.line == s.line
      && r.lineBuffered == s.lineBuffered && r.failed == s.failed
  {
    hide PutBytes, PutAt, Written;
    PutBytesShape(s.put, b, low);
    PutShape(s, b, low);
  }

  lemma ConfirmReached(s: Copy, limit: int)
    requires s.put.pos <= 0 || s.put.pos >= limit
    ensures Reached(PreConfirm(s), limit)
  {
    hide PreConfirm;
    PreConfirmShape(s);
  }

  // A size check that is passed means that the limit was reached.
  lemma SizeOkMeans(get: Peer, put: Peer, limit: int)
    requires Limit(get, limit) && get.pos <= put.pos && SizeOk(get, put)
    ensures put.pos <= 0 || put.pos >= limit
  {
  }

  lemma AtEofReached(s: Copy, low: LowWrite, limit: int)
    requires Stays(low) && Settled(s) && s.get.pos <= s.put.pos + |s.line|
    requires (!s.lineBuffered ==> s.line == []) && Limit(s.get, limit)
    ensures var r := AtEof(s, low); !r.failed ==> Reached(r, limit)
  {
    hide PreConfirm, Put, SizeOk, Limit, Reached, Peer.Sized, Settled;
    if s.lineBuffered { PutMoves(s, s.line, low); }
    var s0 := Flushed(s, low);
    var s1 := AfterSizeCheck(s0);
    if SizeOk(s0.get, s0.put) {
      SizeOkMeans(s0.get, s0.put, limit);
      ConfirmReached(s1, limit);
    }
  }

  lemma PassLinesMoves(s: Copy, inp: Inputs)
    requires s.lineBuffered && s.get.pos - |s.line| == s.put.pos && Stays(inp.low2) && Settled(s)
    ensures var r := PassLines(s, inp);
      Settled(r) && r.get == s.get && r.get.pos - |r.line| == r.put.pos && r.lineBuffered && r.phase == s.phase
  {
    hide Put, AfterLastNewline;
    PassLinesShape(s, inp);
    var cut := if s.get.eof || s.get.error then |s.line| else AfterLastNewline(s.line);
    PutMoves(s, s.line[..cut], inp.low2);
  }

  lemma ThroughLineMoves(s: Copy, n: nat, inp: Inputs)
    requires n <= |s.get.buf| && s.lineBuffered && s.get.pos - |s.line| == s.put.pos
    requires Stays(inp.low1) && Stays(inp.low2) && Settled(s)
    ensures var r := ThroughLine(s, n, inp);
      r.get.pos - |r.line| == r.put.pos && r.lineBuffered && r.phase == s.phase && Settled(r)
  {
    hide Put, PassLines;
    ThroughLineShape(s, n, inp);
    PutMoves(s, s.line, inp.low1);
    var s1 := AfterOverflow(s, inp);
    PassLinesMoves(s1.(get := s1.get.Skip(n), line := s1.line + s.get.buf[..n], bytesCount := s1.bytesCount + n), inp);
  }

  lemma StraightMoves(s: Copy, n: nat, inp: Inputs)
    requires n <= |s.get.buf| && !s.lineBuffered && s.get.pos == s.put.pos && s.line == [] && Stays(inp.low1)
    requires Settled(s)
    ensures var r := Straight(s, n, inp);
      Settled(r) && r.get.pos == r.put.pos && r.line == [] && !r.lineBuffered && r.phase == s.phase
  {
    PutMoves(s, s.get.buf[..n], inp.low1);
  }

  lemma TakenSize(g: Peer)
    ensures g.Sized() == g.(size := if g.size >= 0 && g.pos > g.size then NO_SIZE_YET else g.size)
  {
  }

  // Taking data does not change the limit.
  lemma TakenLimit(g: Peer, n: nat, limit: int)
    requires Limit(g, limit) && n <= |g.buf|
    ensures Limit(g.Skip(n), limit) && Limit(g.Sized(), limit)
  {
    TakenSize(g);
  }

  lemma TakenGet(s: Copy, n: nat, inp: Inputs)
    requires n <= |s.get.buf|
    ensures ThroughLine(s, n, inp).get == s.get.Skip(n) && Straight(s, n, inp).get == s.get.Skip(n)
  {
    hide ThroughLine, Straight, Peer.Skip;
    ThroughLineShape(s, n, inp);
    StraightShape(s, n, inp);
  }

  lemma CopyDataReached(s: Copy, inp: Inputs, limit: int)
    requires s.phase == DoCopy && AllStay(inp) && Settled(s)
    requires s.get.pos - |s.line| == s.put.pos && (!s.lineBuffered ==> s.line == [])
    requires Limit(s.get, limit)
    ensures var r := CopyData(s, inp); !r.failed && r.phase != DoCopy ==> Reached(r, limit)
  {
    hide AtEof, ThroughLine, Straight, Allowed, Reached, Limit;
    var n := Allowed(s.get);
    TakenLimit(s.get, n, limit);
    TakenGet(s, n, inp);
    if s.get.buf == [] {
      AtEofReached(s, inp.low3, limit);
    } else if s.lineBuffered {
      ThroughLineMoves(s, n, inp);
      AtEofReached(ThroughLine(s, n, inp), inp.low3, limit);
    } else {
      StraightMoves(s, n, inp);
      AtEofReached(Straight(s, n, inp), inp.low3, limit);
    }
  }

  lemma RealignReached(s: Copy, inp: Inputs, limit: int)
    requires s.phase == DoCopy && AllStay(inp) && s.get.rangeStart == s.put.rangeStart && Limit(s.get, limit)
    requires Settled(s)
    ensures var r := Realign(s, inp); !r.failed && r.phase != DoCopy ==> Reached(r, limit)
  {
    hide AtEof, Behind, CatchUp, Reached, Limit, Peer.Sized;
    TakenLimit(s.get, 0, limit);
    SizedKeeps(s.get);
    var s1 := s.(line := [], get := s.get.Sized());
    BehindShape(s.(line := []));
    CatchUpShape(s1);
    if s.get.pos < s.put.pos {
      AtEofReached(s1, inp.low3, limit);
    }
  }

  /** When copying ends at the end of the data, it has not ended short: if anything was put, the
      destination has reached the size of the source or the end of the range. */
  lemma CopyStepReached(s: Copy, inp: Inputs, limit: int)
    requires s.phase == DoCopy && !s.put.broken && AllStay(inp) && s.get.rangeStart == s.put.rangeStart && Settled(s)
    requires (!s.lineBuffered ==> s.line == []) && Limit(s.get, limit)
    ensures var r := CopyStep(s, inp); !r.failed && r.phase != DoCopy ==> Reached(r, limit)
  {
    hide CopyData, Realign, Hindered, BrokenOff, Reached, Limit, Peer.Sized, Clear;
    TakenLimit(s.get, 0, limit);
    SizedKeeps(s.get);
    HinderedShape(s);
    var s1 := s.(get := s.get.Sized());
    if s1.get.pos - |s1.line| == s1.put.pos {
      CopyDataReached(s1, inp, limit);
    } else {
      RealignReached(s1, inp, limit);
    }
  }

  // ---------------------------------------------------------------- a whole copy

  predicate Ending(p: Phase) { p == ConfirmWait || p == GetDoneWait || p == AllDone }

  /** Once the end was accepted, the limit had been reached there. Once the destination has
      confirmed that too, it still stands there, and has written everything, unless its reader is
      gone. */
  ghost predicate EndedWell(s: Copy, start: nat, limit: int) {
    && s.low <= start
    && (!s.failed && Ending(s.phase) ==> s.putEofPos <= 0 || s.putEofPos >= limit)
    && (!s.failed && Confirmed(s.phase) ==> AllWritten(s))
  }

  predicate AllWritten(s: Copy) {
    s.putEofPos == s.put.pos && Settled(s) && (s.put.broken || (s.put.buf == [] && s.put.done && !s.put.error))
  }

  lemma MovedEndsWell(source: seq<Byte>, s: Copy, t: Turn, start: nat, limit: int)
    requires EndedWell(s, start, limit) && PeersHonest(source, s, t)
    ensures EndedWell(Moved(s, t), start, limit)
  {
    hide Written, Below, SourceAt;
  }

  // Where the engine confirms the end, the destination has written everything up to there.
  lemma ConfirmIsWritten(s: Copy)
    requires Settled(s) && !s.failed
    ensures var r := Confirm(s); !r.failed && Confirmed(r.phase) && !Confirmed(s.phase) ==> AllWritten(r)
  {
    hide PreGetDone;
    PreGetDoneShape(s);
  }

  lemma PreConfirmIsWritten(s: Copy)
    requires Settled(s) && !s.failed
    ensures var r := PreConfirm(s); !r.failed && Confirmed(r.phase) ==> AllWritten(r)
  {
    hide Confirm, Peer.Sized;
    var put := s.put.(eof := true);
    ConfirmIsWritten(s.(get := s.get.Sized(), put := put, putEofPos := s.put.pos, phase := ConfirmWait));
  }

  lemma AtEofIsWritten(s: Copy, low: LowWrite)
    requires Settled(s) && Stays(low) && !s.failed && !Confirmed(s.phase)
    ensures var r := AtEof(s, low); !r.failed && Confirmed(r.phase) ==> AllWritten(r)
  {
    hide PreConfirm, Put, SizeOk, AllWritten, Peer.Sized, AfterSizeCheck;
    if s.lineBuffered { PutMoves(s, s.line, low); }
    AfterSizeCheckShape(Flushed(s, low));
    PreConfirmIsWritten(AfterSizeCheck(Flushed(s, low)));
  }

  lemma CopyDataIsWritten(s: Copy, inp: Inputs)
    requires Settled(s) && AllStay(inp) && s.phase == DoCopy && !s.failed
    requires s.get.pos - |s.line| == s.put.pos && (!s.lineBuffered ==> s.line == [])
    ensures var r := CopyData(s, inp); !r.failed && Confirmed(r.phase) ==> AllWritten(r)
  {
    hide AtEof, ThroughLine, Straight, Allowed, AllWritten, Settled;
    var n := Allowed(s.get);
    if s.get.buf == [] {
      AtEofIsWritten(s, inp.low3);
    } else if s.lineBuffered {
      ThroughLineMoves(s, n, inp);
      ThroughLineShape(s, n, inp);
      AtEofIsWritten(ThroughLine(s, n, inp), inp.low3);
    } else {
      StraightMoves(s, n, inp);
      StraightShape(s, n, inp);
      AtEofIsWritten(Straight(s, n, inp), inp.low3);
    }
  }

  lemma RealignIsWritten(s: Copy, inp: Inputs)
    requires Settled(s) && AllStay(inp) && s.phase == DoCopy && !s.failed
    ensures var r := Realign(s, inp); !r.failed && Confirmed(r.phase) ==> AllWritten(r)
  {
    hide AtEof, Behind, CatchUp, Peer.Sized, AllWritten;
    var s1 := s.(line := [], get := s.get.Sized());
    BehindShape(s.(line := []));
    CatchUpShape(s1);
    AtEofIsWritten(s1, inp.low3);
  }

  lemma CopyStepIsWritten(s: Copy, inp: Inputs)
    requires Settled(s) && AllStay(inp) && s.phase == DoCopy && !s.failed && !s.put.broken
    requires s.get.rangeStart == s.put.rangeStart && (!s.lineBuffered ==> s.line == [])
    ensures var r := CopyStep(s, inp); !r.failed && Confirmed(r.phase) ==> AllWritten(r)
  {
    hide CopyData, Realign, Hindered, BrokenOff, AllWritten, Peer.Sized, Clear;
    SizedKeeps(s.get);
    HinderedShape(s);
    var s1 := s.(get := s.get.Sized());
    if s1.get.pos - |s1.line| == s1.put.pos {
      CopyDataIsWritten(s1, inp);
    } else {
      RealignIsWritten(s1, inp);
    }
  }

  // What a copying step that ends the copy leaves.
  lemma StepEndsWell(r: Copy, start: nat, limit: int)
    requires r.low <= start && (!r.failed && r.phase != DoCopy ==> Reached(r, limit))
    requires !r.failed && Confirmed(r.phase) ==> AllWritten(r)
    ensures EndedWell(r, start, limit)
  {
  }

  lemma ConfirmEndsWell(s: Copy, start: nat, limit: int)
    requires EndedWell(s, start, limit) && Ending(s.phase) && Settled(s) && !s.failed
    ensures s.phase == ConfirmWait ==> EndedWell(Confirm(s), start, limit)
    ensures Confirmed(s.phase) ==> EndedWell(GetDone(s), start, limit)
  {
    hide Confirm, GetDone;
    ConfirmShape(s);
    ConfirmIsWritten(s);
    GetDoneShape(s);
  }

  lemma DoEndsWell(source: seq<Byte>, s: Copy, inp: Inputs, start: nat, limit: int)
    requires Inv(source, s) && EndedWell(s, start, limit) && Late(s) && Undisturbed(s, inp)
    requires !s.put.broken && Limit(s.get, limit)
    ensures EndedWell(Do(s, inp), start, limit)
  {
    hide SourceAt, Correct, Covered, CopyStep, Confirm, GetDone, Limit, Reached, LineInPlace, KeepsBuffer, AllWritten;
    if s.failed {
    } else if s.phase == DoCopy {
      CopyStepReached(s, inp, limit);
      CopyStepIsWritten(s, inp);
      CopyStepLow(s, inp);
      StepEndsWell(Do(s, inp), start, limit);
    } else {
      ConfirmEndsWell(s, start, limit);
    }
  }

  // Where a copy that does not continue an old file begins.
  function Beginning(put: Peer): nat {
    var seeks := put.rangeStart > 0 && put.canSeek;
    var at := if seeks then put.Seek(true, put.rangeStart).place else put.place;
    if at > 0 then at else 0
  }

  // The size of the source, or the end of the range, is known in every turn, and the destination
  // is never found broken.
  predicate Sized(turns: seq<Turn>, limit: int) {
    forall i :: 0 <= i < |turns| ==> Limit(turns[i].get, limit) && !turns[i].put.broken
  }

  // A later turn: the copy is under way.
  lemma TurnEndsWell(source: seq<Byte>, s: Copy, t: Turn, start: nat, limit: int)
    requires Inv(source, s) && EndedWell(s, start, limit) && Late(s) && PeersHonest(source, s, t)
    requires Undisturbed(Moved(s, t), t.inp) && Limit(t.get, limit) && !t.put.broken
    ensures var r := Do(Moved(s, t), t.inp); Inv(source, r) && EndedWell(r, start, limit) && Late(r)
  {
    hide Inv, Do, Limit, Undisturbed, PeersHonest, EndedWell;
    var m := Moved(s, t);
    MovedKeepsInv(source, s, t);
    MovedStaysEarly(s, t);
    MovedEndsWell(source, s, t, start, limit);
    DoKeepsInv(source, m, t.inp);
    DoIsLate(m, t.inp);
    DoEndsWell(source, m, t.inp, start, limit);
  }

  lemma DoIsLate(s: Copy, inp: Inputs)
    requires Late(s)
    ensures Late(Do(s, inp))
  {
    hide CopyStep, Confirm, GetDone;
    CopyStepIsLate(s, inp);
    ConfirmShape(s);
    GetDoneShape(s);
  }

  lemma {:induction false} RunEndsWell(source: seq<Byte>, s: Copy, turns: seq<Turn>, start: nat, limit: int)
    requires Inv(source, s) && EndedWell(s, start, limit) && Late(s) && GoodRun(source, s, turns) && Sized(turns, limit)
    ensures Inv(source, Run(s, turns)) && EndedWell(Run(s, turns), start, limit)
    decreases |turns|
  {
    hide Inv, Do, Limit, Undisturbed, PeersHonest, EndedWell, Moved;
    if turns != [] {
      TurnEndsWell(source, s, turns[0], start, limit);
      RunEndsWell(source, Do(Moved(s, turns[0]), turns[0].inp), turns[1..], start, limit);
    }
  }

  // The first turn of a copy.
  lemma FirstEndsWell(source: seq<Byte>, m: Copy, inp: Inputs, limit: int)
    requires Inv(source, m) && m.phase == Initial && !m.failed && !m.cont && m.line == [] && Undisturbed(m, inp)
    requires Limit(m.get, limit) && (m.get.rangeLimit == FILE_END ==> m.get.size == limit) && !m.put.broken
    ensures var r := Do(m, inp); EndedWell(r, Beginning(m.put), limit) && Late(r)
  {
    hide Inv, CopyStep, AtRangeStart, Reached, Limit, AllWritten, Peer.Seek, LineInPlace;
    var s := AtRangeStart(m.(low := m.put.place)).(phase := DoCopy);
    assert Do(m, inp) == CopyStep(s, inp);
    BeginLow(m, inp);
    CopyStepIsLate(s, inp);
    FirstStep(source, m, limit);
    CopyStepReached(s, inp, limit);
    CopyStepIsWritten(s, inp);
    StepEndsWell(CopyStep(s, inp), Beginning(m.put), limit);
  }

  lemma AtRangeStartShape(s: Copy)
    ensures var r := AtRangeStart(s);
      && (r.get == s.get || r.get == s.get.Seek(false, s.get.rangeStart))
      && (r.put == s.put || r.put == s.put.Seek(true, s.put.rangeStart))
      && r.line == s.line && r.failed == s.failed
  {
    hide Peer.Seek, StartPutAt, SeekGet;
    var s1 := StartPutAt(s, s.put.rangeStart);
    StartPutShape(s, s.put.rangeStart);
    SeekGetShape(s, s.get.rangeStart);
    SeekGetShape(s1, s.get.rangeStart);
  }

  lemma StartPutShape(s: Copy, offs: int)
    ensures var r := StartPutAt(s, offs);
      r.get == s.get && r.put == s.put.Seek(true, offs) && r.line == s.line && r.failed == s.failed
  {
    hide Peer.Seek;
  }

  lemma SeekGetShape(s: Copy, offs: int)
    ensures var r := SeekGet(s, offs);
      r.put == s.put && r.get == s.get.Seek(false, offs) && r.line == s.line && r.failed == s.failed
  {
    hide Peer.Seek;
  }

  // At the start of the range everything is as the copying needs it.
  lemma FirstStep(source: seq<Byte>, m: Copy, limit: int)
    requires Inv(source, m) && m.line == [] && !m.put.broken && Settled(m) && m.put.buf == [] && !m.failed
    requires Limit(m.get, limit) && (m.get.rangeLimit == FILE_END ==> m.get.size == limit)
    ensures var s := AtRangeStart(m.(low := m.put.place)).(phase := DoCopy);
      && Inv(source, s) && Settled(s) && s.line == [] && !s.put.broken && Limit(s.get, limit)
      && s.get.rangeStart == s.put.rangeStart && !s.failed
  {
    hide Inv, Peer.Seek, AtRangeStart;
    var s0 := m.(low := m.put.place);
    FromHere(source, m);
    AtRangeStartKeepsInv(source, s0);
    AtRangeStartShape(s0);
    EnterPhase(source, AtRangeStart(s0), DoCopy);
    SeekShape(m.put, true, m.put.rangeStart);
    SeekShape(m.get, false, m.get.rangeStart);
  }

  // The destination holds all of the source in between, byte for byte.
  ghost predicate Copied(source: seq<Byte>, dest: map<int, Byte>, lo: int, hi: int) {
    forall p :: lo <= p < hi ==> p in dest && 0 <= p < |source| && dest[p] == source[p]
  }

  /** Over a whole good run from a fresh copy whose source's size is known: once the end has been
      accepted it was not short, and once the destination has confirmed it, whatever rolled back
      before, the destination holds all of the source from where the copy began to where it ended,
      byte for byte, has nothing beyond, and has written all of it unless its reader is gone. */
  lemma WholeCopyArrives(source: seq<Byte>, get: Peer, put: Peer, lineBuffered: bool, lineMax: int,
                         failIfCannotSeek: bool, failIfBroken: bool, turns: seq<Turn>, limit: int)
    requires get.rangeStart == put.rangeStart && turns != [] && Sized(turns, limit)
    requires turns[0].get.rangeLimit == FILE_END ==> turns[0].get.size == limit
    requires GoodRun(source, Start(get, put, false, lineBuffered, lineMax, failIfCannotSeek, failIfBroken), turns)
    ensures var s := Run(Start(get, put, false, lineBuffered, lineMax, failIfCannotSeek, failIfBroken), turns);
      && (!s.failed && Ending(s.phase) ==> s.putEofPos <= 0 || s.putEofPos >= limit)
      && (!s.failed && Confirmed(s.phase) ==>
            && Copied(source, s.dest, Beginning(turns[0].put), s.putEofPos)
            && (forall p :: p in s.dest ==> p < s.putEofPos)
            && (s.put.broken || s.put.buf == []))
  {
    hide Do, Limit, Undisturbed, PeersHonest, EndedWell, Copied;
    var s0 := Start(get, put, false, lineBuffered, lineMax, failIfCannotSeek, failIfBroken);
    var m := Moved(s0, turns[0]);
    var start := Beginning(turns[0].put);
    MovedKeepsInv(source, s0, turns[0]);
    MovedFresh(source, s0, turns[0]);
    FirstEndsWell(source, m, turns[0].inp, limit);
    DoKeepsInv(source, m, turns[0].inp);
    RunEndsWell(source, Do(m, turns[0].inp), turns[1..], start, limit);
    var s := Run(s0, turns);
    assert s == Run(Do(m, turns[0].inp), turns[1..]);
    EndedMeans(source, s, start, limit);
  }

  lemma EndedMeans(source: seq<Byte>, s: Copy, start: nat, limit: int)
    requires Inv(source, s) && EndedWell(s, start, limit)
    ensures !s.failed && Ending(s.phase) ==> s.putEofPos <= 0 || s.putEofPos >= limit
    ensures !s.failed && Confirmed(s.phase) ==>
      && Copied(source, s.dest, start, s.putEofPos)
      && (forall p :: p in s.dest ==> p < s.putEofPos)
      && (s.put.broken || s.put.buf == [])
  {
  }

  lemma MovedFresh(source: seq<Byte>, s: Copy, t: Turn)
    ensures var m := Moved(s, t);
      && m.phase == s.phase && m.failed == s.failed && m.cont == s.cont && m.line == s.line
      && m.get == t.get && m.put == t.put
  {
  }
}

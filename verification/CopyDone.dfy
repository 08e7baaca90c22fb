/**
 When a copy ends and when it fails at its end: what each call of the copy engine does with the
 data in hand, and that a copy whose peers carry on comes to its end.
 */
module CopyDone {
  import opened CopyEngine
  import opened CopyEnd

  // ---------------------------------------------------------------- the end of the data

  // The offset up to which the data in hand may be taken.
  function TakenTo(g: Peer): int {
    var all := g.pos + |g.buf|;
    if g.rangeLimit == FILE_END || all <= g.rangeLimit then all
    else if g.pos <= g.rangeLimit then g.rangeLimit
    else g.pos
  }

  // Nothing is in hand and nothing will come, or the end of the range is reached.
  predicate MeetsEnd(g: Peer) {
    if g.buf == [] then g.eof else g.rangeLimit != FILE_END && TakenTo(g) >= g.rangeLimit
  }

  // Something was copied, but less than the range or the known size.
  predicate Short(g: Peer, pos: int) {
    0 < pos < (if g.rangeLimit != FILE_END then g.rangeLimit else g.size)
  }

  lemma TakenIsAllowed(g: Peer)
    ensures TakenTo(g) == g.pos + Allowed(g)
  {
  }

  // What a Put that does not move the destination leaves of its other fields.
  lemma PutPeerShape(p: Peer, b: seq<Byte>, low: LowWrite)
    requires Stays(low)
    ensures var r := PutBytes(p, b, low);
      && (p.seekPos >= 0 ==> r.seekPos >= 0) && (p.error ==> r.error) && r.rangeStart == p.rangeStart
      && (low.Wrote? ==> r.error == p.error && r.broken == p.broken && r.eof == p.eof)
  {
    hide AfterWrite;
    AfterWriteShape(p.(pos := p.place), |b|, low);
  }

  lemma AfterWriteShape(p: Peer, size: nat, low: LowWrite)
    requires Stays(low)
    ensures var r := AfterWrite(p, size, low);
      && (p.seekPos >= 0 ==> r.seekPos >= 0) && (p.error ==> r.error) && r.rangeStart == p.rangeStart
      && (low.Wrote? ==> r.error == p.error && r.broken == p.broken && r.eof == p.eof)
  {
    hide Peer.StoreFailed;
    if low.Wrote? { AfterWrote(p, size, low.n); }
  }

  lemma AfterWrote(p: Peer, size: nat, n: nat)
    ensures var r := AfterWrite(p, size, Wrote(n));
      && r.error == p.error && r.broken == p.broken && r.eof == p.eof && r.seekPos >= p.seekPos
      && r.rangeStart == p.rangeStart
  {
  }

  // What a call leaves of the destination, apart from its position.
  predicate PutKept(p: Peer, r: Peer, calm: bool) {
    && (p.seekPos >= 0 ==> r.seekPos >= 0) && (p.error ==> r.error) && r.rangeStart == p.rangeStart
    && (calm ==> r.error == p.error && r.broken == p.broken && r.eof == p.eof)
  }

  lemma PutKeeps(s: Copy, b: seq<Byte>, low: LowWrite)
    requires Stays(low)
    ensures PutKept(s.put, Put(s, b, low).put, low.Wrote?)
  {
    hide PutBytes, PutAt, Written;
    PutPeerShape(s.put, b, low);
  }

  lemma PutKeptTwice(p: Peer, q: Peer, r: Peer, a: bool, b: bool)
    requires PutKept(p, q, a) && PutKept(q, r, b)
    ensures PutKept(p, r, a && b)
  {
  }

  // What no call changes.
  predicate SameSettings(s: Copy, r: Copy) {
    && r.failIfCannotSeek == s.failIfCannotSeek && r.lineBuffered == s.lineBuffered
    && r.get.rangeStart == s.get.rangeStart && r.put.rangeStart == s.put.rangeStart
  }

  // A destination has stored everything, or can do no more because its reader is gone.
  predicate Stored(p: Peer) {
    if p.eof && p.buf == [] then p.done && !p.removing else p.broken
  }

  // Once the destination is done the source is waited for, if it has something to remove.
  predicate Closing(r: Copy, g: Peer) {
    r.phase == (if g.removing then GetDoneWait else AllDone) && r.get.eof && r.get.buf == []
  }

  lemma PreGetDoneMeans(s: Copy)
    requires !s.failed && !s.get.error
    ensures var r := PreGetDone(s); !r.failed && Closing(r, s.get) && r.put == s.put && r.line == s.line
    ensures var r := PreGetDone(s); r.get == s.get.(buf := [], eof := true) && r.putEofPos == s.putEofPos
    ensures SameSettings(s, PreGetDone(s))
  {
  }

  predicate Waits(s: Copy) { !s.failed && s.phase == ConfirmWait && !s.get.error }

  ghost predicate Answered(s: Copy, r: Copy) {
    && r.failed == s.put.error && r.put == s.put && r.line == s.line && r.putEofPos == s.putEofPos
    && SameSettings(s, r)
    && (!s.put.error ==>
          if s.put.pos != s.putEofPos || s.put.seekPos == FILE_END then r.phase == DoCopy
          else if Stored(s.put) then Closing(r, s.get) && r.get == s.get.(buf := [], eof := true)
          else r == s)
  }

  /** While the end waits to be confirmed: if the destination has failed, so does the copy; if it has
      moved, copying goes on; otherwise the copy waits until the destination has stored everything. */
  lemma ConfirmMeans(s: Copy)
    requires Waits(s)
    ensures Answered(s, Confirm(s))
  {
    hide PreGetDone;
    PreGetDoneMeans(s);
  }

  // The end is accepted here, if the destination is in order.
  lemma PreConfirmMeans(s: Copy)
    requires !s.failed && !s.get.error && s.put.seekPos >= 0
    ensures var r := PreConfirm(s);
      && r.failed == s.put.error && (!r.failed ==> Ending(r.phase))
      && r.putEofPos == r.put.pos == s.put.pos && r.put == s.put.(eof := true) && r.line == s.line
      && r.get.pos == s.get.pos && r.get.rangeLimit == s.get.rangeLimit && r.get.error == s.get.error
      && (!r.failed && Confirmed(r.phase) ==> r.get.eof && r.get.buf == []) && SameSettings(s, r)
  {
    hide Confirm, Peer.Sized;
    SizedKeeps(s.get);
    var put := s.put.(eof := true);
    ConfirmMeans(s.(get := s.get.Sized(), put := put, putEofPos := s.put.pos, phase := ConfirmWait));
    PreConfirmShape(s);
  }

  /** The check of the size fails exactly if the peer that got farther got short of the limit. */
  lemma SizeOkIff(get: Peer, put: Peer)
    ensures SizeOk(get, put) <==> !Short(get, Farther(get, put))
  {
  }

  function Farther(get: Peer, put: Peer): int { if get.pos < put.pos then put.pos else get.pos }

  // The source has been read up to here, and what of it is not put is in the line buffer.
  predicate InStep(s: Copy) {
    s.get.pos == s.put.pos + |s.line| && (!s.lineBuffered ==> s.line == [])
  }

  /** At the end of the data, with the positions in step and no error at the source: the copy fails
      exactly if it is short or the destination fails; otherwise it waits for the end to be confirmed,
      with everything put. */
  lemma AtEofMeans(s: Copy, low: LowWrite)
    requires AtItsEnd(s) && Stays(low)
    ensures EndsAt(s, AtEof(s, low), s.get.pos, low.Wrote?)
  {
    hide Flushed, SizeOk, PreConfirm, Short, Peer.Sized, AfterSizeCheck;
    var f := Flushed(s, low);
    FlushedMeans(s, low);
    SizeCheckKeeps(f);
    SizeOkIff(f.get, f.put);
    PreConfirmMeans(AfterSizeCheck(f));
  }

  lemma FlushedMeans(s: Copy, low: LowWrite)
    requires InStep(s) && Settled(s) && Stays(low)
    ensures var f := Flushed(s, low);
      && f.put.pos == s.get.pos && Settled(f) && f.line == [] && f.get == s.get && f.failed == s.failed
      && PutKept(s.put, f.put, low.Wrote?) && f.lineBuffered == s.lineBuffered
      && f.failIfCannotSeek == s.failIfCannotSeek
  {
    hide Put;
    if s.lineBuffered {
      PutMoves(s, s.line, low);
      PutKeeps(s, s.line, low);
      PutShape(s, s.line, low);
    }
  }

  lemma SizeCheckKeeps(s: Copy)
    ensures var r := AfterSizeCheck(s);
      && r.put == s.put && r.line == s.line && r.failed == s.failed && r.phase == s.phase
      && r.get.pos == s.get.pos && r.get.error == s.get.error && r.get.rangeLimit == s.get.rangeLimit
      && SameSettings(s, r)
  {
    hide Peer.Sized;
    SizedKeeps(s.get);
  }

  predicate AtItsEnd(s: Copy) {
    InStep(s) && Settled(s) && !s.failed && !s.get.error && s.put.seekPos >= 0
  }

  ghost predicate EndsAt(s: Copy, r: Copy, p: int, calm: bool) {
    && r.put.pos == p && Settled(r) && r.line == [] && r.get.pos == p && !r.get.error
    && (r.failed <==> Short(s.get, p) || r.put.error)
    && (!r.failed ==> Ending(r.phase) && r.putEofPos == p && r.put.eof)
    && (!r.failed && Confirmed(r.phase) ==> r.get.eof && r.get.buf == [])
    && (calm ==> r.put.error == s.put.error && r.put.broken == s.put.broken)
    && (s.put.seekPos >= 0 ==> r.put.seekPos >= 0) && SameSettings(s, r)
  }

  // The data in hand has been taken, and is put or held back.
  ghost predicate GoesOnAt(s: Copy, r: Copy, p: int, calm: bool) {
    && r.phase == s.phase && !r.failed && r.get.pos == p && InStep(r) && Settled(r)
    && s.get.pos <= p <= s.get.pos + |s.get.buf| && r.get.buf == s.get.buf[p - s.get.pos..]
    && r.get.eof == s.get.eof && r.get.rangeLimit == s.get.rangeLimit && r.get.error == s.get.error
    && PutKept(s.put, r.put, calm) && SameSettings(s, r)
  }

  lemma PutKeptItself(p: Peer, calm: bool)
    ensures PutKept(p, p, calm)
  {
  }

  lemma LinesKeepPut(s: Copy, n: nat, inp: Inputs)
    requires n <= |s.get.buf| && Stays(inp.low1) && Stays(inp.low2)
    ensures PutKept(s.put, ThroughLine(s, n, inp).put, inp.low1.Wrote? && inp.low2.Wrote?)
  {
    hide Put, PutKept, Peer.Skip, AfterLastNewline;
    var s1 := AfterOverflow(s, inp);
    PutShape(s, s.line, inp.low1);
    var s2 := s1.(get := s1.get.Skip(n), line := s1.line + s.get.buf[..n], bytesCount := s1.bytesCount + n);
    PutKeptItself(s.put, inp.low1.Wrote?);
    PutKeeps(s, s.line, inp.low1);
    assert s2.put == s1.put;
    PassedKeepPut(s2, inp);
    PutKeptTwice(s.put, s1.put, PassLines(s2, inp).put, inp.low1.Wrote?, inp.low2.Wrote?);
  }

  lemma PassedKeepPut(s: Copy, inp: Inputs)
    requires Stays(inp.low2)
    ensures PutKept(s.put, PassLines(s, inp).put, inp.low2.Wrote?)
  {
    hide Put, PutKept, AfterLastNewline;
    var cut := if s.get.eof || s.get.error then |s.line| else AfterLastNewline(s.line);
    PutKeptItself(s.put, inp.low2.Wrote?);
    PutKeeps(s, s.line[..cut], inp.low2);
  }

  lemma StraightKeepsPut(s: Copy, n: nat, inp: Inputs)
    requires n <= |s.get.buf| && Stays(inp.low1)
    ensures PutKept(s.put, Straight(s, n, inp).put, inp.low1.Wrote?)
  {
    hide Put, PutKept;
    PutKeeps(s, s.get.buf[..n], inp.low1);
  }

  function Taken(s: Copy, inp: Inputs): Copy {
    if s.lineBuffered then ThroughLine(s, Allowed(s.get), inp) else Straight(s, Allowed(s.get), inp)
  }

  lemma SkippedGet(g: Peer, n: nat)
    requires n <= |g.buf|
    ensures var r := g.Skip(n);
      && r.pos == g.pos + n && r.buf == g.buf[n..] && r.eof == g.eof && r.error == g.error
      && r.rangeLimit == g.rangeLimit && r.size == g.size && r.removing == g.removing
      && r.rangeStart == g.rangeStart
  {
  }

  ghost predicate Calm(inp: Inputs) { inp.low1.Wrote? && inp.low2.Wrote? && inp.low3.Wrote? }

  // All the data in hand that may be taken is taken.
  lemma TakenMeans(s: Copy, inp: Inputs)
    requires InStep(s) && Settled(s) && AllStay(inp) && !s.failed
    ensures GoesOnAt(s, Taken(s, inp), TakenTo(s.get), Calm(inp))
    ensures Taken(s, inp).get.size == s.get.size
  {
    hide ThroughLine, Straight, Allowed, Peer.Skip, PutKept;
    var n := Allowed(s.get);
    TakenIsAllowed(s.get);
    SkippedGet(s.get, n);
    TakenGet(s, n, inp);
    if s.lineBuffered {
      ThroughLineMoves(s, n, inp);
      ThroughLineShape(s, n, inp);
      LinesKeepPut(s, n, inp);
      LessCalm(s.put, Taken(s, inp).put, inp.low1.Wrote? && inp.low2.Wrote?, Calm(inp));
    } else {
      StraightMoves(s, n, inp);
      StraightShape(s, n, inp);
      StraightKeepsPut(s, n, inp);
      LessCalm(s.put, Taken(s, inp).put, inp.low1.Wrote?, Calm(inp));
    }
  }

  lemma LessCalm(p: Peer, r: Peer, calm: bool, calmer: bool)
    requires PutKept(p, r, calm) && (calmer ==> calm)
    ensures PutKept(p, r, calmer)
  {
  }

  // What a call makes of the data in hand, with the positions in step.
  ghost predicate CopiedOn(s: Copy, r: Copy, inp: Inputs) {
    if MeetsEnd(s.get) then EndsAt(s, r, TakenTo(s.get), Calm(inp))
    else GoesOnAt(s, r, TakenTo(s.get), Calm(inp))
  }

  lemma CopyDataMeans(s: Copy, inp: Inputs)
    requires InStep(s) && Settled(s) && AllStay(inp) && !s.failed && !s.get.error && s.put.seekPos >= 0
    ensures CopiedOn(s, CopyData(s, inp), inp)
  {
    hide AtEof, ThroughLine, Straight, Allowed, Short, Settled;
    if s.get.buf == [] {
      AtEofMeans(s, inp.low3);
      if !s.get.eof { NothingInHand(s, inp); }
    } else {
      TakenIsAllowed(s.get);
      TakenMeans(s, inp);
      var m := Taken(s, inp);
      if MeetsEnd(s.get) {
        AtEofMeans(m, inp.low3);
        ShortAlike(s.get, m.get, TakenTo(s.get));
      }
    }
  }

  lemma NothingInHand(s: Copy, inp: Inputs)
    requires InStep(s) && Settled(s) && !s.failed && s.get.buf == []
    ensures GoesOnAt(s, s, TakenTo(s.get), Calm(inp))
  {
  }

  lemma ShortAlike(g: Peer, h: Peer, p: int)
    requires h.rangeLimit == g.rangeLimit && h.size == g.size
    ensures Short(g, p) == Short(h, p)
  {
  }

  // Nothing stands in the way of copying, and both peers are in order.
  predicate CanCopy(s: Copy, inp: Inputs) {
    && s.phase == DoCopy && !s.failed && Clear(s, inp) && s.get.rangeStart == s.put.rangeStart
    && AllStay(inp) && !s.get.error && s.put.seekPos >= 0
  }

  /** A call that copies, with no error at the source: short of the end it takes all the data in
      hand, as far as the range goes, puts or holds it back, and goes on. At the end everything is
      put, and the copy fails exactly if it is short of its limit, or if the destination fails, and
      waits for the end to be confirmed otherwise. */
  lemma CopyingCallMeans(s: Copy, inp: Inputs)
    requires CanCopy(s, inp) && InStep(s) && Settled(s)
    ensures CopiedOn(s, Do(s, inp), inp)
  {
    hide CopyData, Realign, Hindered, Clear, Short, Allowed, PutKept;
    SizedMeans(s.get);
    var s1 := s.(get := s.get.Sized());
    CopyDataMeans(s1, inp);
    assert Do(s, inp) == CopyData(s1, inp);
  }

  lemma SizedMeans(g: Peer)
    ensures var h := g.Sized();
      && h == g.(size := h.size) && TakenTo(h) == TakenTo(g) && MeetsEnd(h) == MeetsEnd(g)
      && (forall p :: p >= g.pos ==> Short(h, p) == Short(g, p))
  {
  }

  // ---------------------------------------------------------------- the positions differ

  // The source is ahead: it seeks to the destination, or the copy fails.
  ghost predicate SeeksToPut(s: Copy, r: Copy) {
    && r.put == s.put && r.dest == s.dest && r.failed == !s.get.CanSeekTo(s.put.pos)
    && (!r.failed && s.get.Seeks(s.put.pos) && s.put.pos >= 0 ==> r.get.pos == s.put.pos && r.get.buf == [])
  }

  // The destination has all of the known size.
  predicate HasAll(s: Copy) { s.get.size >= 0 && s.get.pos <= s.get.size <= s.put.pos }

  // The destination is ahead: it has everything; or it seeks to the source; or the source skips data.
  ghost predicate ComesNearer(s: Copy, r: Copy)
    requires s.get.pos < s.put.pos
  {
    if HasAll(s) then
      r.put.pos == s.put.pos && r.failed == (Short(s.get, s.put.pos) || s.put.error) && (r.failed || Ending(r.phase))
    else PassesOver(s.put, s.get.pos, s.get.buf, r)
  }

  ghost predicate PassesOver(put: Peer, at: int, data: seq<Byte>, r: Copy)
    requires at < put.pos
  {
    if put.CanSeekTo(at) && put.pos - at >= SKIP_THRESHOLD then
      !r.failed && (put.Seeks(at) && at >= 0 ==> r.put.pos == at && r.get.buf == data)
    else
      var n := if |data| < put.pos - at then |data| else put.pos - at;
      !r.failed && r.put == put && r.get.pos == at + n && r.get.buf == data[n..]
  }

  ghost predicate Nearer(s: Copy, r: Copy) {
    && r.line == []
    && (s.put.pos < s.get.pos ==> SeeksToPut(s, r))
    && (s.get.pos == s.put.pos ==> r.get.pos == r.put.pos && r.put == s.put && r.get.buf == s.get.buf && !r.failed)
    && (s.get.pos < s.put.pos ==> ComesNearer(s, r))
  }

  lemma SizedFields(g: Peer)
    ensures var h := g.Sized();
      && h.pos == g.pos && h.buf == g.buf && h.eof == g.eof && h.error == g.error && h.rangeLimit == g.rangeLimit
      && h.canSeek == g.canSeek && h.canSeek0 == g.canSeek0 && h.asciiStream == g.asciiStream && h.Sized() == h
      && h.rangeStart == g.rangeStart
  {
  }

  // m is s with the size asked for.
  lemma AheadMeans(s: Copy, m: Copy, inp: Inputs)
    requires m.get == s.get.Sized() && m.put == s.put && m.line == [] && !m.failed
    requires AllStay(inp) && !s.get.error && s.put.seekPos >= 0 && s.get.pos < s.put.pos
    ensures var r := Ahead(m, inp); ComesNearer(s, r) && r.line == []
  {
    hide Peer.Seek, SeekPut, SkipData, AtEof, Short, Peer.Sized, PassesOver, SeeksBack, CatchUp;
    SizedFields(s.get);
    SizedMeans(s.get);
    SizedIs(s.get);
    assert m.(get := m.get.Sized()) == m;
    if m.get.size >= 0 && s.put.pos >= m.get.size {
      EofAhead(m, inp.low3);
    } else {
      assert Ahead(m, inp) == CatchUp(m);
      PassingMeans(m);
    }
  }

  lemma PassingMeans(s: Copy)
    requires !s.failed && s.get.pos < s.put.pos
    ensures var r := CatchUp(s); PassesOver(s.put, s.get.pos, s.get.buf, r) && r.line == s.line
  {
    hide Peer.Seek, SeekPut, SkipData;
    if SeeksBack(s) { SeekBackShape(s); } else { SkipShape(s, s.put.pos - s.get.pos); }
  }

  lemma SizedIs(g: Peer)
    ensures g.Sized().size >= 0 <==> g.size >= g.pos && g.size >= 0
    ensures g.Sized().size >= 0 ==> g.Sized().size == g.size
  {
  }

  lemma EofAhead(s: Copy, low: LowWrite)
    requires s.line == [] && Stays(low) && !s.failed && !s.get.error && s.put.seekPos >= 0 && s.get.pos < s.put.pos
    ensures var r := AtEof(s, low);
      && r.line == [] && r.put.pos == s.put.pos
      && r.failed == (Short(s.get, s.put.pos) || s.put.error) && (r.failed || Ending(r.phase))
  {
    hide Put, SizeOk, PreConfirm, Short, Peer.Sized, AfterSizeCheck;
    var f := Flushed(s, low);
    NothingPut(s, low);
    SizeCheckKeeps(f);
    SizeOkIff(f.get, f.put);
    PreConfirmMeans(AfterSizeCheck(f));
  }

  lemma NothingPut(s: Copy, low: LowWrite)
    ensures var r := Put(s, [], low); r.put == s.put && r.get == s.get && r.line == s.line && r.failed == s.failed
  {
    assert s.put.buf + [] == s.put.buf;
  }

  lemma SeekBackShape(s: Copy)
    ensures var r := SeekPut(s, s.get.pos);
      && r.line == s.line && r.failed == s.failed && r.get == s.get
      && (s.put.Seeks(s.get.pos) && s.get.pos >= 0 ==> r.put.pos == s.get.pos)
  {
    hide HeldAfter;
  }

  lemma SkipShape(s: Copy, skip: int)
    requires skip > 0
    ensures var r := SkipData(s, skip);
      && r.line == s.line && r.failed == s.failed && r.put == s.put
      && r.get.pos == s.get.pos + (if |s.get.buf| < skip then |s.get.buf| else skip)
      && r.get.buf == s.get.buf[r.get.pos - s.get.pos..]
  {
  }

  /** A call that finds the positions differing brings the peers to one place, if one can seek, and
      nearer to each other if data has to be skipped; or ends the copy, if the destination has all of
      the known size; it fails only if the source is ahead and cannot seek. */
  lemma RealigningCallMeans(s: Copy, inp: Inputs)
    requires CanCopy(s, inp) && s.get.pos - |s.line| != s.put.pos
    ensures Nearer(s, Do(s, inp))
  {
    hide CopyData, Ahead, Behind, Hindered, Clear, Peer.Sized, SeeksToPut, ComesNearer;
    var s1 := s.(get := s.get.Sized());
    SizedFields(s.get);
    assert Do(s, inp) == Realign(s1, inp);
    var m := s1.(line := []);
    if s.get.pos < s.put.pos {
      AheadMeans(s, m, inp);
    } else if s.put.pos < s.get.pos {
      BehindMeans(s, m);
    }
  }

  lemma BehindMeans(s: Copy, m: Copy)
    requires m.get == s.get.Sized() && m.put == s.put && m.dest == s.dest && m.line == [] && !m.failed
    requires s.put.pos < s.get.pos
    ensures var r := Behind(m); SeeksToPut(s, r) && r.line == []
  {
    hide Peer.Sized, Peer.Seek;
    SizedFields(s.get);
    SeekedTo(m.get, s.put.pos);
  }

  lemma SeekedTo(g: Peer, offs: int)
    ensures var r := g.Seek(false, offs); g.Seeks(offs) && offs >= 0 ==> r.pos == offs && r.buf == []
  {
    hide Peer.SeekTo;
    SeekToShape(g, offs, 0);
    if offs >= 0 { SeekToPos(g, offs); }
  }

  lemma SeekToPos(g: Peer, offs: nat)
    ensures g.SeekTo(offs, 0).pos == offs
  {
  }

  // What a call of Do comes to while it copies or waits.
  ghost predicate CallMeans(s: Copy, r: Copy, inp: Inputs) {
    && (CanCopy(s, inp) && InStep(s) && Settled(s) ==> CopiedOn(s, r, inp))
    && (CanCopy(s, inp) && s.get.pos - |s.line| != s.put.pos ==> Nearer(s, r))
    && (Waits(s) ==> Answered(s, r))
  }

  lemma DoMeans(s: Copy, inp: Inputs)
    ensures CallMeans(s, Do(s, inp), inp)
  {
    hide Do, CopiedOn, Nearer, InStep, Settled, Answered;
    if CanCopy(s, inp) && InStep(s) && Settled(s) { CopyingCallMeans(s, inp); }
    if CanCopy(s, inp) && s.get.pos - |s.line| != s.put.pos { RealigningCallMeans(s, inp); }
    if Waits(s) {
      ConfirmMeans(s);
      WaitingCall(s, inp);
    }
  }

  lemma WaitingCall(s: Copy, inp: Inputs)
    requires Waits(s)
    ensures Do(s, inp) == Confirm(s)
  {
    hide Confirm;
  }

  // ---------------------------------------------------------------- before copying

  // From here on the call is one that copies.
  ghost predicate Continues(s: Copy, m: Copy, r: Copy, inp: Inputs) {
    m.phase == DoCopy && m.line == s.line && m.dest == s.dest && m.failed == s.failed && r == Do(m, inp)
  }

  // The source at an offset, if it can seek there.
  predicate SoughtAt(g: Peer, h: Peer, offs: int) {
    if g.canSeek && g.Seeks(offs) && offs >= 0 then h.pos == offs && h.buf == []
    else !g.canSeek || !g.Seeks(offs) ==> h.pos == g.pos && h.buf == g.buf
  }

  // The destination has no less than the known size before anything is put.
  predicate Complete(s: Copy) {
    s.put.seekPos != FILE_END && s.get.size >= 0 && s.get.pos <= s.get.size <= s.put.seekPos
  }

  lemma NotSought(g: Peer, offs: int)
    requires !g.Seeks(offs)
    ensures g.Seek(false, offs).pos == g.pos && g.Seek(false, offs).buf == g.buf
  {
  }

  // b is g, whatever its size.
  lemma SoughtMeans(g: Peer, b: Peer, offs: int)
    requires b.pos == g.pos && b.buf == g.buf && b.canSeek == g.canSeek && b.asciiStream == g.asciiStream
    ensures SoughtAt(g, if g.canSeek then b.Seek(false, offs) else b, offs)
  {
    hide Peer.Seek;
    SeekedTo(b, offs);
    if !b.Seeks(offs) { NotSought(b, offs); }
  }

  /** While the position of the destination is waited for: a destination that has all of the known
      size ends the copy; when it is ready, copying goes on with the source at its position. */
  lemma AwaitingCallMeans(s: Copy, inp: Inputs) returns (m: Copy)
    requires s.phase == PutWait && !s.failed && !s.get.error
    ensures var r := Do(s, inp);
      if s.put.error then r.failed
      else if Complete(s) then !r.failed && Ending(r.phase) && r.dest == s.dest
      else if !inp.ioReady then r.phase == PutWait && !r.failed && r.put == s.put && r.get.pos == s.get.pos
      else Continues(s, m, r, inp) && m.put == s.put && SoughtAt(s.get, m.get, s.put.pos)
  {
    hide CopyStep, PreConfirm, PreGetDone, Peer.Sized, Peer.Seek, SoughtAt, Ending;
    SizedFields(s.get);
    SizedIs(s.get);
    var s1 := if s.put.seekPos != FILE_END then s.(get := s.get.Sized()) else s;
    SoughtMeans(s.get, s1.get, s.put.pos);
    m := (if s.get.canSeek then SeekGet(s1, s.put.pos) else s1).(phase := DoCopy);
    if !s.put.error && Complete(s) { CompleteEnds(s1); }
  }

  lemma CompleteEnds(s: Copy)
    requires !s.failed && !s.get.error && !s.put.error && s.put.seekPos >= 0
    ensures var r := PreConfirm(s); !r.failed && Ending(r.phase) && r.dest == s.dest
    ensures var r := PreGetDone(s); !r.failed && Ending(r.phase) && r.dest == s.dest
  {
    hide PreConfirm, PreGetDone, Peer.Sized;
    PreConfirmMeans(s);
    PreConfirmShape(s);
    PreGetDoneMeans(s);
    PreGetDoneShape(s);
  }

  /** The first call, not continuing an old file, copies from the start of the range, as far as the
      peers can seek; continuing one, it has the destination look for its end. */
  lemma FirstCallMeans(s: Copy, inp: Inputs) returns (m: Copy)
    requires s.phase == Initial && !s.failed
    ensures var r := Do(s, inp);
      if s.cont && s.put.canSeek then
        m.phase == PutWait && m.put == s.put.Seek(true, FILE_END) && m.get == s.get && r == Do(m, inp)
      else
        && m.phase == DoCopy && m.line == s.line && m.failed == s.failed && r == Do(m, inp)
        && m.put == (if s.put.rangeStart > 0 && s.put.canSeek then s.put.Seek(true, s.put.rangeStart) else s.put)
        && m.get == (if s.get.rangeStart > 0 && s.get.canSeek then s.get.Seek(false, s.get.rangeStart) else s.get)
  {
    hide CopyStep, AwaitPut, Peer.Seek, HeldAfter;
    var s0 := s.(low := s.put.place);
    if s.cont && s.put.canSeek {
      m := StartPutAt(s0, FILE_END).(phase := PutWait);
    } else {
      m := AtRangeStart(s0).(phase := DoCopy);
    }
  }

  // ---------------------------------------------------------------- a copy whose peers carry on

  /** The peers carry on from where they are: the source brings more data, or its end, which it does
      not before it has brought as much as it promised; the destination stores what it is given;
      neither fails, and no time runs out. */
  ghost predicate CarriesOn(s: Copy, t: Turn) {
    && t.get.rangeStart == s.get.rangeStart && t.put.rangeStart == s.put.rangeStart
    && t.get.pos == s.get.pos && t.get.rangeLimit == s.get.rangeLimit && !t.get.error
    && (t.get.eof ==> !Short(t.get, t.get.pos + |t.get.buf|))
    && (s.get.eof ==> t.get.eof && t.get.buf == s.get.buf)
    && t.put.pos == t.put.place == s.put.pos && t.put.eof == s.put.eof && t.put.seekPos >= 0
    && !t.put.error && !t.put.broken && !t.inp.timeout && Calm(t.inp)
  }

  ghost predicate CarryOn(s: Copy, turns: seq<Turn>)
    decreases |turns|
  {
    turns == [] || (CarriesOn(s, turns[0]) && CarryOn(Do(Moved(s, turns[0]), turns[0].inp), turns[1..]))
  }

  // A copy that is on its way, with the positions in step.
  ghost predicate OnCourse(s: Copy) {
    && !s.failed && (!s.lineBuffered ==> s.line == []) && SeeksAreFine(s)
    && s.get.rangeStart == s.put.rangeStart
    && match s.phase
       case Initial => !s.cont && s.line == [] && s.get.pos == s.put.pos == s.put.rangeStart
       case PutWait => false
       case DoCopy => InStep(s)
       case ConfirmWait => s.putEofPos == s.put.pos && s.put.eof && s.line == []
       case GetDoneWait => s.get.eof && s.get.buf == [] && s.line == []
       case AllDone => true
  }

  // If seeks must not fail, none has failed, and no line is held back, which would look like it.
  predicate SeeksAreFine(s: Copy) {
    s.failIfCannotSeek ==> !s.lineBuffered && s.put.rangeStart <= s.put.pos
  }

  // All that will come is in hand.
  predicate Brought(g: Peer) { g.eof || MeetsEnd(g) }

  // What a turn comes to.
  ghost predicate Advances(s: Copy, t: Turn, r: Copy) {
    && OnCourse(r)
    && (s.phase == Initial || s.phase == DoCopy ==>
          if MeetsEnd(t.get) then Ending(r.phase)
          else r.phase == DoCopy && (t.get.eof ==> r.get.eof && r.get.buf == []))
    && (Ending(s.phase) ==> Ending(r.phase))
    && (Ending(s.phase) && Stored(t.put) && !t.get.removing ==> r.phase == AllDone)
    && (s.phase == AllDone ==> r.phase == AllDone)
  }

  lemma CarriedPhase(s: Copy, t: Turn)
    ensures var m := Moved(s, t);
      && m.get == t.get && m.put == t.put && m.phase == s.phase && m.failed == s.failed && m.line == s.line
      && m.cont == s.cont && m.putEofPos == s.putEofPos && m.failIfCannotSeek == s.failIfCannotSeek
      && m.lineBuffered == s.lineBuffered
  {
    hide Below, Written;
  }

  // The first call begins to copy at once.
  lemma BeginsToCopy(m: Copy, inp: Inputs)
    requires m.phase == Initial && !m.failed && !m.cont
    requires m.get.pos == m.put.pos == m.put.rangeStart == m.get.rangeStart
    ensures Do(m, inp) == Do(m.(low := m.put.place, phase := DoCopy), inp)
  {
    hide CopyStep;
    var s := m.(low := m.put.place);
    StaysPut(s);
  }

  lemma StaysPut(s: Copy)
    requires s.get.pos == s.put.pos == s.put.rangeStart == s.get.rangeStart && s.low == s.put.place
    ensures AtRangeStart(s) == s
  {
  }

  lemma CopyingTurn(m: Copy, inp: Inputs)
    requires m.phase == DoCopy && !m.failed && SeeksAreFine(m) && InStep(m) && Settled(m)
    requires m.get.rangeStart == m.put.rangeStart && m.put.seekPos >= 0 && Calm(inp) && !inp.timeout
    requires !m.get.error && !m.put.error && !m.put.broken
    requires m.get.eof ==> !Short(m.get, m.get.pos + |m.get.buf|)
    ensures var r := Do(m, inp);
      && CopiedOn(m, r, inp) && !r.failed
      && (MeetsEnd(m.get) ==> Ending(r.phase))
      && (!MeetsEnd(m.get) && m.get.eof ==> r.get.eof && r.get.buf == [])
  {
    hide Do, PutKept;
    CopyingCallMeans(m, inp);
  }

  lemma StillCopying(s: Copy, t: Turn)
    requires OnCourse(s) && CarriesOn(s, t) && s.phase == DoCopy
    ensures Advances(s, t, Do(Moved(s, t), t.inp))
  {
    hide Do, Moved, GoesOnAt, EndsAt, Short, TakenTo;
    CarriedPhase(s, t);
    CopyingTurn(Moved(s, t), t.inp);
    CopiedIsOnCourse(Moved(s, t), Do(Moved(s, t), t.inp), t.inp);
  }

  lemma CopiedIsOnCourse(m: Copy, r: Copy, inp: Inputs)
    requires CopiedOn(m, r, inp) && !r.failed && SeeksAreFine(m) && m.get.rangeStart == m.put.rangeStart
    requires m.phase == DoCopy && InStep(m)
    ensures OnCourse(r)
    ensures !MeetsEnd(m.get) ==> r.phase == DoCopy
  {
    hide Short, MeetsEnd;
  }

  lemma FirstTurn(s: Copy, t: Turn)
    requires OnCourse(s) && CarriesOn(s, t) && s.phase == Initial
    ensures Advances(s, t, Do(Moved(s, t), t.inp))
  {
    hide Do, Moved, GoesOnAt, EndsAt, Short, TakenTo;
    CarriedPhase(s, t);
    var m := Moved(s, t);
    BeginsToCopy(m, t.inp);
    var m' := m.(low := m.put.place, phase := DoCopy);
    CopyingTurn(m', t.inp);
    CopiedIsOnCourse(m', Do(m', t.inp), t.inp);
  }

  lemma EndingTurn(s: Copy, t: Turn)
    requires OnCourse(s) && CarriesOn(s, t) && Ending(s.phase)
    ensures Advances(s, t, Do(Moved(s, t), t.inp))
  {
    hide Moved, Confirm, Short, MeetsEnd;
    CarriedPhase(s, t);
    var m := Moved(s, t);
    if s.phase == ConfirmWait {
      ConfirmMeans(m);
    }
  }

  lemma TurnAdvances(s: Copy, t: Turn)
    requires OnCourse(s) && CarriesOn(s, t)
    ensures Advances(s, t, Do(Moved(s, t), t.inp))
  {
    hide Do, Moved, Advances, CarriesOn;
    if s.phase == Initial {
      FirstTurn(s, t);
    } else if s.phase == DoCopy {
      StillCopying(s, t);
    } else {
      EndingTurn(s, t);
    }
  }

  // How far a copy has come, with all brought by turn i and everything stored at turn k.
  predicate Expects(s: Copy, turns: seq<Turn>, i: int, k: int) {
    || s.phase == AllDone
    || (0 <= k < |turns| && Stored(turns[k].put) && !turns[k].get.removing &&
        (|| Ending(s.phase)
         || (s.phase == DoCopy && s.get.eof && s.get.buf == [] && 1 <= k)
         || (0 <= i && i + 2 <= k && Brought(turns[i].get))))
  }

  lemma ExpectsOn(s: Copy, turns: seq<Turn>, r: Copy, i: int, k: int)
    requires turns != [] && OnCourse(s) && CarriesOn(s, turns[0]) && Advances(s, turns[0], r)
    requires Expects(s, turns, i, k)
    ensures Expects(r, turns[1..], i - 1, k - 1)
  {
    hide Stored, TakenTo, Short;
  }

  /** A copy on its way whose peers carry on comes to its end, without failing: once the source has
      brought all that it promised, two more calls accept the end, and the destination having stored
      everything at any turn after that, with nothing to remove at the source, it is done. */
  lemma {:induction false} CopyCompletes(s: Copy, turns: seq<Turn>, i: int, k: int)
    requires OnCourse(s) && CarryOn(s, turns) && Expects(s, turns, i, k)
    ensures Run(s, turns).phase == AllDone && !Run(s, turns).failed
    decreases |turns|
  {
    hide Do, Moved, CarriesOn, Advances, Stored, Brought;
    if turns != [] {
      var r := Do(Moved(s, turns[0]), turns[0].inp);
      TurnAdvances(s, turns[0]);
      assert OnCourse(r) by { AdvancesMeans(s, turns[0], r); }
      ExpectsOn(s, turns, r, i, k);
      CopyCompletes(r, turns[1..], i - 1, k - 1);
    }
  }

  lemma AdvancesMeans(s: Copy, t: Turn, r: Copy)
    requires Advances(s, t, r)
    ensures OnCourse(r)
  {
  }

  /** A fresh copy, undisturbed, of a source of known size, whose peers carry on until all has been
      brought and then stored, is done and has not failed, and the destination holds all of the
      source from where the copy began to its end. */
  lemma WholeCopyCompletes(source: seq<Byte>, get: Peer, put: Peer, lineBuffered: bool, lineMax: int,
                           failIfCannotSeek: bool, failIfBroken: bool, turns: seq<Turn>, limit: int, i: nat, k: nat)
    requires failIfCannotSeek ==> !lineBuffered
    requires get.pos == put.pos == get.rangeStart == put.rangeStart && Sized(turns, limit)
    requires i + 2 <= k < |turns| && Brought(turns[i].get) && Stored(turns[k].put) && !turns[k].get.removing
    requires turns[0].get.rangeLimit == FILE_END ==> turns[0].get.size == limit
    requires GoodRun(source, Start(get, put, false, lineBuffered, lineMax, failIfCannotSeek, failIfBroken), turns)
    requires CarryOn(Start(get, put, false, lineBuffered, lineMax, failIfCannotSeek, failIfBroken), turns)
    ensures var s := Run(Start(get, put, false, lineBuffered, lineMax, failIfCannotSeek, failIfBroken), turns);
      && s.phase == AllDone && !s.failed && (s.putEofPos <= 0 || s.putEofPos >= limit)
      && Copied(source, s.dest, Beginning(turns[0].put), s.putEofPos)
      && (s.put.broken || s.put.buf == [])
  {
    hide GoodRun, CarryOn, Run, Copied, Brought, Stored, Sized;
    CopyCompletes(Start(get, put, false, lineBuffered, lineMax, failIfCannotSeek, failIfBroken), turns, i, k);
    WholeCopyArrives(source, get, put, lineBuffered, lineMax, failIfCannotSeek, failIfBroken, turns, limit);
  }
}

/**
 FileCopy.cc's own objects: two peers and the copy that joins them, each updated in place.
 Every method is proved to leave the objects as the corresponding function of CopyEngine says,
 so that CopyEngine's theorems about whole runs are theorems about these methods.
 */
module FileCopy {
  import opened E = CopyEngine
  import opened CopyEnd
  import D = CopyDone

  // Every byte stays where it belongs, whatever the source.
  ghost predicate Keeps(was: Copy, now: Copy) {
    forall source :: Inv(source, was) ==> Inv(source, now)
  }

  /** FileCopyPeer: the end of a copy that data is got from or put to. */
  class FileCopyPeer {
    const isPut: bool
    var pos: int
    var place: int
    var buffer: seq<Byte>
    var seekPos: int
    var eof: bool
    var error: bool
    var broken: bool
    var done: bool
    var removing: bool
    var size: int
    var canSeek: bool
    var canSeek0: bool
    var asciiStream: bool
    var rangeStart: int
    var rangeLimit: int

    function Value(): Peer
      reads this
    {
      Peer(pos, place, buffer, seekPos, eof, error, broken, done, removing, size, canSeek, canSeek0, asciiStream,
           rangeStart, rangeLimit)
    }

    constructor (isPut: bool)
      ensures Value() ==
        Peer(0, 0, [], 0, false, false, false, false, false, NO_SIZE_YET, false, false, false, 0, FILE_END)
      ensures this.isPut == isPut
    {
      this.isPut := isPut;
      pos, place, buffer, seekPos, size := 0, 0, [], 0, NO_SIZE_YET;
      eof, error, broken, done, removing := false, false, false, false, false;
      canSeek, canSeek0, asciiStream := false, false, false;
      rangeStart, rangeLimit := 0, FILE_END;
    }

    method Done() returns (r: bool)
      ensures r == Value().Done(isPut)
    {
      if error { return true; }
      if eof && |buffer| == 0 {
        if removing { return false; }
        return if isPut then done else true;
      }
      return broken;
    }

    method Skip(n: nat)
      requires n <= |buffer|
      modifies this
      ensures Value() == old(Value()).Skip(n)
    {
      buffer := buffer[n..];
      pos := pos + n;
    }

    // Asking for the size forgets one that the position has passed.
    method GetSize() returns (n: int)
      modifies this
      ensures Value() == old(Value()).Sized() && n == size
    {
      if size >= 0 && pos > size { size := NO_SIZE_YET; }
      return size;
    }

    method Seek(offs: int)
      modifies this
      ensures Value() == old(Value()).Seek(isPut, offs)
    {
      hide Peer.SeekTo;
      if pos == offs { return; }
      if asciiStream && offs != 0 {
        canSeek := false;
        return;
      }
      SeekTo(offs, if isPut then |buffer| else 0);
    }

    method SeekTo(offs: int, unwritten: nat)
      modifies this
      ensures Value() == old(Value()).SeekTo(offs, unwritten)
    {
      seekPos, buffer, eof, broken := offs, [], false, false;
      if offs == FILE_END {
        pos, place := pos - unwritten, place - unwritten;
      } else {
        pos, place := offs, offs;
      }
    }

    // The store has failed: the session is closed, and will be opened again somewhere else.
    method FailStore(end: nat, known: bool)
      requires isPut
      modifies this
      ensures Value() == old(Value()).StoreFailed(end, known)
    {
      if canSeek && seekPos > 0 { Seek(FILE_END); } else { Seek(0); }
      if seekPos == FILE_END {
        place := end;
        if known { seekPos := end; }
      } else {
        place := seekPos;
      }
    }

    // `low` says what the direct attempt of a large Put comes to; `at` is where b goes.
    method Put(b: seq<Byte>, low: LowWrite) returns (ghost at: int)
      requires isPut
      modifies this
      ensures Value() == PutBytes(old(Value()), b, low) && at == PutAt(old(Value()), b, low)
      ensures Stays(low) ==>
        at == old(place) && place == old(place) + |b| && BufferStaysRight(old(Value()), Value(), b)
      ensures Stays(low) && old(pos) == old(place) ==> pos == place
    {
      hide SourceAt;
      ghost var was := Value();
      Append(b, low);
      at := PutAt(was, b, low);
      if Stays(low) {
        forall source | SourceAt(source, was.place - |was.buf|, was.buf) && SourceAt(source, was.place, b)
          ensures SourceAt(source, place - |buffer|, buffer)
        {
          PutBufferRight(source, was, b, low);
        }
        PutGoesOn(was, b, low);
      }
    }

    // The direct attempt, if there is one, and how much of b it takes.
    method Attempt(b: seq<Byte>, low: LowWrite) returns (n: nat)
      requires isPut
      modifies this
      ensures Value() == Attempted(old(Value()), b, low) && n == DirectCount(old(Value()), b, low) && n <= |b|
    {
      hide AfterWrite;
      n := 0;
      if |b| >= PUT_LL_MIN && |buffer| == 0 {
        pos := place;
        n := WriteDirectly(|b|, low);
      }
    }

    // The session was found somewhere else.
    method Displace(to: int)
      modifies this
      ensures Value() == old(Value()).(pos := to, place := to, canSeek := false)
    {
      pos, place, canSeek := to, to, false;
    }

    method SetFailed()
      modifies this
      ensures Value() == old(Value()).(error := true)
    {
      error := true;
    }

    method SetBroken()
      modifies this
      ensures Value() == old(Value()).(broken := true, eof := true)
    {
      broken, eof := true, true;
    }

    method Advance(n: nat)
      modifies this
      ensures Value() == old(Value()).(seekPos := old(seekPos) + n)
    {
      seekPos := seekPos + n;
    }

    method WriteDirectly(size: nat, low: LowWrite) returns (n: nat)
      requires isPut
      modifies this
      ensures Value() == AfterWrite(old(Value()), size, low)
      ensures n == if !low.Wrote? then 0 else if low.n <= size then low.n else size
    {
      hide Peer.StoreFailed;
      n := 0;
      match low
      case Wrote(k) =>
        n := if k <= size then k else size;
        Advance(n);
      case WriteError => SetFailed();
      case BrokenPipe => SetBroken();
      case Displaced(to) => Displace(to);
      case StoreFailed(end, known) => FailStore(end, known);
    }

    method Append(b: seq<Byte>, low: LowWrite)
      requires isPut
      modifies this
      ensures Value() == PutBytes(old(Value()), b, low)
    {
      hide Attempted;
      var n := Attempt(b, low);
      buffer := buffer + b[n..];
      pos, place := pos + |b|, place + |b|;
    }
  }

  // What a destination buffers is still the source's, if what was put is.
  ghost predicate BufferStaysRight(was: Peer, now: Peer, b: seq<Byte>) {
    forall source :: SourceAt(source, was.place - |was.buf|, was.buf) && SourceAt(source, was.place, b) ==>
      SourceAt(source, now.place - |now.buf|, now.buf)
  }

  lemma PutGoesOn(p: Peer, b: seq<Byte>, low: LowWrite)
    requires Stays(low)
    ensures PutAt(p, b, low) == p.place && PutBytes(p, b, low).place == p.place + |b|
    ensures p.pos == p.place ==> PutBytes(p, b, low).pos == p.place + |b|
  {
    hide PutBytes, PutAt;
    PutBytesShape(p, b, low);
  }

  lemma AtEofKeeps(was: Copy, w: LowWrite)
    ensures Stays(w) && (was.line == [] || was.lineAt == was.put.place) ==> Keeps(was, AtEof(was, w))
  {
    hide Inv, AtEof;
    if Stays(w) && (was.line == [] || was.lineAt == was.put.place) {
      forall source | Inv(source, was) ensures Inv(source, AtEof(was, w)) {
        AtEofKeepsInv(source, was, w);
      }
    }
  }

  lemma ThroughLineKeeps(was: Copy, n: nat, inp: Inputs)
    requires n <= |was.get.buf|
    ensures AllStay(inp) && Aligned(was) && was.lineBuffered ==> Keeps(was, ThroughLine(was, n, inp))
  {
    hide Inv, ThroughLine;
    if AllStay(inp) && Aligned(was) && was.lineBuffered {
      forall source | Inv(source, was) ensures Inv(source, ThroughLine(was, n, inp)) {
        ThroughLineKeepsInv(source, was, n, inp);
      }
    }
  }

  lemma StraightKeeps(was: Copy, n: nat, inp: Inputs)
    requires n <= |was.get.buf|
    ensures AllStay(inp) && Aligned(was) && was.line == [] ==> Keeps(was, Straight(was, n, inp))
  {
    hide Inv, Straight;
    if AllStay(inp) && Aligned(was) && was.line == [] {
      forall source | Inv(source, was) ensures Inv(source, Straight(was, n, inp)) {
        StraightKeepsInv(source, was, n, inp);
      }
    }
  }

  lemma CopyDataKeeps(was: Copy, inp: Inputs)
    ensures AllStay(inp) && Aligned(was) ==> Keeps(was, CopyData(was, inp))
  {
    hide Inv, CopyData;
    if AllStay(inp) && Aligned(was) {
      forall source | Inv(source, was) ensures Inv(source, CopyData(was, inp)) {
        CopyDataKeepsInv(source, was, inp);
      }
    }
  }

  lemma RealignKeeps(was: Copy, inp: Inputs)
    ensures AllStay(inp) && Settled(was) && !(FallsBehind(was) && Loses(was)) ==> Keeps(was, Realign(was, inp))
  {
    hide Inv, Realign, Loses, FallsBehind;
    if AllStay(inp) && Settled(was) && !(FallsBehind(was) && Loses(was)) {
      forall source | Inv(source, was) ensures Inv(source, Realign(was, inp)) {
        RealignKeepsInvIff(source, was, inp);
      }
    }
  }

  lemma CopyStepKeeps(was: Copy, inp: Inputs)
    ensures Undisturbed(was, inp) && was.phase == DoCopy && !was.failed ==> Keeps(was, CopyStep(was, inp))
  {
    hide Inv, CopyStep, Loses, CallSeeksBack;
    if Undisturbed(was, inp) && was.phase == DoCopy && !was.failed {
      forall source | Inv(source, was) ensures Inv(source, CopyStep(was, inp)) {
        CopyStepKeepsInvIff(source, was, inp);
      }
    }
  }

  lemma AwaitPutKeeps(was: Copy, inp: Inputs)
    ensures AllStay(inp) && Untouched(was) ==> Keeps(was, AwaitPut(was, inp))
  {
    hide Inv, AwaitPut;
    if AllStay(inp) && Untouched(was) {
      forall source | Inv(source, was) ensures Inv(source, AwaitPut(was, inp)) {
        AwaitPutKeepsInv(source, was, inp);
      }
    }
  }

  // Nothing has been put or held back yet.
  predicate Untouched(s: Copy) {
    s.line == [] && Settled(s) && s.put.buf == [] && !s.failed
  }

  lemma BeginKeeps(was: Copy, inp: Inputs)
    ensures AllStay(inp) && Untouched(was) ==> Keeps(was, Begin(was, inp))
  {
    hide Inv, Begin;
    if AllStay(inp) && Untouched(was) {
      forall source | Inv(source, was) ensures Inv(source, Begin(was, inp)) {
        BeginKeepsInv(source, was, inp);
      }
    }
  }

  lemma DoKeeps(was: Copy, inp: Inputs)
    ensures Undisturbed(was, inp) && EarlyLineEmpty(was) ==> Keeps(was, Do(was, inp))
  {
    hide Inv, Do, Undisturbed;
    if Undisturbed(was, inp) && EarlyLineEmpty(was) {
      forall source | Inv(source, was) ensures Inv(source, Do(was, inp)) {
        DoKeepsInv(source, was, inp);
      }
    }
  }

  // With what is held back the destination has all that was taken from the source.
  predicate CaughtUp(s: Copy) {
    Settled(s) && s.get.pos <= s.put.pos + |s.line| && (s.lineBuffered || s.line == [])
  }

  lemma EofReaches(was: Copy, w: LowWrite)
    ensures Stays(w) && CaughtUp(was) ==>
              forall limit :: Limit(was.get, limit) ==> AtEof(was, w).failed || Reached(AtEof(was, w), limit)
  {
    hide AtEof, Limit, Reached;
    if Stays(w) && CaughtUp(was) {
      forall limit | Limit(was.get, limit) ensures AtEof(was, w).failed || Reached(AtEof(was, w), limit) {
        AtEofReached(was, w, limit);
      }
    }
  }

  /** FileCopy: joins a source peer to a destination peer. The ghost fields keep the history
      that CopyEngine's invariant speaks of. */
  class FileCopy {
    const get: FileCopyPeer
    const put: FileCopyPeer
    var phase: Phase
    var cont: bool
    var failed: bool
    var lineBuffered: bool
    var line: seq<Byte>
    var lineMax: int
    var bytesCount: int
    var putEofPos: int
    var failIfCannotSeek: bool
    var failIfBroken: bool
    ghost var dest: map<int, Byte>
    ghost var low: int
    ghost var lineAt: int

    ghost predicate Valid() {
      get != put && !get.isPut && put.isPut
    }

    ghost function Value(): Copy
      reads this, get, put
    {
      Copy(phase, get.Value(), put.Value(), cont, failed, lineBuffered, line, lineMax, bytesCount, putEofPos,
           failIfCannotSeek, failIfBroken, dest, low, lineAt)
    }

    constructor (source: FileCopyPeer, destination: FileCopyPeer, cont: bool, lineBuffered: bool, lineMax: int,
                 failIfCannotSeek: bool, failIfBroken: bool)
      requires source != destination && !source.isPut && destination.isPut
      requires source.buffer == [] && destination.buffer == []
      ensures Valid() && get == source && put == destination
      ensures Value() ==
        Start(source.Value(), destination.Value(), cont, lineBuffered, lineMax, failIfCannotSeek, failIfBroken)
    {
      get, put := source, destination;
      phase, this.cont, failed := Initial, cont, false;
      this.lineBuffered, line, this.lineMax := lineBuffered, [], lineMax;
      bytesCount, putEofPos := 0, 0;
      this.failIfCannotSeek, this.failIfBroken := failIfCannotSeek, failIfBroken;
      dest, low, lineAt := map[], destination.place, 0;
    }

    method SetError()
      modifies this
      ensures Value() == Fail(old(Value()))
    {
      failed := true;
    }

    method PutData(b: seq<Byte>, w: LowWrite)
      requires Valid()
      modifies this, put
      ensures Value() == Put(old(Value()), b, w)
      ensures Stays(w) ==> put.place == old(put.place) + |b|
      ensures Stays(w) && old(put.pos) == old(put.place) ==> put.pos == put.place
      ensures Stays(w) ==>
        forall source :: Inv(source, old(Value())) && SourceAt(source, old(put.place), b) ==> Inv(source, Value())
    {
      hide Inv, SourceAt, PutBytes;
      ghost var was := Value();
      ghost var at := put.Put(b, w);
      dest, low := dest + Written(at, b), Min(low, at);
      if Stays(w) {
        forall source | Inv(source, was) && SourceAt(source, was.put.place, b) ensures Inv(source, Value()) {
          PutKeepsInv(source, was, b, w);
        }
      }
    }

    method CheckFileSizeAtEOF() returns (ok: bool)
      requires Valid()
      modifies get
      ensures Value() == AfterSizeCheck(old(Value()))
      ensures ok == SizeOk(old(get.Value()), put.Value())
      ensures ok <==> !D.Short(old(get.Value()), D.Farther(old(get.Value()), put.Value()))
      ensures ok && old(get.pos) <= put.pos ==>
        forall limit :: Limit(old(get.Value()), limit) ==> put.pos <= 0 || put.pos >= limit
    {
      var limit := get.rangeLimit;
      if limit == FILE_END {
        var size := get.GetSize();
        if size == NO_SIZE || size == NO_SIZE_YET { return true; }
        limit := size;
      }
      var pos := if get.pos > put.pos then get.pos else put.pos;
      return pos <= 0 || pos >= limit;
    }

    method GetDoneStep()
      requires Valid()
      modifies this
      ensures Value() == GetDone(old(Value()))
    {
      if get.error {
        SetError();
      } else {
        var done := get.Done();
        if done { phase := AllDone; }
      }
    }

    method PreGetDoneStep()
      requires Valid()
      modifies this, get
      ensures Value() == PreGetDone(old(Value()))
    {
      hide GetDone;
      get.buffer, get.eof := [], true;
      phase := GetDoneWait;
      GetDoneStep();
    }

    method ConfirmStep()
      requires Valid()
      modifies this, get
      ensures Value() == Confirm(old(Value()))
      ensures phase == GetDoneWait || phase == AllDone ==>
                old(phase) == phase || (put.pos == putEofPos && put.Value().Done(true) && !put.error)
      ensures D.Waits(old(Value())) ==> D.Answered(old(Value()), Value())
    {
      ghost var was := Value();
      AnswerConfirm();
      if D.Waits(was) { D.ConfirmMeans(was); }
    }

    method AnswerConfirm()
      requires Valid()
      modifies this, get
      ensures Value() == Confirm(old(Value()))
      ensures phase == GetDoneWait || phase == AllDone ==>
                old(phase) == phase || (put.pos == putEofPos && put.Value().Done(true) && !put.error)
    {
      if put.error {
        SetError();
      } else if putEofPos != put.pos || put.seekPos == FILE_END {
        phase := DoCopy;
      } else {
        var done := put.Done();
        if done { PreGetDoneStep(); }
      }
    }

    method PreConfirmStep()
      requires Valid()
      modifies this, get, put
      ensures Value() == PreConfirm(old(Value()))
    {
      hide Confirm, Peer.Sized;
      var _ := get.GetSize();
      put.eof := true;
      putEofPos, phase := put.pos, ConfirmWait;
      ConfirmStep();
    }

    method FlushAndConfirm(w: LowWrite)
      requires Valid()
      modifies this, get, put
      ensures Value() == AtEof(old(Value()), w)
    {
      hide AfterSizeCheck, SizeOk, PreConfirm, Put, Inv;
      if lineBuffered {
        PutData(line, w);
        line := [];
      }
      var ok := CheckFileSizeAtEOF();
      if ok { PreConfirmStep(); } else { SetError(); }
    }

    method Eof(w: LowWrite)
      requires Valid()
      modifies this, get, put
      ensures Value() == AtEof(old(Value()), w)
      ensures Stays(w) && (old(line) == [] || old(lineAt) == old(put.place)) ==> Keeps(old(Value()), Value())
      ensures Stays(w) && D.AtItsEnd(old(Value())) ==> D.EndsAt(old(Value()), Value(), old(get.pos), w.Wrote?)
      ensures Stays(w) && CaughtUp(old(Value())) ==>
                forall limit :: Limit(old(get.Value()), limit) ==> failed || Reached(Value(), limit)
    {
      hide Keeps, Aligned, AllStay, Limit, Reached, AtEof, D.EndsAt, D.AtItsEnd;
      ghost var was := Value();
      FlushAndConfirm(w);
      if Stays(w) && D.AtItsEnd(was) { D.AtEofMeans(was, w); }
      AtEofKeeps(was, w);
      EofReaches(was, w);
    }

    // The scan for the last newline.
    method LastNewline(b: seq<Byte>) returns (n: nat)
      ensures n == AfterLastNewline(b) && n <= |b|
    {
      n := |b|;
      while n > 0 && b[n - 1] != NEWLINE
        invariant n <= |b| && AfterLastNewline(b) == AfterLastNewline(b[..n])
      {
        assert b[..n][..n - 1] == b[..n - 1];
        n := n - 1;
      }
    }

    method CopyThroughLine(n: nat, inp: Inputs)
      requires Valid() && n <= |get.buffer|
      modifies this, get, put
      ensures Value() == ThroughLine(old(Value()), n, inp)
      ensures AllStay(inp) && Aligned(old(Value())) && old(lineBuffered) ==> Keeps(old(Value()), Value())
    {
      hide Keeps, Aligned, AllStay, Put, Peer.Skip;
      ghost var was := Value();
      hide PassLines;
      var b := get.buffer[..n];
      if |line| > lineMax {
        PutData(line, inp.low1);
        line := [];
      }
      line := line + b;
      get.Skip(n);
      bytesCount := bytesCount + n;
      PassWholeLines(inp);
      ThroughLineKeeps(was, n, inp);
    }

    method PassWholeLines(inp: Inputs)
      requires Valid()
      modifies this, put
      ensures Value() == PassLines(old(Value()), inp)
    {
      hide PutBytes, PutAt, AfterLastNewline;
      var last := get.eof || get.error;
      var cut := |line|;
      if !last { cut := LastNewline(line); }
      if cut > 0 || last {
        PutData(line[..cut], inp.low2);
        line := line[cut..];
      }
      lineAt := get.pos - |line|;
    }

    method CopyStraight(n: nat, inp: Inputs)
      requires Valid() && n <= |get.buffer|
      modifies this, get, put
      ensures Value() == Straight(old(Value()), n, inp)
      ensures AllStay(inp) && Aligned(old(Value())) && old(line) == [] ==> Keeps(old(Value()), Value())
    {
      hide Keeps, Aligned, AllStay, Put, Peer.Skip;
      ghost var was := Value();
      PutData(get.buffer[..n], inp.low1);
      get.Skip(n);
      bytesCount := bytesCount + n;
      StraightKeeps(was, n, inp);
    }

    method CopyAvailable(inp: Inputs)
      requires Valid()
      modifies this, get, put
      ensures Value() == CopyData(old(Value()), inp)
      ensures AllStay(inp) && Aligned(old(Value())) ==> Keeps(old(Value()), Value())
    {
      hide Keeps, Aligned;
      ghost var was := Value();
      hide AtEof, ThroughLine, Straight;
      if |get.buffer| > 0 {
        var n := |get.buffer|;
        if get.rangeLimit != FILE_END && get.rangeLimit < get.pos + n {
          n := if get.rangeLimit < get.pos then 0 else get.rangeLimit - get.pos;
        }
        if lineBuffered { CopyThroughLine(n, inp); } else { CopyStraight(n, inp); }
        if get.rangeLimit != FILE_END && get.rangeLimit <= get.pos { Eof(inp.low3); }
      } else if get.eof {
        Eof(inp.low3);
      }
      CopyDataKeeps(was, inp);
    }

    method SkipTowards(skip: int)
      requires Valid() && skip > 0
      modifies this, get
      ensures Value() == SkipData(old(Value()), skip)
    {
      var n := if skip > |get.buffer| then |get.buffer| else skip;
      if n != 0 {
        get.Skip(n);
        bytesCount := bytesCount + n;
      }
    }

    method SeekPutBack()
      requires Valid()
      modifies this, put
      ensures Value() == SeekPut(old(Value()), get.pos)
    {
      dest := HeldAfter(dest, put.Value(), get.pos);
      put.Seek(get.pos);
      low := Min(low, put.place);
    }

    method CatchUpStep()
      requires Valid() && get.pos < put.pos
      modifies this, get, put
      ensures Value() == CatchUp(old(Value()))
    {
      hide SkipData, SeekPut;
      var skip := put.pos - get.pos;
      if put.Value().CanSeekTo(get.pos) && skip >= SKIP_THRESHOLD { SeekPutBack(); } else { SkipTowards(skip); }
    }

    method AheadStep(inp: Inputs)
      requires Valid() && get.pos < put.pos
      modifies this, get, put
      ensures Value() == Ahead(old(Value()), inp)
    {
      hide AtEof, CatchUp;
      var size := get.GetSize();
      if size >= 0 && put.pos >= size { Eof(inp.low3); } else { CatchUpStep(); }
    }

    method BehindStep()
      requires Valid()
      modifies this, get
      ensures Value() == Behind(old(Value()))
    {
      hide Peer.Seek;
      if get.Value().CanSeekTo(put.pos) { get.Seek(put.pos); } else { SetError(); }
    }

    method SeekOrSkip(inp: Inputs)
      requires Valid() && get.rangeStart == put.rangeStart
      modifies this, get, put
      ensures Value() == Realign(old(Value()), inp)
    {
      hide Ahead, Behind;
      line := [];
      if put.pos < get.pos { BehindStep(); } else if get.pos < put.pos { AheadStep(inp); }
    }

    method RealignStep(inp: Inputs)
      requires Valid() && get.rangeStart == put.rangeStart
      modifies this, get, put
      ensures Value() == Realign(old(Value()), inp)
      ensures AllStay(inp) && Settled(old(Value())) && !(FallsBehind(old(Value())) && Loses(old(Value()))) ==>
        Keeps(old(Value()), Value())
    {
      hide Keeps, Settled, AllStay, FallsBehind, Loses, Realign;
      ghost var was := Value();
      SeekOrSkip(inp);
      RealignKeeps(was, inp);
    }

    // Something stands in the way of copying, in the order of the checks.
    method CheckClear(inp: Inputs) returns (clear: bool)
      requires Valid()
      modifies this, get, put
      ensures clear == Clear(old(Value()), inp)
      ensures Value() == if clear then old(Value()) else Hindered(old(Value()))
    {
      hide BrokenOff;
      clear := false;
      if put.error {
        SetError();
      } else if get.error && |get.buffer| == 0 {
        if put.pos > 0 { put.eof := true; }
        SetError();
      } else if put.broken {
        BreakOff();
      } else if put.seekPos != FILE_END {
        var astray := get.pos < get.rangeStart || put.pos < put.rangeStart || get.pos != put.pos;
        clear := !(failIfCannotSeek && astray) && !inp.timeout;
        if !clear { SetError(); }
      }
    }

    method BreakOff()
      requires Valid()
      modifies this, get
      ensures Value() == BrokenOff(old(Value()))
    {
      hide PreGetDone;
      var done := put.Done();
      if done {
        if failIfBroken { SetError(); } else { PreGetDoneStep(); }
      }
    }

    method CopyingStep(inp: Inputs)
      requires Valid() && get.rangeStart == put.rangeStart
      modifies this, get, put
      ensures Value() == CopyStep(old(Value()), inp)
      ensures Undisturbed(old(Value()), inp) && old(phase) == DoCopy && !old(failed) ==> Keeps(old(Value()), Value())
    {
      hide Keeps, Undisturbed;
      ghost var was := Value();
      hide Clear, Hindered, Realign, CopyData, Peer.Sized;
      var clear := CheckClear(inp);
      if clear { CheckPositions(inp); }
      CopyStepKeeps(was, inp);
    }

    method CheckPositions(inp: Inputs)
      requires Valid() && get.rangeStart == put.rangeStart
      modifies this, get, put
      ensures var s := old(Value()).(get := old(get.Value()).Sized());
        var aligned := s.get.pos - s.get.rangeStart - |s.line| == s.put.pos - s.put.rangeStart;
        Value() == if aligned then CopyData(s, inp) else Realign(s, inp)
    {
      var _ := get.GetSize();
      if get.pos - get.rangeStart - |line| != put.pos - put.rangeStart {
        RealignStep(inp);
      } else {
        CopyAvailable(inp);
      }
    }

    method StartCopying(inp: Inputs)
      requires Valid() && get.rangeStart == put.rangeStart
      modifies this, get, put
      ensures Value() == StartCopy(old(Value()), inp)
    {
      phase := DoCopy;
      CopyingStep(inp);
    }

    method SeekGetToPut()
      requires Valid()
      modifies get
      ensures Value() == if old(get.canSeek) then SeekGet(old(Value()), old(put.pos)) else old(Value())
      ensures get.rangeStart == old(get.rangeStart)
    {
      if get.canSeek { get.Seek(put.pos); }
    }

    // Whether the destination is complete before anything was copied.
    method AlreadyComplete() returns (complete: bool)
      requires Valid()
      modifies get
      ensures var s := old(Value());
        var t := if s.put.seekPos != FILE_END then s.(get := s.get.Sized()) else s;
        Value() == t && complete == (t.put.seekPos != FILE_END && t.get.size >= 0 && t.put.seekPos >= t.get.size)
      ensures get.rangeStart == old(get.rangeStart)
    {
      complete := false;
      if put.seekPos != FILE_END {
        var size := get.GetSize();
        complete := size >= 0 && put.seekPos >= size;
      }
    }

    method Await(inp: Inputs)
      requires Valid() && get.rangeStart == put.rangeStart
      modifies this, get, put
      ensures Value() == AwaitPut(old(Value()), inp)
    {
      hide PreConfirm, PreGetDone, StartCopy, Peer.Sized, Peer.Seek;
      if put.error {
        SetError();
      } else {
        var complete := AlreadyComplete();
        if complete {
          if inp.haveDate { PreConfirmStep(); } else { PreGetDoneStep(); }
        } else if inp.ioReady {
          SeekGetToPut();
          StartCopying(inp);
        }
      }
    }

    method AwaitPutStep(inp: Inputs)
      requires Valid() && get.rangeStart == put.rangeStart
      modifies this, get, put
      ensures Value() == AwaitPut(old(Value()), inp)
      ensures AllStay(inp) && Untouched(old(Value())) ==> Keeps(old(Value()), Value())
    {
      hide Keeps, AllStay, Untouched, AwaitPut;
      ghost var was := Value();
      Await(inp);
      AwaitPutKeeps(was, inp);
    }

    method StartPut(offs: int)
      requires Valid()
      modifies this, put
      ensures Value() == StartPutAt(old(Value()), offs) && put.rangeStart == old(put.rangeStart)
    {
      dest := HeldAfter(dest, put.Value(), offs);
      put.Seek(offs);
      low := put.place;
    }

    method GoToRangeStart()
      requires Valid()
      modifies this, get, put
      ensures Value() == AtRangeStart(old(Value()))
      ensures get.rangeStart == old(get.rangeStart) && put.rangeStart == old(put.rangeStart)
    {
      if put.rangeStart > 0 && put.canSeek { StartPut(put.rangeStart); }
      if get.rangeStart > 0 && get.canSeek { get.Seek(get.rangeStart); }
    }

    method SeekAndStart(inp: Inputs)
      requires Valid() && get.rangeStart == put.rangeStart
      modifies this, get, put
      ensures Value() == Begin(old(Value()), inp)
    {
      hide AwaitPut, StartCopy, AtRangeStart, Peer.Seek;
      low := put.place;
      if cont && put.canSeek {
        StartPut(FILE_END);
        phase := PutWait;
        AwaitPutStep(inp);
      } else {
        GoToRangeStart();
        StartCopying(inp);
      }
    }

    method BeginStep(inp: Inputs)
      requires Valid() && get.rangeStart == put.rangeStart
      modifies this, get, put
      ensures Value() == Begin(old(Value()), inp)
      ensures AllStay(inp) && Untouched(old(Value())) ==> Keeps(old(Value()), Value())
    {
      hide Keeps, AllStay, Untouched, Begin;
      ghost var was := Value();
      SeekAndStart(inp);
      BeginKeeps(was, inp);
    }

    /** One call of FileCopy::Do: every byte it puts is the source's byte at that offset, and it
        leaves no gap, as long as it is undisturbed; it takes what is in hand, or brings the peers
        nearer, and at the end it fails exactly if the copy is short. */
    method Do(inp: Inputs)
      requires Valid() && get.rangeStart == put.rangeStart
      modifies this, get, put
      ensures Value() == E.Do(old(Value()), inp)
      ensures Undisturbed(old(Value()), inp) && EarlyLineEmpty(old(Value())) ==>
                forall source :: Inv(source, old(Value())) ==> Inv(source, Value())
      ensures D.CallMeans(old(Value()), Value(), inp)
    {
      hide Inv, E.Do, D.CallMeans;
      ghost var was := Value();
      Dispatch(inp);
      DoKeeps(was, inp);
      D.DoMeans(was, inp);
    }

    method Dispatch(inp: Inputs)
      requires Valid() && get.rangeStart == put.rangeStart
      modifies this, get, put
      ensures Value() == E.Do(old(Value()), inp)
    {
      if !failed {
        match phase
        case Initial => BeginStep(inp);
        case PutWait => AwaitPutStep(inp);
        case DoCopy => CopyingStep(inp);
        case ConfirmWait => ConfirmStep();
        case GetDoneWait => GetDoneStep();
        case AllDone =>
      }
    }
  }
}

/**
 The copy engine of FileCopy.cc as a value: one call of FileCopy::Do joins a
 source peer and a destination peer, either of which may have moved since the
 last call. The classes of module FileCopy are proved to compute these
 functions in place.
 */
module CopyEngine {

  type Byte = bv8

  const FILE_END: int := -1
  const NO_SIZE: int := -1
  const NO_SIZE_YET: int := -2
  const SKIP_THRESHOLD: int := 0x1000
  const PUT_LL_MIN: int := 0x2000
  const NEWLINE: Byte := 10

  // ---------------------------------------------------------------- peers

  /** A source or destination peer. `pos` is the offset of the first buffered byte of a source
      peer, and what a destination peer says is the offset after the last buffered byte. `place` is
      where its next byte will really go: a session that has been closed is opened again at
      `seekPos`, with what is buffered, and only then does `pos` say so. */
  datatype Peer = Peer(
    pos: int, place: int, buf: seq<Byte>, seekPos: int, eof: bool, error: bool, broken: bool,
    done: bool, removing: bool, size: int, canSeek: bool, canSeek0: bool, asciiStream: bool,
    rangeStart: int, rangeLimit: int)
  {
    predicate CanSeekTo(p: int) {
      if p == 0 then canSeek0 else canSeek
    }

    // Whether a destination peer has stored everything, or a peer can do no more.
    predicate Done(put: bool) {
      error || (if eof && buf == [] then !removing && (put ==> done) else broken)
    }

    function Skip(n: nat): Peer
      requires n <= |buf|
    {
      this.(buf := buf[n..], pos := pos + n)
    }

    // The size, forgotten if the position has passed it.
    function Sized(): Peer {
      this.(size := if size >= 0 && pos > size then NO_SIZE_YET else size)
    }

    // Whether a seek is carried out: an ascii stream refuses to go anywhere but to its start.
    predicate Seeks(offs: int) { pos != offs && !(asciiStream && offs != 0) }

    function Seek(put: bool, offs: int): Peer {
      if pos == offs then this
      else if asciiStream && offs != 0 then this.(canSeek := false)
      else SeekTo(offs, if put then |buf| else 0)
    }

    // What was not written yet is dropped.
    function SeekTo(offs: int, unwritten: nat): Peer {
      this.(seekPos := offs, buf := [], eof := false, broken := false,
            pos := if offs == FILE_END then pos - unwritten else offs,
            place := if offs == FILE_END then place - unwritten else offs)
    }

    // The store has failed. If there was some output, the peer is to go on at the end of what the
    // destination holds, which may be known at once; otherwise at the start.
    function StoreFailed(end: nat, known: bool): Peer {
      var q := Seek(true, if canSeek && seekPos > 0 then FILE_END else 0);
      if q.seekPos == FILE_END then q.(seekPos := if known then end else FILE_END, place := end)
      else q.(place := q.seekPos)
    }
  }

  /** What the low-level write attempted by a large Put comes to: it writes some bytes, fails, finds
      the reader gone, finds the session somewhere else, or finds that the store has failed; then
      the destination holds bytes up to `end`, as it knows or will find. */
  datatype LowWrite =
    Wrote(n: nat) | WriteError | BrokenPipe | Displaced(to: int) | StoreFailed(end: nat, known: bool)

  // A Put into an empty buffer of at least PUT_LL_MIN bytes is first tried directly.
  predicate Direct(p: Peer, b: seq<Byte>) {
    |b| >= PUT_LL_MIN && p.buf == []
  }

  // The peer as the direct attempt leaves it, apart from what was written. If its session was
  // closed, that is opened first.
  function Attempted(p: Peer, b: seq<Byte>, low: LowWrite): Peer {
    if Direct(p, b) then AfterWrite(p.(pos := p.place), |b|, low) else p
  }

  function AfterWrite(p: Peer, size: nat, low: LowWrite): Peer {
    match low
    case Wrote(n) => p.(seekPos := p.seekPos + (if n <= size then n else size))
    case WriteError => p.(error := true)
    case BrokenPipe => p.(broken := true, eof := true)
    case Displaced(to) => p.(pos := to, place := to, canSeek := false)
    case StoreFailed(end, known) => p.StoreFailed(end, known)
  }

  function DirectCount(p: Peer, b: seq<Byte>, low: LowWrite): (n: nat)
    ensures n <= |b|
  {
    if Direct(p, b) && low.Wrote? then if low.n <= |b| then low.n else |b| else 0
  }

  // IOBuffer::Put: what is not written directly is appended to the buffer.
  function PutBytes(p: Peer, b: seq<Byte>, low: LowWrite): Peer {
    var q := Attempted(p, b, low);
    var n := DirectCount(p, b, low);
    q.(pos := q.pos + |b|, place := q.place + |b|, buf := q.buf + b[n..])
  }

  // Where the first byte of a Put ends up.
  function PutAt(p: Peer, b: seq<Byte>, low: LowWrite): int {
    Attempted(p, b, low).place
  }

  // ---------------------------------------------------------------- the engine

  datatype Phase = Initial | PutWait | DoCopy | ConfirmWait | GetDoneWait | AllDone

  /** The engine's state. `dest`, `low` and `lineAt` are history: the bytes that the destination
      holds or buffers, the lowest offset the destination was positioned at since the copy began,
      and the source offset of the first byte held back in the line buffer. */
  datatype Copy = Copy(
    phase: Phase, get: Peer, put: Peer, cont: bool, failed: bool,
    lineBuffered: bool, line: seq<Byte>, lineMax: int, bytesCount: int, putEofPos: int,
    failIfCannotSeek: bool, failIfBroken: bool,
    dest: map<int, Byte>, low: int, lineAt: int)

  // What one call is told by the world: the outcomes of its up to three direct writes, whether
  // the no-progress timer ran out, whether the destination is ready, whether a date is known.
  datatype Inputs = Inputs(low1: LowWrite, low2: LowWrite, low3: LowWrite, timeout: bool, ioReady: bool, haveDate: bool)

  function Written(at: int, b: seq<Byte>): (m: map<int, Byte>)
    ensures forall p :: p in m <==> at <= p < at + |b|
    ensures forall p :: p in m ==> m[p] == b[p - at]
  {
    if b == [] then map[] else Written(at, b[..|b| - 1])[at + |b| - 1 := b[|b| - 1]]
  }

  function Min(a: int, b: int): int { if a < b then a else b }

  function Put(s: Copy, b: seq<Byte>, low: LowWrite): Copy {
    var at := PutAt(s.put, b, low);
    s.(put := PutBytes(s.put, b, low), dest := s.dest + Written(at, b), low := Min(s.low, at))
  }

  function Fail(s: Copy): Copy { s.(failed := true) }

  // What is below an offset.
  function Below(dest: map<int, Byte>, hi: int): map<int, Byte> {
    map p | p in dest && p < hi :: dest[p]
  }

  // What a destination holds once it is to go on at another place: what it buffered is gone, and
  // so is what it held from there on.
  function HeldAfter(dest: map<int, Byte>, p: Peer, offs: int): map<int, Byte> {
    if p.Seeks(offs) then Below(dest, Min(p.place - |p.buf|, p.Seek(true, offs).place)) else dest
  }

  function SeekPut(s: Copy, offs: int): Copy {
    var p := s.put.Seek(true, offs);
    s.(put := p, dest := HeldAfter(s.dest, s.put, offs), low := Min(s.low, p.place))
  }

  // The first seek of the destination, before anything is put.
  function StartPutAt(s: Copy, offs: int): Copy {
    var p := s.put.Seek(true, offs);
    s.(put := p, dest := HeldAfter(s.dest, s.put, offs), low := p.place)
  }

  function SeekGet(s: Copy, offs: int): Copy { s.(get := s.get.Seek(false, offs)) }

  // The index after the last newline, or 0.
  function AfterLastNewline(b: seq<Byte>): (n: nat)
    ensures n <= |b|
    ensures n > 0 ==> b[n - 1] == NEWLINE
    ensures forall i :: n <= i < |b| ==> b[i] != NEWLINE
  {
    if b == [] then 0
    else if b[|b| - 1] == NEWLINE then |b|
    else AfterLastNewline(b[..|b| - 1])
  }

  // The limit the transfer has to reach, if one is known.
  function KnownLimit(g: Peer): int {
    if g.rangeLimit != FILE_END then g.rangeLimit else g.Sized().size
  }

  predicate SizeOk(get: Peer, put: Peer) {
    var limit := KnownLimit(get);
    if get.rangeLimit == FILE_END && (limit == NO_SIZE || limit == NO_SIZE_YET) then true
    else
      var pos := if get.pos > put.pos then get.pos else put.pos;
      pos <= 0 || pos >= limit
  }

  // The size check asks for the size of the source, which may forget it.
  function AfterSizeCheck(s: Copy): Copy {
    if s.get.rangeLimit == FILE_END then s.(get := s.get.Sized()) else s
  }

  function GetDone(s: Copy): Copy {
    if s.get.error then Fail(s)
    else if !s.get.Done(false) then s
    else s.(phase := AllDone)
  }

  function PreGetDone(s: Copy): Copy {
    GetDone(s.(get := s.get.(buf := [], eof := true), phase := GetDoneWait))
  }

  function Confirm(s: Copy): Copy {
    if s.put.error then Fail(s)
    else if s.putEofPos != s.put.pos || s.put.seekPos == FILE_END then s.(phase := DoCopy)
    else if !s.put.Done(true) then s
    else PreGetDone(s)
  }

  function PreConfirm(s: Copy): Copy {
    Confirm(s.(get := s.get.Sized(), put := s.put.(eof := true), putEofPos := s.put.pos, phase := ConfirmWait))
  }

  // The line buffer is written out at the end of the data.
  function Flushed(s: Copy, low: LowWrite): Copy {
    if s.lineBuffered then Put(s, s.line, low).(line := []) else s
  }

  function AtEof(s: Copy, low: LowWrite): Copy {
    var s1 := Flushed(s, low);
    var s2 := AfterSizeCheck(s1);
    if !SizeOk(s1.get, s1.put) then Fail(s2) else PreConfirm(s2)
  }

  // How much of the available data is inside the range.
  function Allowed(g: Peer): (n: nat)
    ensures n <= |g.buf|
  {
    if g.rangeLimit != FILE_END && g.rangeLimit < g.pos + |g.buf|
    then (if g.rangeLimit < g.pos then 0 else g.rangeLimit - g.pos)
    else |g.buf|
  }

  function AfterOverflow(s: Copy, inp: Inputs): Copy {
    if |s.line| > s.lineMax then Put(s, s.line, inp.low1).(line := []) else s
  }

  // Passes on the whole lines of the line buffer, or all of it at the end of the data.
  function PassLines(s: Copy, inp: Inputs): Copy {
    var last := s.get.eof || s.get.error;
    var cut := if last then |s.line| else AfterLastNewline(s.line);
    var s1 := if cut > 0 || last then Put(s, s.line[..cut], inp.low2).(line := s.line[cut..]) else s;
    s1.(lineAt := s1.get.pos - |s1.line|)
  }

  // Takes n bytes through the line buffer.
  function ThroughLine(s: Copy, n: nat, inp: Inputs): Copy
    requires n <= |s.get.buf|
  {
    var s1 := AfterOverflow(s, inp);
    PassLines(s1.(get := s1.get.Skip(n), line := s1.line + s.get.buf[..n], bytesCount := s1.bytesCount + n), inp)
  }

  function Straight(s: Copy, n: nat, inp: Inputs): Copy
    requires n <= |s.get.buf|
  {
    var s1 := Put(s, s.get.buf[..n], inp.low1);
    s1.(get := s1.get.Skip(n), bytesCount := s1.bytesCount + n)
  }

  // The positions agree: copy what is available.
  function CopyData(s: Copy, inp: Inputs): Copy {
    if s.get.buf == [] && s.get.eof then AtEof(s, inp.low3)
    else if s.get.buf == [] then s
    else
      var n := Allowed(s.get);
      var s1 := if s.lineBuffered then ThroughLine(s, n, inp) else Straight(s, n, inp);
      if s1.get.rangeLimit != FILE_END && s1.get.rangeLimit <= s1.get.pos then AtEof(s1, inp.low3) else s1
  }

  // Some of the data in hand is passed over.
  function SkipData(s: Copy, skip: int): Copy {
    var n := if skip > |s.get.buf| then |s.get.buf| else skip;
    if n <= 0 then s else s.(get := s.get.Skip(n), bytesCount := s.bytesCount + n)
  }

  // The source is so far behind that the destination is to seek back to it.
  predicate SeeksBack(s: Copy) {
    s.put.CanSeekTo(s.get.pos) && s.put.pos - s.get.pos >= SKIP_THRESHOLD
  }

  // The source is behind: it skips data, or the destination seeks back to it.
  function CatchUp(s: Copy): Copy {
    if SeeksBack(s) then SeekPut(s, s.get.pos) else SkipData(s, s.put.pos - s.get.pos)
  }

  function Ahead(s0: Copy, inp: Inputs): Copy {
    var s := s0.(get := s0.get.Sized());
    if s.get.size >= 0 && s.put.pos >= s.get.size then AtEof(s, inp.low3) else CatchUp(s)
  }

  // The destination is behind: the source seeks back to it.
  function Behind(s: Copy): Copy {
    if !s.get.CanSeekTo(s.put.pos) then Fail(s) else SeekGet(s, s.put.pos)
  }

  // The positions differ: bring one peer to the other's position.
  function Realign(s0: Copy, inp: Inputs): Copy {
    var s := s0.(line := []);
    var getPos, putPos := s.get.pos - s.get.rangeStart, s.put.pos - s.put.rangeStart;
    if getPos == putPos then s
    else if putPos < getPos then Behind(s)
    else Ahead(s, inp)
  }

  // A call in DoCopy finds nothing in the way of copying, ...
  predicate Clear(s: Copy, inp: Inputs) {
    && !s.put.error && !(s.get.error && s.get.buf == []) && !s.put.broken && s.put.seekPos != FILE_END
    && !(s.failIfCannotSeek && (s.get.pos < s.get.rangeStart || s.put.pos < s.put.rangeStart || s.get.pos != s.put.pos))
    && !inp.timeout
  }

  // ... and the positions agree.
  predicate Copies(s: Copy, inp: Inputs) {
    Clear(s, inp) && s.get.pos - |s.line| == s.put.pos
  }

  // The reader of the destination is gone.
  function BrokenOff(s: Copy): Copy {
    if !s.put.Done(true) then s
    else if s.failIfBroken then Fail(s)
    else PreGetDone(s)
  }

  // What a call in DoCopy does that finds something in the way, in the order of the checks.
  function Hindered(s: Copy): Copy {
    if s.put.error then Fail(s)
    else if s.get.error && s.get.buf == [] then
      Fail(if s.put.pos > 0 then s.(put := s.put.(eof := true)) else s)
    else if s.put.broken then BrokenOff(s)
    else if s.put.seekPos == FILE_END then s
    else Fail(s)
  }

  // DO_COPY.
  function CopyStep(s0: Copy, inp: Inputs): Copy {
    if !Clear(s0, inp) then Hindered(s0)
    else
      var s := s0.(get := s0.get.Sized());
      if s.get.pos - s.get.rangeStart - |s.line| != s.put.pos - s.put.rangeStart
      then Realign(s, inp)
      else CopyData(s, inp)
  }

  function StartCopy(s: Copy, inp: Inputs): Copy {
    CopyStep(s.(phase := DoCopy), inp)
  }

  function AwaitPut(s0: Copy, inp: Inputs): Copy {
    if s0.put.error then Fail(s0)
    else
      var s := if s0.put.seekPos != FILE_END then s0.(get := s0.get.Sized()) else s0;
      if s.put.seekPos != FILE_END && s.get.size >= 0 && s.put.seekPos >= s.get.size then
        if inp.haveDate then PreConfirm(s) else PreGetDone(s)
      else if !inp.ioReady then s
      else StartCopy(if s.get.canSeek then SeekGet(s, s.put.pos) else s, inp)
  }

  // Both peers at the start of the range, as far as they can seek.
  function AtRangeStart(s: Copy): Copy {
    var s1 := if s.put.rangeStart > 0 && s.put.canSeek then StartPutAt(s, s.put.rangeStart) else s;
    if s1.get.rangeStart > 0 && s1.get.canSeek then SeekGet(s1, s1.get.rangeStart) else s1
  }

  function Begin(s0: Copy, inp: Inputs): Copy {
    var s := s0.(low := s0.put.place);
    if s.cont && s.put.canSeek then AwaitPut(StartPutAt(s, FILE_END).(phase := PutWait), inp)
    else StartCopy(AtRangeStart(s), inp)
  }

  // One call of FileCopy::Do.
  function Do(s: Copy, inp: Inputs): Copy {
    if s.failed then s
    else match s.phase
      case Initial => Begin(s, inp)
      case PutWait => AwaitPut(s, inp)
      case DoCopy => CopyStep(s, inp)
      case ConfirmWait => Confirm(s)
      case GetDoneWait => GetDone(s)
      case AllDone => s
  }

  // ---------------------------------------------------------------- what is right

  // b is what the source has at offset `at`.
  predicate SourceAt(source: seq<Byte>, at: int, b: seq<Byte>) {
    b == [] || (0 <= at && at + |b| <= |source| && b == source[at..at + |b|])
  }

  ghost predicate Correct(source: seq<Byte>, dest: map<int, Byte>) {
    forall p :: p in dest ==> 0 <= p < |source| && dest[p] == source[p]
  }

  // There is something at every offset from lo on and nothing from hi on.
  ghost predicate Covered(dest: map<int, Byte>, lo: int, hi: int) {
    (forall p :: lo <= p < hi ==> p in dest) && (forall p :: p in dest ==> p < hi)
  }

  /** What every call keeps: each byte the destination holds or buffers is the source's byte at its
      offset; there is no gap from the lowest offset put from to the destination's place, and
      nothing beyond; what either peer buffers, and what the line buffer holds back, is the
      source's at its offset. */
  ghost predicate Inv(source: seq<Byte>, s: Copy) {
    && s.get.rangeStart == s.put.rangeStart
    && Correct(source, s.dest)
    && Covered(s.dest, s.low, s.put.place)
    && SourceAt(source, s.get.pos, s.get.buf)
    && SourceAt(source, s.put.place - |s.put.buf|, s.put.buf)
    && SourceAt(source, s.lineAt, s.line)
    && (!s.lineBuffered ==> s.line == [])
  }

  // The peers have not both moved by one and the same distance since the line buffer was filled.
  predicate LineInPlace(s: Copy) {
    s.line == [] || s.put.pos == s.lineAt || s.get.pos - |s.line| != s.put.pos
  }

  // The destination will go on where it says it is.
  predicate Settled(s: Copy) { s.put.place == s.put.pos }

  // Seeking back to the source would lose some of what the destination buffers.
  predicate Loses(s: Copy) {
    && s.put.Seeks(s.get.pos) && s.get.pos != FILE_END
    && s.put.place - |s.put.buf| < s.get.pos && s.low < s.get.pos
  }

  // A call makes the destination seek back, with the positions as they are.
  predicate CallSeeksBack(s: Copy, inp: Inputs) {
    && s.phase == DoCopy && !s.failed && Clear(s, inp)
    && s.get.pos - |s.line| != s.put.pos && FallsBehind(s)
  }

  predicate FallsBehind(s: Copy) {
    && s.get.pos < s.put.pos && !(s.get.Sized().size >= 0 && s.put.pos >= s.get.Sized().size)
    && SeeksBack(s)
  }

  // Nothing is buffered before the copying begins, and later nothing that is buffered is lost.
  predicate KeepsBuffer(s: Copy, inp: Inputs) {
    if Late(s) then !(CallSeeksBack(s, inp) && Loses(s)) else s.put.buf == []
  }

  // The copying has begun.
  predicate Late(s: Copy) { s.phase != Initial && s.phase != PutWait }

  // A direct write leaves the destination where it was.
  predicate Stays(low: LowWrite) { !low.Displaced? && !low.StoreFailed? }

  predicate AllStay(inp: Inputs) { Stays(inp.low1) && Stays(inp.low2) && Stays(inp.low3) }

  lemma SourceAtSplit(source: seq<Byte>, at: int, b: seq<Byte>, n: nat)
    requires SourceAt(source, at, b) && n <= |b|
    ensures SourceAt(source, at, b[..n]) && SourceAt(source, at + n, b[n..])
  {
  }

  lemma SourceAtJoin(source: seq<Byte>, at: int, a: seq<Byte>, b: seq<Byte>)
    requires SourceAt(source, at, a) && SourceAt(source, at + |a|, b)
    ensures SourceAt(source, at, a + b)
  {
    if a == [] { assert a + b == b; }
    if b == [] { assert a + b == a; }
  }

  lemma WrittenKeepsCorrect(source: seq<Byte>, dest: map<int, Byte>, at: int, b: seq<Byte>)
    requires Correct(source, dest) && SourceAt(source, at, b)
    ensures Correct(source, dest + Written(at, b))
  {
  }

  lemma PutBufferRight(source: seq<Byte>, p: Peer, b: seq<Byte>, low: LowWrite)
    requires SourceAt(source, p.place - |p.buf|, p.buf) && SourceAt(source, p.place, b) && Stays(low)
    ensures var r := PutBytes(p, b, low);
      && r.place == p.place + |b| && PutAt(p, b, low) == p.place
      && SourceAt(source, r.place - |r.buf|, r.buf)
      && r.rangeStart == p.rangeStart && (p.pos == p.place ==> r.pos == r.place)
  {
    hide SourceAt, PutBytes, DirectCount;
    var n := DirectCount(p, b, low);
    PutBytesShape(p, b, low);
    SourceAtSplit(source, p.place, b, n);
    SourceAtJoin(source, p.place - |p.buf|, p.buf, b);
  }

  lemma PutBytesShape(p: Peer, b: seq<Byte>, low: LowWrite)
    requires Stays(low)
    ensures var r, n := PutBytes(p, b, low), DirectCount(p, b, low);
      && PutAt(p, b, low) == p.place && r.place == p.place + |b|
      && r.rangeStart == p.rangeStart && (p.pos == p.place ==> r.pos == r.place)
      && r.buf == (if n == 0 then p.buf + b else b[n..])
  {
    hide Attempted, DirectCount;
    AttemptedStays(p, b, low);
    if DirectCount(p, b, low) == 0 { assert b[0..] == b; }
  }

  lemma AttemptedStays(p: Peer, b: seq<Byte>, low: LowWrite)
    requires Stays(low)
    ensures var q := Attempted(p, b, low);
      && q.place == p.place && q.buf == p.buf && q.rangeStart == p.rangeStart
      && (p.pos == p.place ==> q.pos == p.pos) && (DirectCount(p, b, low) > 0 ==> p.buf == [])
  {
    hide AfterWrite;
    AfterWriteStays(p.(pos := p.place), |b|, low);
  }

  lemma AfterWriteStays(p: Peer, size: nat, low: LowWrite)
    requires Stays(low)
    ensures var q := AfterWrite(p, size, low);
      q.place == p.place && q.buf == p.buf && q.rangeStart == p.rangeStart && q.pos == p.pos
  {
    hide Peer.StoreFailed;
  }

  // A Put of the source's bytes at the put position keeps everything right, provided the
  // direct attempt does not move the peer.
  lemma PutKeepsInv(source: seq<Byte>, s: Copy, b: seq<Byte>, low: LowWrite)
    requires Inv(source, s) && SourceAt(source, s.put.place, b) && Stays(low)
    ensures var r := Put(s, b, low);
      Inv(source, r) && r.put.place == s.put.place + |b| && (Settled(s) ==> Settled(r))
  {
    hide PutBytes, PutAt, SourceAt;
    PutBufferRight(source, s.put, b, low);
    WrittenKeepsCorrect(source, s.dest, s.put.place, b);
  }

  // ---------------------------------------------------------------- the last phases

  // Which fields the last phases change.

  lemma GetDoneShape(s: Copy)
    ensures var r := GetDone(s);
      r == s.(phase := r.phase, failed := r.failed) && (r.phase == s.phase || r.phase == AllDone)
  {
    hide Peer.Done;
  }

  lemma PreGetDoneShape(s: Copy)
    ensures var r := PreGetDone(s);
      && r == s.(get := s.get.(buf := [], eof := true), phase := r.phase, failed := r.failed)
      && (r.phase == GetDoneWait || r.phase == AllDone)
  {
    hide GetDone;
    GetDoneShape(s.(get := s.get.(buf := [], eof := true), phase := GetDoneWait));
  }

  lemma ConfirmShape(s: Copy)
    ensures var r := Confirm(s);
      && r == s.(get := r.get, phase := r.phase, failed := r.failed)
      && (r.get == s.get || r.get == s.get.(buf := [], eof := true))
      && (r.phase == s.phase || r.phase == DoCopy || r.phase == GetDoneWait || r.phase == AllDone)
  {
    hide PreGetDone, Peer.Done;
    PreGetDoneShape(s);
  }

  lemma PreConfirmShape(s: Copy)
    ensures var r := PreConfirm(s);
      && r == s.(get := r.get, put := s.put.(eof := true), putEofPos := s.put.pos, phase := r.phase, failed := r.failed)
      && (r.get == s.get.Sized() || r.get == s.get.Sized().(buf := [], eof := true))
      && (r.phase == ConfirmWait || r.phase == DoCopy || r.phase == GetDoneWait || r.phase == AllDone)
  {
    hide Confirm, Peer.Sized;
    ConfirmShape(s.(get := s.get.Sized(), put := s.put.(eof := true), putEofPos := s.put.pos, phase := ConfirmWait));
  }

  // Which fields the taking of data changes.

  lemma PutShape(s: Copy, b: seq<Byte>, low: LowWrite)
    ensures var r := Put(s, b, low); r == s.(put := r.put, dest := r.dest, low := r.low) && r.low <= s.low
  {
    hide PutBytes, PutAt, Written;
  }

  lemma PassLinesShape(s: Copy, inp: Inputs)
    ensures var r := PassLines(s, inp);
      r == s.(put := r.put, dest := r.dest, low := r.low, line := r.line, lineAt := r.lineAt) && r.low <= s.low
  {
    hide Put, AfterLastNewline;
    var cut := if s.get.eof || s.get.error then |s.line| else AfterLastNewline(s.line);
    PutShape(s, s.line[..cut], inp.low2);
  }

  lemma ThroughLineShape(s: Copy, n: nat, inp: Inputs)
    requires n <= |s.get.buf|
    ensures var r := ThroughLine(s, n, inp);
      && r == s.(get := s.get.Skip(n), put := r.put, dest := r.dest, low := r.low,
                 line := r.line, lineAt := r.lineAt, bytesCount := r.bytesCount)
      && r.low <= s.low
  {
    hide Put, PassLines, Peer.Skip;
    PutShape(s, s.line, inp.low1);
    var s1 := AfterOverflow(s, inp);
    PassLinesShape(s1.(get := s1.get.Skip(n), line := s1.line + s.get.buf[..n], bytesCount := s1.bytesCount + n), inp);
  }

  lemma StraightShape(s: Copy, n: nat, inp: Inputs)
    requires n <= |s.get.buf|
    ensures var r := Straight(s, n, inp);
      && r == s.(get := s.get.Skip(n), put := r.put, dest := r.dest, low := r.low, bytesCount := r.bytesCount)
      && r.low <= s.low
  {
    hide Put;
    PutShape(s, s.get.buf[..n], inp.low1);
  }

  lemma FlushedShape(s: Copy, low: LowWrite)
    ensures var r := Flushed(s, low);
      r == s.(put := r.put, dest := r.dest, low := r.low, line := r.line) && r.low <= s.low
  {
    hide Put;
    PutShape(s, s.line, low);
  }

  lemma AfterSizeCheckShape(s: Copy)
    ensures var r := AfterSizeCheck(s); r == s.(get := r.get) && (r.get == s.get || r.get == s.get.Sized())
  {
    hide Peer.Sized;
  }

  lemma BrokenOffShape(s: Copy)
    ensures var r := BrokenOff(s);
      && r == s.(get := r.get, phase := r.phase, failed := r.failed)
      && (r.get == s.get || r.get == s.get.(buf := [], eof := true))
      && (r.phase == s.phase || r.phase == GetDoneWait || r.phase == AllDone)
  {
    hide PreGetDone, Peer.Done;
    PreGetDoneShape(s);
  }

  lemma HinderedShape(s: Copy)
    ensures var r := Hindered(s);
      || r == s || r == Fail(s) || r == Fail(s.(put := s.put.(eof := true)))
      || (s.put.broken && r == BrokenOff(s))
  {
    hide BrokenOff, Fail;
  }

  lemma BehindShape(s: Copy)
    ensures var r := Behind(s); r == s.(get := r.get, failed := r.failed)
  {
    hide Peer.Seek;
  }

  lemma CatchUpShape(s: Copy)
    ensures var r := CatchUp(s);
      && r == s.(get := r.get, put := r.put, dest := r.dest, low := r.low, bytesCount := r.bytesCount)
      && r.low <= s.low
  {
    hide Peer.Seek, Peer.Skip, HeldAfter, SeeksBack;
  }

  lemma SizedKeeps(g: Peer)
    ensures g.Sized() == g.(size := g.Sized().size)
  {
  }

  // ---------------------------------------------------------------- one call

  lemma FlushedKeepsInv(source: seq<Byte>, s: Copy, low: LowWrite)
    requires Inv(source, s) && Stays(low) && (s.line == [] || s.lineAt == s.put.place)
    ensures var r := Flushed(s, low);
      Inv(source, r) && r.line == [] && r.get == s.get
  {
    if s.lineBuffered {
      PutKeepsInv(source, s, s.line, low);
    }
  }

  lemma GetDoneKeepsInv(source: seq<Byte>, s: Copy)
    requires Inv(source, s)
    ensures Inv(source, GetDone(s)) && Inv(source, PreGetDone(s))
  {
    hide SourceAt, Correct, Covered, GetDone, PreGetDone;
    SourceAtEmpty(source, s.get.pos);
    GetDoneShape(s);
    PreGetDoneShape(s);
  }

  lemma ConfirmKeepsInv(source: seq<Byte>, s: Copy)
    requires Inv(source, s)
    ensures Inv(source, Confirm(s)) && Inv(source, PreConfirm(s))
  {
    hide SourceAt, Correct, Covered, Confirm, PreConfirm, Peer.Sized;
    SourceAtEmpty(source, s.get.pos);
    ConfirmShape(s);
    PreConfirmShape(s);
    SizedKeeps(s.get);
  }

  lemma SourceAtEmpty(source: seq<Byte>, at: int)
    ensures SourceAt(source, at, [])
  {
  }

  lemma AtEofKeepsInv(source: seq<Byte>, s: Copy, low: LowWrite)
    requires Inv(source, s) && Stays(low) && (s.line == [] || s.lineAt == s.put.place)
    ensures Inv(source, AtEof(s, low))
  {
    hide SourceAt, Correct, Covered, Flushed, AfterSizeCheck, SizeOk, PreConfirm, Peer.Sized;
    FlushedKeepsInv(source, s, low);
    var s1 := Flushed(s, low);
    AfterSizeCheckShape(s1);
    SizedKeepsInv(source, s1);
    ConfirmKeepsInv(source, AfterSizeCheck(s1));
  }

  // The line buffer and the data in hand continue each other and the destination.
  ghost predicate Aligned(s: Copy) {
    s.get.pos - |s.line| == s.put.place && (s.line == [] || s.lineAt == s.put.place)
  }

  lemma AfterOverflowKeepsInv(source: seq<Byte>, s: Copy, inp: Inputs)
    requires Inv(source, s) && Aligned(s) && Stays(inp.low1)
    ensures var r := AfterOverflow(s, inp);
      Inv(source, r) && Aligned(r) && r.get == s.get && r.lineBuffered == s.lineBuffered
  {
    hide SourceAt, Correct, Covered, Written;
    SourceAtEmpty(source, s.put.place);
    SourceAtEmpty(source, s.lineAt);
    if |s.line| > s.lineMax {
      PutKeepsInv(source, s, s.line, inp.low1);
    }
  }

  lemma PassLinesKeepsInv(source: seq<Byte>, s: Copy, inp: Inputs)
    requires Inv(source, s.(line := [])) && s.lineBuffered && Stays(inp.low2)
    requires SourceAt(source, s.put.place, s.line) && s.get.pos - |s.line| == s.put.place
    ensures Inv(source, PassLines(s, inp)) && Aligned(PassLines(s, inp))
  {
    hide SourceAt, Correct, Covered, AfterLastNewline, PutBytes, PutAt, Written;
    var last := s.get.eof || s.get.error;
    var cut := if last then |s.line| else AfterLastNewline(s.line);
    SourceAtSplit(source, s.put.place, s.line, cut);
    if cut > 0 || last {
      PutKeepsInv(source, s.(line := []), s.line[..cut], inp.low2);
    }
  }

  // The held-back line and the data in hand continue the destination.
  lemma LineContinues(source: seq<Byte>, s: Copy, n: nat)
    requires Inv(source, s) && Aligned(s) && n <= |s.get.buf|
    ensures SourceAt(source, s.put.place, s.line + s.get.buf[..n])
    ensures SourceAt(source, s.get.pos + n, s.get.buf[n..])
  {
    hide SourceAt, Correct, Covered;
    SourceAtSplit(source, s.get.pos, s.get.buf, n);
    if s.line == [] {
      assert s.line + s.get.buf[..n] == s.get.buf[..n];
    } else {
      SourceAtJoin(source, s.put.place, s.line, s.get.buf[..n]);
    }
  }

  lemma ThroughLineKeepsInv(source: seq<Byte>, s: Copy, n: nat, inp: Inputs)
    requires Inv(source, s) && Aligned(s) && s.lineBuffered && n <= |s.get.buf| && Stays(inp.low1) && Stays(inp.low2)
    ensures Inv(source, ThroughLine(s, n, inp)) && Aligned(ThroughLine(s, n, inp))
  {
    hide SourceAt, Correct, Covered, PassLines, AfterOverflow;
    AfterOverflowKeepsInv(source, s, inp);
    var s1 := AfterOverflow(s, inp);
    LineContinues(source, s1, n);
    SourceAtEmpty(source, s1.lineAt);
    var s2 := s1.(get := s1.get.Skip(n), line := s1.line + s.get.buf[..n], bytesCount := s1.bytesCount + n);
    PassLinesKeepsInv(source, s2, inp);
  }

  lemma StraightKeepsInv(source: seq<Byte>, s: Copy, n: nat, inp: Inputs)
    requires Inv(source, s) && Aligned(s) && s.line == [] && n <= |s.get.buf| && Stays(inp.low1)
    ensures Inv(source, Straight(s, n, inp)) && Aligned(Straight(s, n, inp))
  {
    hide SourceAt, Correct, Covered;
    SourceAtSplit(source, s.get.pos, s.get.buf, n);
    PutKeepsInv(source, s, s.get.buf[..n], inp.low1);
  }

  lemma CopyDataKeepsInv(source: seq<Byte>, s: Copy, inp: Inputs)
    requires Inv(source, s) && Aligned(s) && AllStay(inp)
    ensures Inv(source, CopyData(s, inp))
  {
    hide SourceAt, Correct, Covered, AtEof, ThroughLine, Straight, Allowed;
    var n := Allowed(s.get);
    if s.get.buf == [] {
      AtEofKeepsInv(source, s, inp.low3);
    } else if s.lineBuffered {
      ThroughLineKeepsInv(source, s, n, inp);
      AtEofKeepsInv(source, ThroughLine(s, n, inp), inp.low3);
    } else {
      StraightKeepsInv(source, s, n, inp);
      AtEofKeepsInv(source, Straight(s, n, inp), inp.low3);
    }
  }

  // A peer that seeks keeps its buffer where it is or loses it.
  lemma SeekShape(p: Peer, put: bool, offs: int)
    ensures var q := p.Seek(put, offs);
      && (q.buf == [] || (q.pos == p.pos && q.buf == p.buf))
      && q.rangeStart == p.rangeStart && q.rangeLimit == p.rangeLimit && q.size == p.size
      && (!p.broken ==> !q.broken)
  {
  }

  lemma SeekGetKeepsInv(source: seq<Byte>, s: Copy, offs: int)
    requires Inv(source, s)
    ensures Inv(source, SeekGet(s, offs))
  {
    hide SourceAt, Correct, Covered, Peer.Seek;
    SeekShape(s.get, false, offs);
    SourceAtEmpty(source, s.get.Seek(false, offs).pos);
  }

  // Where a destination stands once it was told to seek, and what it holds.
  lemma PutSeekShape(p: Peer, offs: int)
    ensures var q := p.Seek(true, offs);
      && (q.buf == [] || (q.place == p.place && q.buf == p.buf))
      && q.rangeStart == p.rangeStart && (p.pos == p.place ==> q.pos == q.place)
      && (p.Seeks(offs) ==> q.buf == [] && q.place == if offs == FILE_END then p.place - |p.buf| else offs)
      && (!p.Seeks(offs) ==> q.place == p.place && q.pos == p.pos)
  {
    hide Peer.SeekTo;
    SeekToShape(p, offs, |p.buf|);
  }

  lemma SeekToShape(p: Peer, offs: int, unwritten: nat)
    ensures var q := p.SeekTo(offs, unwritten);
      && q.buf == [] && q.rangeStart == p.rangeStart
      && q.place == (if offs == FILE_END then p.place - unwritten else offs)
      && (p.pos == p.place ==> q.pos == q.place)
  {
  }

  lemma BelowKeepsCorrect(source: seq<Byte>, dest: map<int, Byte>, hi: int)
    requires Correct(source, dest)
    ensures Correct(source, Below(dest, hi))
  {
  }

  // What is below an offset is without a gap up to there exactly if it was before, up to there.
  lemma BelowCoveredIff(dest: map<int, Byte>, lo: int, hi: int, keep: int, to: int)
    requires Covered(dest, lo, hi) && keep <= hi && to <= hi
    ensures Covered(Below(dest, Min(keep, to)), Min(lo, to), to) <==> to <= keep || to <= lo
  {
    if keep < to && lo < to {
      assert to - 1 !in Below(dest, Min(keep, to));
    }
  }

  /** A destination that seeks back leaves no gap exactly if it does not lose what it still
      buffers. */
  lemma SeekPutKeepsInvIff(source: seq<Byte>, s: Copy)
    requires Inv(source, s) && s.get.pos <= s.put.place
    ensures Inv(source, SeekPut(s, s.get.pos)) <==> !Loses(s)
  {
    hide SourceAt, Correct, Covered, Below, Peer.Seek, Peer.Seeks;
    var offs := s.get.pos;
    PutSeekShape(s.put, offs);
    SourceAtEmpty(source, s.put.Seek(true, offs).place);
    if s.put.Seeks(offs) {
      var keep := s.put.place - |s.put.buf|;
      BelowKeepsCorrect(source, s.dest, Min(keep, s.put.Seek(true, offs).place));
      BelowCoveredIff(s.dest, s.low, s.put.place, keep, s.put.Seek(true, offs).place);
    } else {
      CoveredLower(s.dest, s.low, s.put.place);
    }
  }

  lemma CoveredLower(dest: map<int, Byte>, lo: int, hi: int)
    requires Covered(dest, lo, hi)
    ensures Covered(dest, Min(lo, hi), hi)
  {
  }

  lemma BelowIsCovered(dest: map<int, Byte>, hi: int, at: int)
    requires hi <= at
    ensures Covered(Below(dest, hi), at, at)
  {
  }

  lemma CoveredFromHere(dest: map<int, Byte>, lo: int, hi: int)
    requires Covered(dest, lo, hi)
    ensures Covered(dest, hi, hi)
  {
  }

  lemma StartPutKeepsInv(source: seq<Byte>, s: Copy, offs: int)
    requires Inv(source, s) && s.low == s.put.place
    ensures var r := StartPutAt(s, offs); Inv(source, r) && r.low == r.put.place && (Settled(s) ==> Settled(r))
  {
    hide SourceAt, Correct, Covered, Below, Peer.Seek, Peer.Seeks;
    PutSeekShape(s.put, offs);
    var at := s.put.Seek(true, offs).place;
    SourceAtEmpty(source, at);
    BelowKeepsCorrect(source, s.dest, Min(s.put.place - |s.put.buf|, at));
    BelowIsCovered(s.dest, Min(s.put.place - |s.put.buf|, at), at);
  }

  lemma SkipGetKeepsInv(source: seq<Byte>, s: Copy, n: nat, bytesCount: int)
    requires Inv(source, s) && n <= |s.get.buf|
    ensures Inv(source, s.(get := s.get.Skip(n), bytesCount := bytesCount))
  {
    hide SourceAt, Correct, Covered;
    SourceAtSplit(source, s.get.pos, s.get.buf, n);
  }

  lemma CatchUpKeepsInvIff(source: seq<Byte>, s: Copy)
    requires Inv(source, s) && Settled(s) && s.get.pos < s.put.pos
    ensures Inv(source, CatchUp(s)) <==> !(SeeksBack(s) && Loses(s))
  {
    hide Inv, Peer.Seek, Peer.Skip, SeekPut, Loses;
    SeekPutKeepsInvIff(source, s);
    var skip := s.put.pos - s.get.pos;
    var n := if skip > |s.get.buf| then |s.get.buf| else skip;
    SkipGetKeepsInv(source, s, n, s.bytesCount + n);
  }

  lemma AheadKeepsInvIff(source: seq<Byte>, s: Copy, inp: Inputs)
    requires Inv(source, s) && Stays(inp.low3) && s.line == [] && Settled(s) && s.get.pos < s.put.pos
    ensures Inv(source, Ahead(s, inp)) <==> !(FallsBehind(s) && Loses(s))
  {
    hide Inv, AtEof, CatchUp, Peer.Sized;
    var s1 := s.(get := s.get.Sized());
    SizedKeepsInv(source, s);
    SizedKeeps(s.get);
    AtEofKeepsInv(source, s1, inp.low3);
    CatchUpKeepsInvIff(source, s1);
  }

  lemma NoLineKeepsInv(source: seq<Byte>, s: Copy)
    requires Inv(source, s)
    ensures Inv(source, s.(line := [])) && s.get.rangeStart == s.put.rangeStart && Inv(source, Fail(s))
  {
    hide Correct, Covered;
  }

  lemma RealignKeepsInvIff(source: seq<Byte>, s0: Copy, inp: Inputs)
    requires Inv(source, s0) && AllStay(inp) && Settled(s0)
    ensures Inv(source, Realign(s0, inp)) <==> !(FallsBehind(s0) && Loses(s0))
  {
    hide Inv, Ahead, SeekGet, Loses;
    NoLineKeepsInv(source, s0);
    var s := s0.(line := []);
    NoLineKeepsInv(source, s);
    SeekGetKeepsInv(source, s, s.put.pos);
    LosesWithoutLine(s0);
    if s.get.pos < s.put.pos { AheadKeepsInvIff(source, s, inp); }
  }

  lemma LosesWithoutLine(s: Copy)
    ensures var r := s.(line := []); Loses(r) == Loses(s) && FallsBehind(r) == FallsBehind(s)
    ensures var r := s.(get := s.get.Sized()); Loses(r) == Loses(s) && FallsBehind(r) == FallsBehind(s)
  {
  }

  lemma HinderedKeepsInv(source: seq<Byte>, s: Copy)
    requires Inv(source, s)
    ensures Inv(source, Hindered(s))
  {
    hide SourceAt, Correct, Covered, Hindered, BrokenOff;
    HinderedShape(s);
    BrokenOffShape(s);
    SourceAtEmpty(source, s.get.pos);
  }

  lemma InvMeansRanges(source: seq<Byte>, s: Copy)
    requires Inv(source, s)
    ensures s.get.rangeStart == s.put.rangeStart
  {
  }

  /** A call that copies keeps everything right, as long as the destination goes on where it says
      it is, no direct write moves it and the line buffer is in place, exactly if the destination
      does not seek back into what it still buffers. */
  lemma CopyStepKeepsInvIff(source: seq<Byte>, s: Copy, inp: Inputs)
    requires Inv(source, s) && AllStay(inp) && LineInPlace(s) && Settled(s) && s.phase == DoCopy && !s.failed
    ensures Inv(source, CopyStep(s, inp)) <==> !(CallSeeksBack(s, inp) && Loses(s))
  {
    hide Inv, CopyData, Realign, Hindered, Clear, Peer.Sized, Loses, FallsBehind;
    InvMeansRanges(source, s);
    SizedKeeps(s.get);
    SizedKeepsInv(source, s);
    HinderedKeepsInv(source, s);
    LosesWithoutLine(s);
    var s1 := s.(get := s.get.Sized());
    if s1.get.pos - |s1.line| == s1.put.pos {
      CopyDataKeepsInv(source, s1, inp);
    } else {
      RealignKeepsInvIff(source, s1, inp);
    }
  }

  lemma SizedKeepsInv(source: seq<Byte>, s: Copy)
    requires Inv(source, s)
    ensures Inv(source, s.(get := s.get.Sized()))
  {
    hide SourceAt, Correct, Covered;
  }

  lemma NothingToLose(s: Copy, inp: Inputs)
    requires Settled(s) && s.put.buf == []
    ensures !(CallSeeksBack(s, inp) && Loses(s))
  {
    hide Clear, SeeksBack, Peer.Sized, Peer.Seeks;
  }

  lemma StartCopyKeepsInv(source: seq<Byte>, s: Copy, inp: Inputs)
    requires Inv(source, s) && AllStay(inp) && s.line == [] && Settled(s) && s.put.buf == [] && !s.failed
    ensures Inv(source, StartCopy(s, inp))
  {
    hide SourceAt, Correct, Covered, CopyStep, CallSeeksBack, Loses;
    var m := s.(phase := DoCopy);
    NothingToLose(m, inp);
    CopyStepKeepsInvIff(source, m, inp);
  }

  // The destination is ready: the source is brought to it, and copying begins.
  lemma ReadyKeepsInv(source: seq<Byte>, s: Copy, inp: Inputs)
    requires Inv(source, s) && AllStay(inp) && s.line == [] && Settled(s) && s.put.buf == [] && !s.failed
    ensures Inv(source, StartCopy(if s.get.canSeek then SeekGet(s, s.put.pos) else s, inp))
  {
    hide Inv, StartCopy, Peer.Seek;
    SeekGetKeepsInv(source, s, s.put.pos);
    StartCopyKeepsInv(source, if s.get.canSeek then SeekGet(s, s.put.pos) else s, inp);
  }

  lemma AwaitPutKeepsInv(source: seq<Byte>, s: Copy, inp: Inputs)
    requires Inv(source, s) && AllStay(inp) && s.line == [] && Settled(s) && s.put.buf == [] && !s.failed
    ensures Inv(source, AwaitPut(s, inp))
  {
    hide Inv, PreConfirm, PreGetDone, StartCopy, SeekGet, Peer.Sized, AllStay;
    SizedKeepsInv(source, s);
    SizedKeeps(s.get);
    NoLineKeepsInv(source, s);
    var s1 := if s.put.seekPos != FILE_END then s.(get := s.get.Sized()) else s;
    ConfirmKeepsInv(source, s1);
    GetDoneKeepsInv(source, s1);
    ReadyKeepsInv(source, s1, inp);
  }

  // The destination begins here, with nothing buffered.
  predicate Fresh(s: Copy) {
    s.low == s.put.place && s.line == [] && Settled(s) && s.put.buf == [] && !s.failed
  }

  lemma StartPutIsFresh(source: seq<Byte>, s: Copy, offs: int)
    requires Inv(source, s) && Fresh(s)
    ensures Inv(source, StartPutAt(s, offs)) && Fresh(StartPutAt(s, offs))
  {
    hide Inv, Peer.Seek, Peer.Seeks, HeldAfter;
    StartPutKeepsInv(source, s, offs);
    PutSeekShape(s.put, offs);
  }

  lemma AtRangeStartKeepsInv(source: seq<Byte>, s: Copy)
    requires Inv(source, s) && Fresh(s)
    ensures Inv(source, AtRangeStart(s)) && Fresh(AtRangeStart(s))
  {
    hide Inv, StartPutAt, Peer.Seek;
    StartPutIsFresh(source, s, s.put.rangeStart);
    var s1 := if s.put.rangeStart > 0 && s.put.canSeek then StartPutAt(s, s.put.rangeStart) else s;
    SeekGetKeepsInv(source, s1, s1.get.rangeStart);
  }

  lemma FromHere(source: seq<Byte>, s: Copy)
    requires Inv(source, s)
    ensures Inv(source, s.(low := s.put.place))
  {
    hide SourceAt, Correct, Covered;
    CoveredFromHere(s.dest, s.low, s.put.place);
  }

  lemma BeginKeepsInv(source: seq<Byte>, s0: Copy, inp: Inputs)
    requires Inv(source, s0) && AllStay(inp) && s0.line == [] && Settled(s0) && s0.put.buf == [] && !s0.failed
    ensures Inv(source, Begin(s0, inp))
  {
    hide Inv, AwaitPut, StartCopy, AtRangeStart, StartPutAt;
    var s := s0.(low := s0.put.place);
    FromHere(source, s0);
    StartPutIsFresh(source, s, FILE_END);
    EnterPhase(source, StartPutAt(s, FILE_END), PutWait);
    AwaitPutKeepsInv(source, StartPutAt(s, FILE_END).(phase := PutWait), inp);
    AtRangeStartKeepsInv(source, s);
    StartCopyKeepsInv(source, AtRangeStart(s), inp);
  }

  lemma EnterPhase(source: seq<Byte>, s: Copy, phase: Phase)
    requires Inv(source, s)
    ensures Inv(source, s.(phase := phase)) && s.get.rangeStart == s.put.rangeStart
  {
    hide SourceAt, Correct, Covered;
  }

  /** One call keeps every byte at its place and leaves no gap, provided that no direct write moves
      the destination, that the destination will go on where it says it is and that the peers have
      not moved by the same distance under a line buffer, exactly if it does not make the
      destination seek back into what that still buffers. */
  lemma DoKeepsInvIff(source: seq<Byte>, s: Copy, inp: Inputs)
    requires Inv(source, s) && AllStay(inp) && LineInPlace(s) && Settled(s)
    requires !Late(s) ==> s.line == [] && s.put.buf == []
    ensures Inv(source, Do(s, inp)) <==> !(CallSeeksBack(s, inp) && Loses(s))
  {
    hide Inv, Begin, AwaitPut, CopyStep, Confirm, GetDone, LineInPlace, Loses;
    if !s.failed {
      match s.phase
      case Initial => BeginKeepsInv(source, s, inp);
      case PutWait => AwaitPutKeepsInv(source, s, inp);
      case DoCopy => CopyStepKeepsInvIff(source, s, inp);
      case ConfirmWait => ConfirmKeepsInv(source, s);
      case GetDoneWait => GetDoneKeepsInv(source, s);
      case AllDone =>
    }
  }

  // Nothing goes wrong in a call.
  ghost predicate Undisturbed(s: Copy, inp: Inputs) {
    AllStay(inp) && LineInPlace(s) && Settled(s) && KeepsBuffer(s, inp)
  }

  lemma DoKeepsInv(source: seq<Byte>, s: Copy, inp: Inputs)
    requires Inv(source, s) && Undisturbed(s, inp) && EarlyLineEmpty(s)
    ensures Inv(source, Do(s, inp))
  {
    hide Inv, Do, Loses, LineInPlace, AllStay, Settled, CallSeeksBack;
    DoKeepsInvIff(source, s, inp);
    NotLateSeeksNot(s, inp);
  }

  lemma NotLateSeeksNot(s: Copy, inp: Inputs)
    ensures !Late(s) ==> !CallSeeksBack(s, inp)
  {
  }

  // ---------------------------------------------------------------- whole runs

  // Before the copying begins, nothing is held back.
  predicate EarlyLineEmpty(s: Copy) {
    s.phase == Initial || s.phase == PutWait ==> s.line == []
  }

  lemma ConfirmIsLate(s: Copy)
    ensures Late(PreConfirm(s))
  {
    hide PreConfirm;
    PreConfirmShape(s);
  }

  lemma AtEofIsLate(s: Copy, low: LowWrite)
    requires Late(s)
    ensures Late(AtEof(s, low))
  {
    hide Flushed, AfterSizeCheck, SizeOk, PreConfirm;
    FlushedShape(s, low);
    AfterSizeCheckShape(Flushed(s, low));
    ConfirmIsLate(AfterSizeCheck(Flushed(s, low)));
  }

  lemma PuttingIsLate(s: Copy, inp: Inputs)
    requires Late(s)
    ensures var n := Allowed(s.get); Late(ThroughLine(s, n, inp)) && Late(Straight(s, n, inp))
  {
    hide ThroughLine, Straight, Allowed, Peer.Skip;
    ThroughLineShape(s, Allowed(s.get), inp);
    StraightShape(s, Allowed(s.get), inp);
  }

  lemma CopyDataIsLate(s: Copy, inp: Inputs)
    requires Late(s)
    ensures Late(CopyData(s, inp))
  {
    hide AtEof, ThroughLine, Straight, Allowed, Late;
    var n := Allowed(s.get);
    PuttingIsLate(s, inp);
    AtEofIsLate(s, inp.low3);
    AtEofIsLate(ThroughLine(s, n, inp), inp.low3);
    AtEofIsLate(Straight(s, n, inp), inp.low3);
  }

  lemma RealignIsLate(s: Copy, inp: Inputs)
    requires Late(s)
    ensures Late(Realign(s, inp))
  {
    hide AtEof, Behind, CatchUp, Peer.Sized;
    var s1 := s.(line := [], get := s.get.Sized());
    AtEofIsLate(s1, inp.low3);
    BehindShape(s.(line := []));
    CatchUpShape(s1);
  }

  lemma CopyStepIsLate(s: Copy, inp: Inputs)
    requires Late(s)
    ensures Late(CopyStep(s, inp))
  {
    hide CopyData, Realign, Hindered, BrokenOff, Peer.Sized, Clear;
    CopyDataIsLate(s.(get := s.get.Sized()), inp);
    RealignIsLate(s.(get := s.get.Sized()), inp);
    HinderedShape(s);
    BrokenOffShape(s);
  }

  lemma AwaitPutIsEarly(s: Copy, inp: Inputs)
    requires s.line == [] && s.phase == PutWait
    ensures EarlyLineEmpty(AwaitPut(s, inp))
  {
    hide CopyStep, PreConfirm, PreGetDone, Peer.Seek, Peer.Sized;
    var s0 := if s.put.seekPos != FILE_END then s.(get := s.get.Sized()) else s;
    PreConfirmShape(s0);
    PreGetDoneShape(s0);
    CopyStepIsLate((if s0.get.canSeek then SeekGet(s0, s0.put.pos) else s0).(phase := DoCopy), inp);
  }

  lemma DoKeepsEarly(s: Copy, inp: Inputs)
    requires EarlyLineEmpty(s)
    ensures EarlyLineEmpty(Do(s, inp))
  {
    hide CopyStep, AwaitPut, AtRangeStart, Confirm, GetDone, Peer.Seek;
    if Late(s) {
      CopyStepIsLate(s, inp);
      ConfirmShape(s);
      GetDoneShape(s);
    } else if s.phase == PutWait {
      AwaitPutIsEarly(s, inp);
    } else {
      var s0 := s.(low := s.put.place);
      AwaitPutIsEarly(StartPutAt(s0, FILE_END).(phase := PutWait), inp);
      CopyStepIsLate(AtRangeStart(s0).(phase := DoCopy), inp);
    }
  }

  /** What happens between two calls and in the next: both peers may have moved, buffered or
      written anything, and a destination that was looking for its end may have found `found`
      there; then Do is called with `inp`. */
  datatype Turn = Turn(get: Peer, put: Peer, found: seq<Byte>, inp: Inputs)

  function Moved(s: Copy, t: Turn): Copy {
    var ahead := t.put.place > s.put.place;
    s.(get := t.get, put := t.put,
       dest := Below(if ahead then s.dest + Written(0, t.found) else s.dest, t.put.place),
       low := if ahead then 0 else Min(s.low, t.put.place))
  }

  /** What the peers owe: the ranges stay; a source peer buffers the source's bytes; a destination
      peer still holds or buffers what it was given up to its place, which may fall back but never
      jumps forward, except that of one looking for its end, which may find an existing file, whose
      contents the user vouches for. Once it has confirmed everything it is suspended. */
  ghost predicate PeersHonest(source: seq<Byte>, s: Copy, t: Turn) {
    && t.get.rangeStart == t.put.rangeStart
    && SourceAt(source, t.get.pos, t.get.buf)
    && StillBuffered(s.dest, t.put)
    && (t.put.place <= s.put.place ||
        (s.put.seekPos == FILE_END && t.put.place == |t.found| && SourceAt(source, 0, t.found)))
    && (Confirmed(s.phase) ==> t.put == s.put)
  }

  // What a destination peer buffers is what it was given.
  ghost predicate StillBuffered(dest: map<int, Byte>, p: Peer) {
    forall i: nat :: i < |p.buf| ==> BufferedAt(dest, p, i)
  }

  // The i-th byte buffered, in its place.
  predicate BufferedAt(d: map<int, Byte>, r: Peer, i: nat)
    requires i < |r.buf|
  {
    var at := r.place - |r.buf| + i;
    at in d && d[at] == r.buf[i]
  }

  lemma BufferedBelongs(source: seq<Byte>, dest: map<int, Byte>, p: Peer)
    requires Correct(source, dest) && StillBuffered(dest, p)
    ensures SourceAt(source, p.place - |p.buf|, p.buf)
  {
    if p.buf != [] {
      var at, n := p.place - |p.buf|, |p.buf|;
      assert BufferedAt(dest, p, 0) && BufferedAt(dest, p, n - 1);
      forall i: nat | i < n ensures source[at..at + n][i] == p.buf[i] {
        assert BufferedAt(dest, p, i);
      }
      assert p.buf == source[at..at + n];
    }
  }

  predicate Confirmed(p: Phase) { p == GetDoneWait || p == AllDone }

  lemma MovedKeepsInv(source: seq<Byte>, s: Copy, t: Turn)
    requires Inv(source, s) && PeersHonest(source, s, t)
    ensures Inv(source, Moved(s, t))
  {
    hide SourceAt, Correct, Covered, Below, StillBuffered;
    var ahead := t.put.place > s.put.place;
    BufferedBelongs(source, s.dest, t.put);
    if ahead { WrittenKeepsCorrect(source, s.dest, 0, t.found); }
    BelowKeepsCorrect(source, if ahead then s.dest + Written(0, t.found) else s.dest, t.put.place);
    if ahead {
      FoundIsCovered(s.dest, t.found);
    } else {
      FallenBackIsCovered(s.dest, s.low, s.put.place, t.put.place);
      assert Moved(s, t).dest == Below(s.dest, t.put.place);
    }
  }

  lemma FoundIsCovered(dest: map<int, Byte>, found: seq<Byte>)
    ensures Covered(Below(dest + Written(0, found), |found|), 0, |found|)
  {
  }

  lemma FallenBackIsCovered(dest: map<int, Byte>, lo: int, hi: int, to: int)
    requires Covered(dest, lo, hi) && to <= hi
    ensures Covered(Below(dest, to), Min(lo, to), to)
  {
  }

  // A run all of whose turns are honest and undisturbed.
  ghost predicate GoodRun(source: seq<Byte>, s: Copy, turns: seq<Turn>)
    decreases |turns|
  {
    turns == [] ||
    (var m := Moved(s, turns[0]);
     && PeersHonest(source, s, turns[0]) && Undisturbed(m, turns[0].inp)
     && GoodRun(source, Do(m, turns[0].inp), turns[1..]))
  }

  function Run(s: Copy, turns: seq<Turn>): Copy
    decreases |turns|
  {
    if turns == [] then s else Run(Do(Moved(s, turns[0]), turns[0].inp), turns[1..])
  }

  lemma {:induction false} RunKeepsInv(source: seq<Byte>, s: Copy, turns: seq<Turn>)
    requires Inv(source, s) && EarlyLineEmpty(s) && GoodRun(source, s, turns)
    ensures Inv(source, Run(s, turns))
    decreases |turns|
  {
    hide Inv, Do, PeersHonest, Undisturbed;
    if turns != [] {
      var m := Moved(s, turns[0]);
      MovedKeepsInv(source, s, turns[0]);
      MovedStaysEarly(s, turns[0]);
      DoKeepsInv(source, m, turns[0].inp);
      DoKeepsEarly(m, turns[0].inp);
      RunKeepsInv(source, Do(m, turns[0].inp), turns[1..]);
    }
  }

  lemma MovedStaysEarly(s: Copy, t: Turn)
    ensures EarlyLineEmpty(s) ==> EarlyLineEmpty(Moved(s, t))
    ensures Late(Moved(s, t)) == Late(s)
  {
    hide Below, Written;
  }

  // A copy as it is made: empty peers at the start of the same range.
  function Start(get: Peer, put: Peer, cont: bool, lineBuffered: bool, lineMax: int,
                 failIfCannotSeek: bool, failIfBroken: bool): Copy {
    Copy(Initial, get.(buf := []), put.(buf := []), cont, false, lineBuffered, [], lineMax, 0, 0,
         failIfCannotSeek, failIfBroken, map[], put.place, 0)
  }

  /** In every good run of a copy the destination holds or buffers, from the lowest offset it was
      positioned at to its present place, exactly that part of the source, and nothing elsewhere
      that the source does not have there, and nothing beyond. */
  lemma EveryCopyIsExact(source: seq<Byte>, get: Peer, put: Peer, cont: bool, lineBuffered: bool, lineMax: int,
                         failIfCannotSeek: bool, failIfBroken: bool, turns: seq<Turn>)
    requires get.rangeStart == put.rangeStart
    requires GoodRun(source, Start(get, put, cont, lineBuffered, lineMax, failIfCannotSeek, failIfBroken), turns)
    ensures var s := Run(Start(get, put, cont, lineBuffered, lineMax, failIfCannotSeek, failIfBroken), turns);
      && (forall p :: p in s.dest ==> 0 <= p < |source| && s.dest[p] == source[p])
      && (forall p :: s.low <= p < s.put.place ==> p in s.dest) && (forall p :: p in s.dest ==> p < s.put.place)
  {
    hide GoodRun, Run;
    var s0 := Start(get, put, cont, lineBuffered, lineMax, failIfCannotSeek, failIfBroken);
    RunKeepsInv(source, s0, turns);
  }

  // ---------------------------------------------------------------- what a copying call does

  lemma GetDoneLow(s: Copy)
    ensures PreGetDone(s).low == s.low && PreGetDone(s).phase != Initial
    ensures GetDone(s).low == s.low && (s.phase != Initial ==> GetDone(s).phase != Initial)
  {
    hide GetDone, PreGetDone;
    GetDoneShape(s);
    PreGetDoneShape(s);
  }

  lemma ConfirmLow(s: Copy)
    ensures PreConfirm(s).low == s.low && PreConfirm(s).phase != Initial
    ensures Confirm(s).low == s.low && (s.phase != Initial ==> Confirm(s).phase != Initial)
  {
    hide Confirm, PreConfirm;
    ConfirmShape(s);
    PreConfirmShape(s);
  }

  lemma ConfirmPutsNothing(s: Copy)
    ensures PreConfirm(s).dest == s.dest && PreConfirm(s).put.place == s.put.place
    ensures Confirm(s).dest == s.dest
  {
    hide Confirm, PreConfirm;
    ConfirmShape(s);
    PreConfirmShape(s);
  }

  lemma ThroughLineLow(s: Copy, n: nat, inp: Inputs)
    requires n <= |s.get.buf|
    ensures ThroughLine(s, n, inp).low <= s.low && ThroughLine(s, n, inp).phase == s.phase
  {
    hide ThroughLine, Peer.Skip;
    ThroughLineShape(s, n, inp);
  }
}

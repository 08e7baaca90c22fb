/**
 Receiving a body in Http.cc: plain or chunked (section 4.1 of RFC 7230), in whatever pieces it
 arrives and is asked for, skipping what comes before the position that is wanted.
 */
module HttpBody {

  type Byte = bv8
  const CR: Byte := 13
  const LF: Byte := 10

  // ---------------------------------------------------------------- chunk headers

  predicate IsHex(c: Byte) { 48 <= c <= 57 || 65 <= c <= 70 || 97 <= c <= 102 }

  function HexValue(c: Byte): nat
    requires IsHex(c)
  {
    if c <= 57 then c as int - 48 else if c <= 70 then c as int - 55 else c as int - 87
  }

  // The leading hexadecimal digits as a number, after v.
  function Hex(v: nat, s: seq<Byte>): nat
    decreases |s|
  {
    if s != [] && IsHex(s[0]) then Hex(v * 16 + HexValue(s[0]), s[1..]) else v
  }

  // What scanning for "%lx" makes of a line, with its optional 0x.
  function ScanHex(line: seq<Byte>): nat {
    if |line| > 2 && line[0] == 48 && (line[1] == 120 || line[1] == 88) && IsHex(line[2]) then Hex(0, line[2..])
    else Hex(0, line)
  }

  // The index of the first line feed, or the length.
  function LineEnd(s: seq<Byte>): (n: nat)
    ensures n <= |s|
    ensures forall i :: 0 <= i < n ==> s[i] != LF
    ensures n < |s| ==> s[n] == LF
  {
    if s == [] || s[0] == LF then 0 else 1 + LineEnd(s[1..])
  }

  // ---------------------------------------------------------------- what the wire carries

  /** How a body ends: with what follows it, too early, or against the format. */
  datatype End = Ended(tail: seq<Byte>) | Cut | Broken

  datatype Decoded = Decoded(body: seq<Byte>, end: End)

  const UNKNOWN: int := -1

  /** What a whole wire carries for a decoder that is `pos` bytes into a chunk of `size`, or at
      a chunk's head if the size is unknown. Nothing here depends on how the wire is cut up. */
  function Decode(size: int, pos: nat, wire: seq<Byte>): Decoded
    decreases |wire|, size - pos
  {
    if size < 0 then
      var n := LineEnd(wire);
      if n == |wire| then Decoded([], Cut)
      else if !IsHex(wire[0]) then Decoded([], Broken)
      else Decode(ScanHex(wire[..n]), 0, wire[n + 1..])
    else if wire == [] then Decoded([], Cut)
    else if size == 0 then Decoded([], Ended(wire))
    else if pos >= size then
      if |wire| < 2 then Decoded([], Cut)
      else if wire[0] != CR || wire[1] != LF then Decoded([], Broken)
      else Decode(UNKNOWN, 0, wire[2..])
    else
      var n := if |wire| < size - pos then |wire| else size - pos;
      var d := Decode(size, pos + n, wire[n..]);
      Decoded(wire[..n] + d.body, d.end)
  }

  // Taking part of a chunk's data first changes nothing.
  lemma DecodeSplit(size: nat, pos: nat, wire: seq<Byte>, m: nat)
    requires pos < size && m <= |wire| && m <= size - pos
    ensures var d := Decode(size, pos + m, wire[m..]);
      Decode(size, pos, wire) == Decoded(wire[..m] + d.body, d.end)
  {
    hide Decode;
    var n := if |wire| < size - pos then |wire| else size - pos;
    DecodeRun(size, pos, wire, n);
    if m == 0 {
      assert wire[m..] == wire && wire[..m] == [];
      var d := Decode(size, pos, wire);
      assert [] + d.body == d.body;
    } else if m < n {
      DecodeRun(size, pos + m, wire[m..], n - m);
      SplitTwice(wire, m, n, Decode(size, pos + n, wire[n..]).body);
    }
  }

  // The data of a chunk, as far as the wire goes.
  lemma DecodeRun(size: nat, pos: nat, wire: seq<Byte>, n: nat)
    requires pos < size && n == if |wire| < size - pos then |wire| else size - pos
    ensures var d := Decode(size, pos + n, wire[n..]); Decode(size, pos, wire) == Decoded(wire[..n] + d.body, d.end)
  {
    if wire == [] { assert wire[n..] == wire; }
  }

  lemma SplitTwice(w: seq<Byte>, m: nat, n: nat, s: seq<Byte>)
    requires m <= n <= |w|
    ensures w[m..][n - m..] == w[n..] && w[..m] + (w[m..][..n - m] + s) == w[..n] + s
  {
    assert w[m..][..n - m] == w[m..n] && w[..m] + w[m..n] == w[..n];
  }

  /** A chunk as it is sent: its size line, of hexadecimal digits and perhaps an extension, and
      its data. */
  datatype Chunk = Chunk(line: seq<Byte>, data: seq<Byte>)

  /** What a size line says: hexadecimal digits, in either case and perhaps after zeros, that stand
      for the size place by place, and then nothing or an extension. */
  predicate SizeLine(line: seq<Byte>, size: nat) {
    var k := DigitCount(line);
    k > 0 && Number(line[..k]) == size && LF !in line && (k < |line| ==> !IsX(line[k]))
  }

  predicate IsX(c: Byte) { c == 120 || c == 88 }

  // The number of hexadecimal digits that begin a line.
  function DigitCount(line: seq<Byte>): (k: nat)
    ensures k <= |line| && AllHex(line[..k]) && (k < |line| ==> !IsHex(line[k]))
  {
    if line == [] || !IsHex(line[0]) then 0
    else
      var k := DigitCount(line[1..]);
      assert line[..k + 1] == [line[0]] + line[1..][..k];
      k + 1
  }

  predicate AllHex(ds: seq<Byte>) { forall i :: 0 <= i < |ds| ==> IsHex(ds[i]) }

  // Sixteen times what stands before the last place, and that.
  function Number(ds: seq<Byte>): nat
    requires AllHex(ds)
  {
    if ds == [] then 0 else Number(ds[..|ds| - 1]) * 16 + HexValue(ds[|ds| - 1])
  }

  const DIGITS: seq<Byte> := [48, 49, 50, 51, 52, 53, 54, 55, 56, 57, 97, 98, 99, 100, 101, 102]

  // A size as it is printed.
  function HexDigits(n: nat): (ds: seq<Byte>)
    ensures ds != []
  {
    if n < 16 then [DIGITS[n]] else HexDigits(n / 16) + [DIGITS[n % 16]]
  }

  lemma DigitValue(d: nat)
    requires d < 16
    ensures IsHex(DIGITS[d]) && HexValue(DIGITS[d]) == d
  {
    if d < 10 { assert DIGITS[d] <= 57; } else { assert DIGITS[d] >= 97; }
  }

  // Printed digits are digits, and stand for the number.
  lemma {:induction false} PrintedNumber(n: nat)
    ensures AllHex(HexDigits(n)) && Number(HexDigits(n)) == n
  {
    hide Number, HexValue, IsHex;
    DigitValue(n % 16);
    if n >= 16 {
      PrintedNumber(n / 16);
      OneMorePlace(HexDigits(n / 16), DIGITS[n % 16]);
    } else {
      OneMorePlace([], DIGITS[n]);
      assert [] + [DIGITS[n]] == [DIGITS[n]];
      assert Number([]) == 0 by { NoPlace(); }
    }
  }

  lemma NoPlace()
    ensures Number([]) == 0
  {
  }

  lemma OneMorePlace(ds: seq<Byte>, c: Byte)
    requires AllHex(ds) && IsHex(c)
    ensures AllHex(ds + [c]) && Number(ds + [c]) == Number(ds) * 16 + HexValue(c)
  {
    hide HexValue, IsHex;
    assert (ds + [c])[..|ds|] == ds;
  }

  // Reading digits from the left comes to what they stand for place by place.
  lemma {:induction false} HexIsNumber(a: seq<Byte>, b: seq<Byte>, rest: seq<Byte>)
    requires AllHex(a) && AllHex(b) && (rest == [] || !IsHex(rest[0]))
    ensures AllHex(a + b) && Hex(Number(a), b + rest) == Number(a + b)
    decreases |b|
  {
    if b == [] {
      assert b + rest == rest && a + b == a;
    } else {
      var a' := a + [b[0]];
      assert a'[..|a|] == a;
      assert (b + rest)[1..] == b[1..] + rest && a + b == a' + b[1..];
      HexIsNumber(a', b[1..], rest);
    }
  }

  /** The scan finds the size that the line says. */
  lemma SizeIsScanned(line: seq<Byte>, size: nat)
    requires SizeLine(line, size)
    ensures ScanHex(line) == size && IsHex(line[0])
  {
    var k := DigitCount(line);
    assert line[..k][0] == line[0] && line[..k] + line[k..] == line;
    HexIsNumber([], line[..k], line[k..]);
    assert [] + line[..k] == line[..k];
    if |line| > 1 && k > 1 { assert line[..k][1] == line[1]; }
  }

  lemma {:induction false} DigitCountIs(ds: seq<Byte>, rest: seq<Byte>)
    requires AllHex(ds) && (rest == [] || !IsHex(rest[0]))
    ensures DigitCount(ds + rest) == |ds|
  {
    hide IsHex;
    if ds == [] {
      assert ds + rest == rest;
    } else {
      assert (ds + rest)[1..] == ds[1..] + rest;
      DigitCountIs(ds[1..], rest);
    }
  }

  /** A printed size, with nothing or an extension or white space after it, is a size line. */
  lemma PrintedSize(size: nat, extension: seq<Byte>)
    requires LF !in extension && (extension == [] || (!IsHex(extension[0]) && !IsX(extension[0])))
    ensures SizeLine(HexDigits(size) + extension, size)
  {
    var ds := HexDigits(size);
    PrintedNumber(size);
    DigitCountIs(ds, extension);
    var line := ds + extension;
    assert line[..|ds|] == ds;
    forall i | 0 <= i < |ds| ensures ds[i] != LF {
      assert IsHex(ds[i]);
    }
  }

  predicate WellFormed(chunks: seq<Chunk>) {
    forall i :: 0 <= i < |chunks| ==> chunks[i].data != [] && SizeLine(chunks[i].line, |chunks[i].data|)
  }

  function Encode(chunks: seq<Chunk>, last: seq<Byte>): seq<Byte> {
    if chunks == [] then last + [LF]
    else chunks[0].line + [LF] + chunks[0].data + [CR, LF] + Encode(chunks[1..], last)
  }

  function BodyOf(chunks: seq<Chunk>): seq<Byte> {
    if chunks == [] then [] else chunks[0].data + BodyOf(chunks[1..])
  }

  lemma LineEndOf(line: seq<Byte>, s: seq<Byte>)
    requires LF !in line
    ensures var w := line + [LF] + s; LineEnd(w) == |line| && w[..|line|] == line && w[|line| + 1..] == s
  {
    var w := line + [LF] + s;
    assert w[|line|] == LF;
    forall i | 0 <= i < |line| ensures w[i] != LF {
      assert w[i] == line[i] && line[i] in line;
    }
    LineEndIs(w, |line|);
  }

  lemma LineEndIs(s: seq<Byte>, n: nat)
    requires n < |s| && s[n] == LF && forall i :: 0 <= i < n ==> s[i] != LF
    ensures LineEnd(s) == n
  {
  }

  lemma DecodeHead(line: seq<Byte>, size: nat, s: seq<Byte>)
    requires SizeLine(line, size)
    ensures Decode(UNKNOWN, 0, line + [LF] + s) == Decode(size, 0, s)
  {
    LineEndOf(line, s);
    SizeIsScanned(line, size);
    assert (line + [LF] + s)[0] == line[0];
  }

  lemma DecodeData(data: seq<Byte>, s: seq<Byte>)
    requires data != []
    ensures var d := Decode(UNKNOWN, 0, s);
      Decode(|data|, 0, data + [CR, LF] + s) == Decoded(data + d.body, d.end)
  {
    var w := data + [CR, LF] + s;
    DecodeSplit(|data|, 0, w, |data|);
    var t := w[|data|..];
    assert t == [CR, LF] + s && t[2..] == s && t[0] == CR && t[1] == LF && w[..|data|] == data;
  }

  /** Decoding is the inverse of encoding, whatever the body and however it is divided into
      chunks, and what follows is left alone. */
  lemma {:induction false} DecodeEncode(chunks: seq<Chunk>, last: seq<Byte>, tail: seq<Byte>)
    requires WellFormed(chunks) && SizeLine(last, 0) && tail != []
    ensures Decode(UNKNOWN, 0, Encode(chunks, last) + tail) == Decoded(BodyOf(chunks), Ended(tail))
    decreases |chunks|
  {
    hide Decode, SizeLine;
    if chunks == [] {
      DecodeHead(last, 0, tail);
      LastChunk(tail);
    } else {
      var c := chunks[0];
      var s := Encode(chunks[1..], last) + tail;
      assert SizeLine(c.line, |c.data|) && WellFormed(chunks[1..]);
      assert Encode(chunks, last) + tail == c.line + [LF] + (c.data + [CR, LF] + s);
      DecodeHead(c.line, |c.data|, c.data + [CR, LF] + s);
      DecodeData(c.data, s);
      DecodeEncode(chunks[1..], last, tail);
    }
  }

  // Pieces of a body as they are sent: each with its size printed, and CR LF after it.
  function Printed(pieces: seq<seq<Byte>>): seq<Chunk> {
    if pieces == [] then []
    else [Chunk(HexDigits(|pieces[0]|) + [CR], pieces[0])] + Printed(pieces[1..])
  }

  function Concat(pieces: seq<seq<Byte>>): seq<Byte> {
    if pieces == [] then [] else pieces[0] + Concat(pieces[1..])
  }

  lemma {:induction false} PrintedIsWellFormed(pieces: seq<seq<Byte>>)
    requires forall i :: 0 <= i < |pieces| ==> pieces[i] != []
    ensures WellFormed(Printed(pieces)) && BodyOf(Printed(pieces)) == Concat(pieces)
  {
    hide SizeLine, HexDigits;
    if pieces != [] {
      PrintedSize(|pieces[0]|, [CR]);
      PrintedIsWellFormed(pieces[1..]);
      assert Printed(pieces)[1..] == Printed(pieces[1..]);
    }
  }

  /** A body sent in any pieces, with printed sizes, is decoded to exactly that body. */
  lemma PrintedDecodes(pieces: seq<seq<Byte>>, tail: seq<Byte>)
    requires (forall i :: 0 <= i < |pieces| ==> pieces[i] != []) && tail != []
    ensures Decode(UNKNOWN, 0, Encode(Printed(pieces), HexDigits(0) + [CR]) + tail)
         == Decoded(Concat(pieces), Ended(tail))
  {
    hide Decode, SizeLine, HexDigits, Encode, Printed, WellFormed;
    PrintedIsWellFormed(pieces);
    PrintedSize(0, [CR]);
    DecodeEncode(Printed(pieces), HexDigits(0) + [CR], tail);
  }

  lemma LastChunk(tail: seq<Byte>)
    requires tail != []
    ensures Decode(0, 0, tail) == Decoded([], Ended(tail))
  {
  }

  // ---------------------------------------------------------------- the reader

  /** Where a response is: in its body, in the trailer after the last chunk, given up by a
      disconnect, or failed for good. */
  datatype Phase = Body | Trailer | Gone | Failed

  datatype Fault = NoFault | Soft | Hard

  /** What one response has come to. `pos` is the entity's offset that the caller wants next,
      and `realPos` that of the next byte of the body. */
  datatype Reader = Reader(
    phase: Phase, recv: seq<Byte>, eof: bool, fault: Fault,
    chunked: bool, chunkSize: int, chunkPos: int, bytesReceived: int, bodySize: int, entitySize: int,
    pos: int, realPos: int, noRest: bool)

  datatype Outcome = Data(b: seq<Byte>) | Again | Eof | Fatal

  function Min(a: int, b: int): int { if a < b then a else b }

  // n bytes of the body leave the buffer.
  function Skip(s: Reader, n: nat): Reader
    requires n <= |s.recv|
  {
    s.(recv := s.recv[n..], chunkPos := if s.chunked then s.chunkPos + n else s.chunkPos,
       bytesReceived := s.bytesReceived + n, realPos := s.realPos + n)
  }

  // How much of what has arrived is body of the present chunk, or of the body's known size, and
  // allowed by the rate limit.
  function Available(s: Reader, allowed: nat): int {
    var n := |s.recv|;
    var n1 := if s.chunked then Min(n, s.chunkSize - s.chunkPos)
              else if s.bodySize >= 0 then Min(n, s.bodySize - s.bytesReceived) else n;
    Min(n1, allowed)
  }

  // Waiting for more, unless there will be none.
  function NotYet(s: Reader): (Reader, Outcome) {
    (if s.eof then s.(phase := Gone) else s, Again)
  }

  // The counters are in step with each other.
  predicate Valid(s: Reader) {
    && s.bytesReceived >= 0
    && (s.chunked && s.chunkSize >= 0 ==> 0 <= s.chunkPos <= s.chunkSize)
    && (s.chunked ==> s.chunkSize >= UNKNOWN)
    && (!s.chunked && s.bodySize >= 0 ==> s.bytesReceived <= s.bodySize)
  }

  // One pass of _Read, taken over and over until it returns.
  function Read0(s: Reader, size: nat, allowed: nat): (r: (Reader, Outcome))
    requires Valid(s)
    decreases |s.recv|, 1
  {
    if s.recv == [] && s.fault != NoFault then (s.(phase := if s.fault == Hard then Failed else Gone), Again)
    else if s.recv == [] && s.eof then
      if s.bytesReceived < s.bodySize || s.chunked then (s.(phase := Gone), Again) else (s, Eof)
    else if !s.chunked && s.bodySize >= 0 && s.bytesReceived >= s.bodySize then (s, Eof)
    else if !s.chunked && s.entitySize >= 0 && s.pos >= s.entitySize then (s, Eof)
    else if s.recv == [] then (s, Again)
    else if s.chunked && s.chunkSize == UNKNOWN then
      var n := LineEnd(s.recv);
      if n == |s.recv| then NotYet(s)
      else if !IsHex(s.recv[0]) then (s.(phase := Failed), Fatal)
      else Read0(s.(recv := s.recv[n + 1..], chunkSize := ScanHex(s.recv[..n]), chunkPos := 0), size, allowed)
    else if s.chunked && s.chunkSize == 0 then (s.(phase := Trailer, bodySize := s.bytesReceived), Again)
    else if s.chunked && s.chunkPos == s.chunkSize then
      if |s.recv| < 2 then NotYet(s)
      else if s.recv[0] != CR || s.recv[1] != LF then (s.(phase := Failed), Fatal)
      else Read0(s.(recv := s.recv[2..], chunkSize := UNKNOWN), size, allowed)
    else Take(s, size, allowed)
  }

  function Take(s: Reader, size: nat, allowed: nat): (r: (Reader, Outcome))
    requires Valid(s) && s.recv != [] && (s.chunked ==> s.chunkSize >= 0)
    decreases |s.recv|, 0
  {
    var n := Available(s, allowed);
    if n == 0 then (s, Again)
    else if s.noRest && s.realPos == 0 && s.pos > 0 then (s, Again)
    else if s.realPos < s.pos then Read0(Skip(s, Min(s.pos - s.realPos, n)), size, allowed)
    else
      var m := Min(size, n);
      (Skip(s, m), Data(s.recv[..m]))
  }

  // Read: only in a body, and the wanted position follows what is handed out.
  function Read(s: Reader, size: nat, allowed: nat): (Reader, Outcome)
    requires Valid(s)
  {
    if s.phase == Failed then (s, Fatal)
    else if s.phase == Body && s.realPos >= 0 then
      var (t, o) := Read0(s, size, allowed);
      (if o.Data? then t.(pos := t.pos + |o.b|) else t, o)
    else (s, Again)
  }

  // ---------------------------------------------------------------- it decodes what the wire carries

  /** What the response still has to give, from the rest of the wire: what has arrived and what
      will. */
  function Remaining(s: Reader, wire: seq<Byte>): Decoded
    requires Valid(s)
  {
    if s.phase == Trailer then Decoded([], Ended(wire))
    else if s.chunked then Decode(s.chunkSize, if s.chunkSize < 0 then 0 else s.chunkPos, wire)
    else if s.bodySize < 0 then Decoded(wire, Ended([]))
    else
      var n := s.bodySize - s.bytesReceived;
      if n <= |wire| then Decoded(wire[..n], Ended(wire[n..])) else Decoded(wire, Cut)
  }

  /** Between s and t exactly n bytes of the body were used up, and nothing else of it. */
  ghost predicate Used(s: Reader, t: Reader, n: int, future: seq<Byte>) {
    && Valid(s) && Valid(t)
    && var d := Remaining(s, s.recv + future);
       && 0 <= n <= |d.body|
       && Remaining(t, t.recv + future) == Decoded(d.body[n..], d.end)
       && t.realPos == s.realPos + n && t.bytesReceived == s.bytesReceived + n
       && t.pos == s.pos && t.eof == s.eof && t.fault == s.fault && t.entitySize == s.entitySize
  }

  lemma UsedJoin(s: Reader, t: Reader, u: Reader, n: int, m: int, future: seq<Byte>)
    requires Used(s, t, n, future) && Used(t, u, m, future)
    ensures Used(s, u, n + m, future)
  {
    hide Remaining;
    var d := Remaining(s, s.recv + future);
    assert d.body[n..][m..] == d.body[n + m..];
  }

  lemma UsedNone(s: Reader, future: seq<Byte>)
    requires Valid(s)
    ensures Used(s, s, 0, future)
  {
    hide Remaining;
    var d := Remaining(s, s.recv + future);
    assert d.body[0..] == d.body;
  }

  // Giving the response up leaves what it would have given as it was.
  lemma UsedGone(s: Reader, phase: Phase, future: seq<Byte>)
    requires Valid(s) && s.phase == Body && phase != Trailer
    ensures Used(s, s.(phase := phase), 0, future)
  {
    var d := Remaining(s, s.recv + future);
    assert d.body[0..] == d.body;
  }

  lemma UsedHead(s: Reader, n: nat, future: seq<Byte>)
    requires Valid(s) && s.phase == Body && s.chunked && s.chunkSize == UNKNOWN
    requires n == LineEnd(s.recv) < |s.recv| && IsHex(s.recv[0])
    ensures Used(s, s.(recv := s.recv[n + 1..], chunkSize := ScanHex(s.recv[..n]), chunkPos := 0), 0, future)
  {
    hide Decode, ScanHex;
    var w := s.recv + future;
    LineEndAhead(s.recv, future);
    assert w[..n] == s.recv[..n] && w[n + 1..] == s.recv[n + 1..] + future && w[0] == s.recv[0];
    DecodeLine(w);
    var d := Remaining(s, w);
    assert d.body[0..] == d.body;
  }

  lemma DecodeLine(w: seq<Byte>)
    requires var n := LineEnd(w); n < |w| && IsHex(w[0])
    ensures var n := LineEnd(w); Decode(UNKNOWN, 0, w) == Decode(ScanHex(w[..n]), 0, w[n + 1..])
  {
  }

  lemma LineEndAhead(a: seq<Byte>, b: seq<Byte>)
    requires LineEnd(a) < |a|
    ensures LineEnd(a + b) == LineEnd(a)
  {
    var n := LineEnd(a);
    assert (a + b)[n] == LF;
    forall i | 0 <= i < n ensures (a + b)[i] != LF {
      assert (a + b)[i] == a[i];
    }
    LineEndIs(a + b, n);
  }

  lemma UsedFoot(s: Reader, future: seq<Byte>)
    requires Valid(s) && s.phase == Body && s.chunked && s.chunkSize > 0 && s.chunkPos == s.chunkSize
    requires |s.recv| >= 2 && s.recv[0] == CR && s.recv[1] == LF
    ensures Used(s, s.(recv := s.recv[2..], chunkSize := UNKNOWN), 0, future)
  {
    var w := s.recv + future;
    assert w[2..] == s.recv[2..] + future && w[0] == CR && w[1] == LF;
    var d := Remaining(s, w);
    assert d.body[0..] == d.body;
  }

  lemma UsedData(s: Reader, n: nat, future: seq<Byte>)
    requires Valid(s) && s.phase == Body && s.recv != []
    requires s.chunked ==> s.chunkSize > 0 && s.chunkPos < s.chunkSize && n <= s.chunkSize - s.chunkPos
    requires !s.chunked && s.bodySize >= 0 ==> n <= s.bodySize - s.bytesReceived
    requires n <= |s.recv|
    ensures Used(s, Skip(s, n), n, future)
    ensures Remaining(s, s.recv + future).body[..n] == s.recv[..n]
  {
    hide Decode;
    var w := s.recv + future;
    assert w[n..] == s.recv[n..] + future && w[..n] == s.recv[..n];
    if s.chunked {
      DecodeSplit(s.chunkSize, s.chunkPos, w, n);
      var d := Decode(s.chunkSize, s.chunkPos + n, w[n..]);
      assert (w[..n] + d.body)[n..] == d.body && (w[..n] + d.body)[..n] == w[..n];
    } else if s.bodySize >= 0 {
      var m := s.bodySize - s.bytesReceived;
      if m <= |w| {
        assert w[..m][n..] == w[n..][..m - n] && w[n..][m - n..] == w[m..] && w[..m][..n] == w[..n];
      }
    }
  }

  /** How a return of _Read is to be understood, t being the reader then: bytes handed out are
      the next ones of the body from the wanted position on; a format error is in the wire; the
      trailer is entered when the whole body has been used up; a disconnect without a fault
      means that the wire ended too early; and bytes that have arrived are not held back. */
  ghost predicate Told(s: Reader, t: Reader, o: Outcome, allowed: nat, future: seq<Byte>)
    requires Valid(s) && Valid(t)
  {
    var n := t.realPos - s.realPos;
    var body := Remaining(s, s.recv + future).body;
    var left := Remaining(t, t.recv + future);
    match o
    case Data(b) =>
      && t.phase == Body && |b| <= n <= |body| && b == body[n - |b|..n]
      && (s.realPos <= s.pos ==> t.realPos - |b| == s.pos)
    case Fatal => t.phase == Failed && left == Decoded([], Broken)
    case Eof =>
      && t.phase == Body && ((left.body == [] && left.end != Cut) || t.pos >= t.entitySize >= 0)
      && (s.realPos <= s.pos ==> t.realPos <= s.pos)
    case Again =>
      && (s.realPos <= s.pos ==> t.realPos <= s.pos)
      && (t.phase == Trailer ==> left == Decoded([], Ended(t.recv + future)) && t.bodySize == t.bytesReceived)
      && (t.phase == Gone && t.fault == NoFault ==> left == Decoded([], Cut))
      && (t.phase == Failed ==> t.fault == Hard)
      && (t.phase == Body && allowed > 0 && !t.noRest ==> Remaining(t, t.recv).body == [])
  }

  lemma ToldLater(s: Reader, m: Reader, t: Reader, o: Outcome, n: int, allowed: nat, future: seq<Byte>)
    requires Used(s, m, n, future) && Used(m, t, t.realPos - m.realPos, future) && Told(m, t, o, allowed, future)
    requires s.realPos <= s.pos ==> m.realPos <= m.pos
    ensures Told(s, t, o, allowed, future)
  {
    hide Remaining;
    UsedJoin(s, m, t, n, t.realPos - m.realPos, future);
  }

  /** Whatever arrives when, and whatever is asked for: _Read follows the decoding of the whole
      wire, byte by byte. */
  lemma {:induction false} Read0Decodes(s: Reader, size: nat, allowed: nat, future: seq<Byte>)
    requires Valid(s) && s.phase == Body && (s.eof ==> future == [])
    ensures var (t, o) := Read0(s, size, allowed);
      Used(s, t, t.realPos - s.realPos, future) && Told(s, t, o, allowed, future)
    decreases |s.recv|, 1
  {
    hide Used, Told, Decode, ScanHex, Take;
    UsedNone(s, future);
    if s.recv == [] {
      EmptyTold(s, size, allowed, future);
    } else if !s.chunked &&
              ((s.bodySize >= 0 && s.bytesReceived >= s.bodySize) || (s.entitySize >= 0 && s.pos >= s.entitySize)) {
      AllReceivedTold(s, size, allowed, future);
    } else if s.chunked && s.chunkSize == UNKNOWN {
      var n := LineEnd(s.recv);
      if n == |s.recv| || !IsHex(s.recv[0]) {
        HeadTold(s, size, allowed, future);
      } else {
        var m := s.(recv := s.recv[n + 1..], chunkSize := ScanHex(s.recv[..n]), chunkPos := 0);
        UsedHead(s, n, future);
        Read0Decodes(m, size, allowed, future);
        var (t, o) := Read0(m, size, allowed);
        UsedJoin(s, m, t, 0, t.realPos - m.realPos, future);
        ToldLater(s, m, t, o, 0, allowed, future);
      }
    } else if s.chunked && s.chunkSize == 0 {
      LastTold(s, size, allowed, future);
    } else if s.chunked && s.chunkPos == s.chunkSize {
      if |s.recv| < 2 || s.recv[0] != CR || s.recv[1] != LF {
        FootTold(s, size, allowed, future);
      } else {
        var m := s.(recv := s.recv[2..], chunkSize := UNKNOWN);
        UsedFoot(s, future);
        Read0Decodes(m, size, allowed, future);
        var (t, o) := Read0(m, size, allowed);
        UsedJoin(s, m, t, 0, t.realPos - m.realPos, future);
        ToldLater(s, m, t, o, 0, allowed, future);
      }
    } else {
      TakeDecodes(s, size, allowed, future);
    }
  }

  lemma DecodeNothing(size: int, pos: nat)
    ensures Decode(size, pos, []) == Decoded([], Cut)
  {
  }

  lemma NothingRemains(s: Reader)
    requires Valid(s) && s.phase != Trailer
    ensures var d := Remaining(s, []);
      d.body == [] && (d.end == Cut <==> s.chunked || s.bytesReceived < s.bodySize)
  {
    DecodeNothing(s.chunkSize, if s.chunkSize < 0 then 0 else if s.chunkPos < 0 then 0 else s.chunkPos);
  }

  lemma EmptyTold(s: Reader, size: nat, allowed: nat, future: seq<Byte>)
    requires Valid(s) && s.phase == Body && (s.eof ==> future == []) && s.recv == []
    ensures var (t, o) := Read0(s, size, allowed);
      Used(s, t, t.realPos - s.realPos, future) && Told(s, t, o, allowed, future)
  {
    hide Used, Decode, Take, LineEnd;
    UsedNone(s, future);
    UsedGone(s, Gone, future);
    UsedGone(s, Failed, future);
    NothingRemains(s);
    NothingRemains(s.(phase := Gone));
    assert s.eof ==> s.recv + future == [];
  }

  lemma AllReceivedTold(s: Reader, size: nat, allowed: nat, future: seq<Byte>)
    requires Valid(s) && s.phase == Body && s.recv != [] && !s.chunked
    requires (s.bodySize >= 0 && s.bytesReceived >= s.bodySize) || (s.entitySize >= 0 && s.pos >= s.entitySize)
    ensures var (t, o) := Read0(s, size, allowed);
      Used(s, t, t.realPos - s.realPos, future) && Told(s, t, o, allowed, future)
  {
    hide Used, Take, Decode, LineEnd, ScanHex;
    UsedNone(s, future);
    assert Read0(s, size, allowed) == (s, Eof);
    if s.bodySize >= 0 && s.bytesReceived >= s.bodySize { AllReceived(s, s.recv + future); }
    assert Told(s, s, Eof, allowed, future);
  }

  lemma AllReceived(s: Reader, wire: seq<Byte>)
    requires Valid(s) && s.phase == Body && !s.chunked && s.bodySize >= 0 && s.bytesReceived >= s.bodySize
    ensures Remaining(s, wire).body == [] && Remaining(s, wire).end != Cut
  {
  }

  lemma HeadTold(s: Reader, size: nat, allowed: nat, future: seq<Byte>)
    requires Valid(s) && s.phase == Body && (s.eof ==> future == []) && s.recv != []
    requires s.chunked && s.chunkSize == UNKNOWN
    requires LineEnd(s.recv) == |s.recv| || !IsHex(s.recv[0])
    ensures var (t, o) := Read0(s, size, allowed);
      Used(s, t, t.realPos - s.realPos, future) && Told(s, t, o, allowed, future)
  {
    hide Used;
    UsedNone(s, future);
    UsedGone(s, Gone, future);
    UsedGone(s, Failed, future);
    if LineEnd(s.recv) < |s.recv| { LineEndAhead(s.recv, future); }
    if future == [] { assert s.recv + future == s.recv; }
  }

  lemma LastTold(s: Reader, size: nat, allowed: nat, future: seq<Byte>)
    requires Valid(s) && s.phase == Body && s.recv != [] && s.chunked && s.chunkSize == 0
    ensures var (t, o) := Read0(s, size, allowed);
      Used(s, t, t.realPos - s.realPos, future) && Told(s, t, o, allowed, future)
  {
    hide ScanHex, Take;
  }

  lemma FootTold(s: Reader, size: nat, allowed: nat, future: seq<Byte>)
    requires Valid(s) && s.phase == Body && (s.eof ==> future == []) && s.recv != []
    requires s.chunked && s.chunkSize > 0 && s.chunkPos == s.chunkSize
    requires |s.recv| < 2 || s.recv[0] != CR || s.recv[1] != LF
    ensures var (t, o) := Read0(s, size, allowed);
      Used(s, t, t.realPos - s.realPos, future) && Told(s, t, o, allowed, future)
  {
    hide Used;
    UsedNone(s, future);
    UsedGone(s, Gone, future);
    UsedGone(s, Failed, future);
    if future == [] { assert s.recv + future == s.recv; }
  }

  lemma {:induction false} TakeDecodes(s: Reader, size: nat, allowed: nat, future: seq<Byte>)
    requires Valid(s) && s.phase == Body && (s.eof ==> future == []) && s.recv != []
    requires s.chunked ==> s.chunkSize > 0 && s.chunkPos < s.chunkSize
    requires !s.chunked && s.bodySize >= 0 ==> s.bytesReceived < s.bodySize
    ensures var (t, o) := Take(s, size, allowed);
      Used(s, t, t.realPos - s.realPos, future) && Told(s, t, o, allowed, future)
    decreases |s.recv|, 0
  {
    hide Used, Told, Decode, Read0;
    var n := Available(s, allowed);
    if n == 0 || (s.noRest && s.realPos == 0 && s.pos > 0) {
      UsedNone(s, future);
      HeldTold(s, allowed, future);
    } else if s.realPos < s.pos {
      var d := Min(s.pos - s.realPos, n);
      var m := Skip(s, d);
      UsedData(s, d, future);
      assert Valid(m) && m.phase == Body && m.pos == s.pos && m.realPos <= m.pos && m.eof == s.eof;
      Read0Decodes(m, size, allowed, future);
      var (t, o) := Read0(m, size, allowed);
      UsedJoin(s, m, t, d, t.realPos - m.realPos, future);
      ToldLater(s, m, t, o, d, allowed, future);
    } else {
      var m := Min(size, n);
      UsedData(s, m, future);
      DataTold(s, m, allowed, future);
    }
  }

  lemma HeldTold(s: Reader, allowed: nat, future: seq<Byte>)
    requires Valid(s) && s.phase == Body && s.recv != []
    requires s.chunked ==> s.chunkSize > 0 && s.chunkPos < s.chunkSize
    requires !s.chunked && s.bodySize >= 0 ==> s.bytesReceived < s.bodySize
    requires Available(s, allowed) == 0 || s.noRest
    ensures Told(s, s, Again, allowed, future)
  {
    hide Decode;
  }

  lemma DataTold(s: Reader, m: nat, allowed: nat, future: seq<Byte>)
    requires Valid(s) && s.phase == Body && s.realPos >= s.pos && m <= |s.recv| && Used(s, Skip(s, m), m, future)
    requires Remaining(s, s.recv + future).body[..m] == s.recv[..m]
    ensures Told(s, Skip(s, m), Data(s.recv[..m]), allowed, future)
  {
    hide Decode, Remaining;
  }

  // ---------------------------------------------------------------- a wire cut short

  predicate IsPrefix(a: seq<Byte>, b: seq<Byte>) {
    |a| <= |b| && a == b[..|a|]
  }

  lemma PrefixAfter(a: seq<Byte>, b: seq<Byte>, c: seq<Byte>)
    requires IsPrefix(b, c)
    ensures IsPrefix(a + b, a + c)
  {
  }

  // Bytes that never come take nothing from those that do.
  lemma {:induction false} DecodeCutShort(size: int, pos: nat, wire: seq<Byte>, lost: seq<Byte>)
    ensures IsPrefix(Decode(size, pos, wire).body, Decode(size, pos, wire + lost).body)
    decreases |wire|, size - pos
  {
    var w := wire + lost;
    if wire == [] {
      assert Decode(size, pos, wire).body == [];
    } else if size < 0 {
      var n := LineEnd(wire);
      if n < |wire| && IsHex(wire[0]) {
        LineEndAhead(wire, lost);
        assert w[0] == wire[0] && w[..n] == wire[..n] && w[n + 1..] == wire[n + 1..] + lost;
        DecodeLine(wire);
        DecodeLine(w);
        DecodeCutShort(ScanHex(wire[..n]), 0, wire[n + 1..], lost);
      }
    } else if size == 0 {
    } else if pos >= size {
      if |wire| >= 2 && wire[0] == CR && wire[1] == LF {
        assert w[2..] == wire[2..] + lost;
        DecodeCutShort(UNKNOWN, 0, wire[2..], lost);
      }
    } else {
      var n := if |wire| < size - pos then |wire| else size - pos;
      DataCutShort(size, pos, wire, lost, n);
    }
  }

  lemma {:induction false} DataCutShort(size: nat, pos: nat, wire: seq<Byte>, lost: seq<Byte>, n: nat)
    requires pos < size && wire != [] && n == if |wire| < size - pos then |wire| else size - pos
    ensures IsPrefix(Decode(size, pos, wire).body, Decode(size, pos, wire + lost).body)
    decreases |wire|, size - pos, 0
  {
    hide Decode;
    var w := wire + lost;
    DecodeSplit(size, pos, wire, n);
    DecodeSplit(size, pos, w, n);
    assert w[..n] == wire[..n] && w[n..] == wire[n..] + lost;
    DecodeCutShort(size, pos + n, wire[n..], lost);
    PrefixAfter(wire[..n], Decode(size, pos + n, wire[n..]).body, Decode(size, pos + n, w[n..]).body);
  }

  lemma CutShort(s: Reader, future: seq<Byte>)
    requires Valid(s) && s.phase == Body
    ensures IsPrefix(Remaining(s, s.recv).body, Remaining(s, s.recv + future).body)
  {
    hide Decode;
    if s.chunked { DecodeCutShort(s.chunkSize, if s.chunkSize < 0 then 0 else s.chunkPos, s.recv, future); }
  }

  // ---------------------------------------------------------------- any number of responses

  /** What can happen: some of what was sent arrives; the connection is closed and the rest is
      lost; it fails; a Read is called; or a new request is answered. */
  datatype Event =
    | Arrives(n: nat)
    | Closes
    | Fails(hard: bool)
    | Reads(size: nat, allowed: nat)
    | Answered(r: Reader, wire: seq<Byte>)

  /** A transfer: the present response, what is still under way, and all that Read handed out. */
  datatype Transfer = Transfer(r: Reader, future: seq<Byte>, got: seq<Byte>)

  function Step(x: Transfer, e: Event): Transfer
    requires Valid(x.r)
  {
    match e
    case Arrives(n) =>
      var m := Min(n, |x.future|);
      if x.r.eof then x else x.(r := x.r.(recv := x.r.recv + x.future[..m]), future := x.future[m..])
    case Closes => x.(r := x.r.(eof := true), future := [])
    case Fails(hard) => x.(r := x.r.(fault := if hard then Hard else Soft))
    case Reads(size, allowed) =>
      var (t, o) := Read(x.r, size, allowed);
      x.(r := t, got := if o.Data? then x.got + o.b else x.got)
    case Answered(r, wire) => Transfer(r.(pos := x.r.pos), wire, x.got)
  }

  predicate IsPiece(entity: seq<Byte>, at: int, b: seq<Byte>) {
    0 <= at && at + |b| <= |entity| && b == entity[at..at + |b|]
  }

  // A new response begins at or before the wanted position and carries the entity from there.
  ghost predicate Fresh(entity: seq<Byte>, r: Reader, wire: seq<Byte>, pos: int) {
    && Valid(r) && r.phase == Body && !r.eof && r.fault == NoFault && r.realPos <= pos
    && IsPiece(entity, r.realPos, Remaining(r, r.recv + wire).body)
  }

  ghost predicate Honest(entity: seq<Byte>, start: nat, x: Transfer) {
    && Valid(x.r) && (x.r.eof ==> x.future == [])
    && start <= x.r.pos <= |entity| && x.got == entity[start..x.r.pos]
    && (x.r.phase == Trailer ==> x.r.realPos <= x.r.pos)
    && (x.r.phase == Body ==>
          x.r.realPos <= x.r.pos && IsPiece(entity, x.r.realPos, Remaining(x.r, x.r.recv + x.future).body))
  }

  lemma PieceSplit(entity: seq<Byte>, at: int, b: seq<Byte>, n: nat, m: nat)
    requires IsPiece(entity, at, b) && n <= m <= |b|
    ensures IsPiece(entity, at + m, b[m..]) && b[n..m] == entity[at + n..at + m]
  {
    var e := entity[at..at + |b|];
    assert e[m..] == entity[at + m..at + |b|];
    forall i | n <= i < m ensures e[i] == entity[at + i] {
    }
    assert e[n..m] == entity[at + n..at + m];
  }

  // The rest of a wire that is cut off is lost, and what is left carries less of the same.
  lemma CloseHonest(entity: seq<Byte>, start: nat, x: Transfer)
    requires Honest(entity, start, x)
    ensures Honest(entity, start, Step(x, Closes))
  {
    hide Remaining, Valid;
    var r := x.r.(eof := true);
    RemainingSame(x.r, r, x.r.recv);
    assert x.r.recv + [] == x.r.recv;
    if x.r.phase == Body {
      CutShort(x.r, x.future);
      var b, c := Remaining(x.r, x.r.recv).body, Remaining(x.r, x.r.recv + x.future).body;
      assert entity[x.r.realPos..x.r.realPos + |c|][..|b|] == entity[x.r.realPos..x.r.realPos + |b|];
    }
  }

  lemma RemainingSame(s: Reader, t: Reader, wire: seq<Byte>)
    requires Valid(s) && t == s.(eof := t.eof, fault := t.fault, recv := t.recv, pos := t.pos)
    ensures Valid(t) && Remaining(t, wire) == Remaining(s, wire)
  {
  }

  lemma ArrivalHonest(entity: seq<Byte>, start: nat, x: Transfer, e: Event)
    requires Honest(entity, start, x) && (e.Arrives? || e.Fails?)
    ensures Honest(entity, start, Step(x, e))
  {
    hide Remaining, Valid;
    var t := Step(x, e);
    if e.Arrives? {
      var m := Min(e.n, |x.future|);
      assert x.r.recv + x.future == x.r.recv + x.future[..m] + x.future[m..];
    }
    RemainingSame(x.r, t.r, x.r.recv + x.future);
  }

  // A return that leaves the wanted position where it is, or moves it to the real one.
  lemma ToldPosition(s: Reader, t: Reader, o: Outcome, allowed: nat, future: seq<Byte>)
    requires Valid(s) && Valid(t) && Told(s, t, o, allowed, future) && s.realPos <= s.pos && t.pos == s.pos
    ensures o.Data? ==> t.phase == Body && t.realPos == t.pos + |o.b| && |o.b| <= t.realPos - s.realPos
    ensures o.Data? ==> o.b == Remaining(s, s.recv + future).body[t.realPos - s.realPos - |o.b|..t.realPos - s.realPos]
    ensures !o.Data? && (t.phase == Body || t.phase == Trailer) ==> t.realPos <= t.pos
  {
    hide Remaining;
  }

  lemma ReadHonest(entity: seq<Byte>, start: nat, x: Transfer, size: nat, allowed: nat)
    requires Honest(entity, start, x)
    ensures Honest(entity, start, Step(x, Reads(size, allowed)))
  {
    hide Read0, Remaining, Told, IsPiece;
    var s := x.r;
    if s.phase == Body && s.realPos >= 0 {
      Read0Decodes(s, size, allowed, x.future);
      var (t, o) := Read0(s, size, allowed);
      ToldPosition(s, t, o, allowed, x.future);
      var body := Remaining(s, s.recv + x.future).body;
      var n := t.realPos - s.realPos;
      PieceSplit(entity, s.realPos, body, if o.Data? then n - |o.b| else n, n);
      if o.Data? {
        assert x.got + o.b == entity[start..t.pos + |o.b|];
        RemainingPos(t, t.recv + x.future, t.pos + |o.b|);
      }
    }
  }

  lemma RemainingPos(t: Reader, wire: seq<Byte>, pos: int)
    requires Valid(t)
    ensures Remaining(t.(pos := pos), wire) == Remaining(t, wire)
  {
  }

  // Every response of the run is fresh when it begins.
  ghost predicate FreshRun(entity: seq<Byte>, x: Transfer, es: seq<Event>)
    decreases |es|
  {
    es == [] ||
    (Valid(x.r) && (es[0].Answered? ==> Fresh(entity, es[0].r, es[0].wire, x.r.pos))
     && FreshRun(entity, Step(x, es[0]), es[1..]))
  }

  ghost function Run(entity: seq<Byte>, x: Transfer, es: seq<Event>): Transfer
    requires FreshRun(entity, x, es)
    decreases |es|
  {
    if es == [] then x else Run(entity, Step(x, es[0]), es[1..])
  }

  /** However often the connection is lost and the request made again, what Read hands out is
      one contiguous piece of the entity, from where reading began to the wanted position. */
  lemma {:induction false} ReadsAreContiguous(entity: seq<Byte>, start: nat, x: Transfer, es: seq<Event>)
    requires Honest(entity, start, x) && FreshRun(entity, x, es)
    ensures var y := Run(entity, x, es);
      start <= y.r.pos <= |entity| && y.got == entity[start..y.r.pos]
    decreases |es|
  {
    hide Honest, Step, Fresh;
    if es == [] {
      assert x.got == entity[start..x.r.pos] by { HonestMeans(entity, start, x); }
      HonestMeans(entity, start, x);
    } else {
      StepHonest(entity, start, x, es[0]);
      ReadsAreContiguous(entity, start, Step(x, es[0]), es[1..]);
    }
  }

  lemma HonestMeans(entity: seq<Byte>, start: nat, x: Transfer)
    requires Honest(entity, start, x)
    ensures start <= x.r.pos <= |entity| && x.got == entity[start..x.r.pos]
  {
  }

  lemma StepHonest(entity: seq<Byte>, start: nat, x: Transfer, e: Event)
    requires Honest(entity, start, x) && (e.Answered? ==> Fresh(entity, e.r, e.wire, x.r.pos))
    ensures Honest(entity, start, Step(x, e))
  {
    match e
    case Reads(size, allowed) => ReadHonest(entity, start, x, size, allowed);
    case Answered(r, wire) => RemainingPos(r, r.recv + wire, x.r.pos);
    case Closes => CloseHonest(entity, start, x);
    case _ => ArrivalHonest(entity, start, x, e);
  }

  // ---------------------------------------------------------------- one response, to its end

  // Nothing sent is lost, and there is no second response.
  ghost predicate Unbroken(x: Transfer, es: seq<Event>)
    decreases |es|
  {
    es != [] ==>
    (&& Valid(x.r) && !es[0].Answered? && !es[0].Fails? && (es[0].Closes? ==> x.future == [])
     && Unbroken(Step(x, es[0]), es[1..]))
  }

  ghost function Through(x: Transfer, es: seq<Event>): Transfer
    requires Unbroken(x, es)
    decreases |es|
  {
    if es == [] then x else Through(Step(x, es[0]), es[1..])
  }

  // After `used` bytes of a body that decodes to d.
  ghost predicate Amid(x: Transfer, d: Decoded, before: int, first: int) {
    && Valid(x.r) && (x.r.eof ==> x.future == []) && x.r.fault == NoFault
    && var used := x.r.bytesReceived - before;
       && 0 <= used <= |d.body| && x.r.realPos == first + used
       && Remaining(x.r, x.r.recv + x.future) == Decoded(d.body[used..], d.end)
       && (x.r.phase == Failed ==> d.end == Broken)
       && (x.r.phase == Gone ==> d.end == Cut)
       && (x.r.phase == Trailer ==> used == |d.body| && x.r.bodySize == x.r.bytesReceived)
  }

  lemma StepAmid(x: Transfer, e: Event, d: Decoded, before: int, first: int)
    requires Amid(x, d, before, first) && !e.Answered? && !e.Fails? && (e.Closes? ==> x.future == [])
    ensures Amid(Step(x, e), d, before, first)
  {
    hide Decode, Read0;
    match e
    case Arrives(n) =>
      var m := Min(n, |x.future|);
      assert x.r.recv + x.future == x.r.recv + x.future[..m] + x.future[m..];
    case Closes =>
    case Reads(size, allowed) =>
      if x.r.phase == Body && x.r.realPos >= 0 {
        ReadAmid(x, size, allowed, d, before, first);
      }
  }

  lemma ReadAmid(x: Transfer, size: nat, allowed: nat, d: Decoded, before: int, first: int)
    requires Amid(x, d, before, first) && x.r.phase == Body && x.r.realPos >= 0
    ensures Amid(Step(x, Reads(size, allowed)), d, before, first)
  {
    hide Remaining, Read0, Amid;
    var s := x.r;
    AmidIsValid(x, d, before, first);
    Read0Decodes(s, size, allowed, x.future);
    var (t, o) := Read0(s, size, allowed);
    ToldAmid(x, t, o, allowed, d, before, first);
    var pos, got := if o.Data? then t.pos + |o.b| else t.pos, if o.Data? then x.got + o.b else x.got;
    AmidAt(x.(r := t), pos, got, d, before, first);
  }

  lemma AmidIsValid(x: Transfer, d: Decoded, before: int, first: int)
    requires Amid(x, d, before, first)
    ensures Valid(x.r) && (x.r.eof ==> x.future == [])
  {
    hide Remaining;
  }

  // Where the wanted position is, and what has been handed out, makes no difference.
  lemma AmidAt(x: Transfer, pos: int, got: seq<Byte>, d: Decoded, before: int, first: int)
    requires Amid(x, d, before, first)
    ensures Amid(x.(r := x.r.(pos := pos), got := got), d, before, first)
  {
    hide Remaining;
    RemainingPos(x.r, x.r.recv + x.future, pos);
  }

  // A read that uses up n bytes is n bytes further along.
  lemma ToldAmid(x: Transfer, t: Reader, o: Outcome, allowed: nat, d: Decoded, before: int, first: int)
    requires Amid(x, d, before, first) && x.r.phase == Body
    requires Used(x.r, t, t.realPos - x.r.realPos, x.future) && Told(x.r, t, o, allowed, x.future)
    ensures Amid(x.(r := t), d, before, first)
  {
    hide Remaining;
    var n, used := t.realPos - x.r.realPos, x.r.bytesReceived - before;
    assert d.body[used..][n..] == d.body[used + n..];
  }

  /** A well-formed chunked response, in whatever pieces it arrives and is read, is never taken
      for malformed or given up, and when its trailer is entered exactly its body has been
      received. */
  lemma {:induction false} ChunkedBodyIsExact(x: Transfer, es: seq<Event>, d: Decoded, before: int, first: int)
    requires Amid(x, d, before, first) && Unbroken(x, es) && d.end.Ended?
    ensures var y := Through(x, es);
      && y.r.phase != Failed && y.r.phase != Gone
      && (y.r.phase == Trailer ==>
            y.r.bytesReceived - before == |d.body| && y.r.bodySize == y.r.bytesReceived)
    decreases |es|
  {
    hide Step;
    if es != [] {
      StepAmid(x, es[0], d, before, first);
      ChunkedBodyIsExact(Step(x, es[0]), es[1..], d, before, first);
    }
  }

  lemma {:induction false} ThroughHonest(entity: seq<Byte>, start: nat, x: Transfer, es: seq<Event>)
    requires Honest(entity, start, x) && Unbroken(x, es)
    ensures Honest(entity, start, Through(x, es))
    decreases |es|
  {
    hide Honest, Step;
    if es != [] {
      StepHonest(entity, start, x, es[0]);
      ThroughHonest(entity, start, Step(x, es[0]), es[1..]);
    }
  }

  lemma {:induction false} ThroughAmid(x: Transfer, es: seq<Event>, d: Decoded, before: int, first: int)
    requires Amid(x, d, before, first) && Unbroken(x, es)
    ensures Amid(Through(x, es), d, before, first)
    decreases |es|
  {
    hide Amid, Step;
    if es != [] {
      StepAmid(x, es[0], d, before, first);
      ThroughAmid(Step(x, es[0]), es[1..], d, before, first);
    }
  }

  // A response with nothing received yet, for a wanted position.
  function NewResponse(pos: int, realPos: int): Reader {
    Reader(Body, [], false, NoFault, true, UNKNOWN, 0, 0, -1, -1, pos, realPos, false)
  }

  /** The same for a response from its first byte, as it is encoded; and when its trailer is
      entered all of the body from the wanted position on has been handed out. */
  lemma EncodedBodyIsExact(chunks: seq<Chunk>, last: seq<Byte>, tail: seq<Byte>, pos: nat, realPos: nat, es: seq<Event>)
    requires WellFormed(chunks) && SizeLine(last, 0) && tail != [] && realPos <= pos
    requires Unbroken(Transfer(NewResponse(pos, realPos), Encode(chunks, last) + tail, []), es)
    ensures var y := Through(Transfer(NewResponse(pos, realPos), Encode(chunks, last) + tail, []), es);
      var body := BodyOf(chunks);
      && y.r.phase != Failed && y.r.phase != Gone
      && (y.r.phase == Trailer ==>
            && y.r.bytesReceived == y.r.bodySize == |body|
            && (pos - realPos <= |body| ==> y.got == body[pos - realPos..]))
  {
    hide Decode, Step, Honest;
    var body := BodyOf(chunks);
    var wire := Encode(chunks, last) + tail;
    var x := Transfer(NewResponse(pos, realPos), wire, []);
    DecodeEncode(chunks, last, tail);
    assert x.r.recv + x.future == wire;
    var d := Decoded(body, Ended(tail));
    assert d.body[0..] == d.body;
    ThroughAmid(x, es, d, 0, realPos);
    var y := Through(x, es);
    if y.r.phase == Trailer && pos - realPos <= |body| {
      var entity := Filler(realPos) + body;
      assert Honest(entity, pos, x) by { NewIsHonest(entity, x, realPos, pos, body); }
      ThroughHonest(entity, pos, x, es);
      AllHandedOut(entity, pos, y);
      assert entity[pos..] == body[pos - realPos..];
    }
  }

  function Filler(n: nat): (s: seq<Byte>)
    ensures |s| == n
  {
    seq(n, i => 0)
  }

  lemma NewIsHonest(entity: seq<Byte>, x: Transfer, realPos: nat, pos: nat, body: seq<Byte>)
    requires Valid(x.r) && !x.r.eof && x.r.phase == Body && x.got == []
    requires x.r.pos == pos && x.r.realPos == realPos <= pos <= |entity|
    requires Remaining(x.r, x.r.recv + x.future).body == body
    requires |entity| == realPos + |body| && entity[realPos..] == body
    ensures Honest(entity, pos, x)
  {
    hide Remaining;
    assert entity[realPos..realPos + |body|] == body && entity[pos..pos] == [];
  }

  lemma AllHandedOut(entity: seq<Byte>, start: nat, y: Transfer)
    requires Honest(entity, start, y) && y.r.phase == Trailer && y.r.realPos == |entity|
    ensures y.got == entity[start..]
  {
    hide Remaining;
    assert entity[start..|entity|] == entity[start..];
  }

  // ---------------------------------------------------------------- the object

  /** The part of Http that receives a body. */
  class Http {
    var phase: Phase
    var recv: seq<Byte>
    var eof: bool
    var fault: Fault
    var chunked: bool
    var chunkSize: int
    var chunkPos: int
    var bytesReceived: int
    var bodySize: int
    var entitySize: int
    var pos: int
    var realPos: int
    var noRest: bool

    function Value(): Reader
      reads this
    {
      Reader(phase, recv, eof, fault, chunked, chunkSize, chunkPos, bytesReceived, bodySize, entitySize,
             pos, realPos, noRest)
    }

    method UpdatePos(n: nat)
      modifies this`chunkPos, this`bytesReceived, this`realPos
      ensures chunkPos == old(chunkPos) + (if chunked then n else 0)
      ensures bytesReceived == old(bytesReceived) + n && realPos == old(realPos) + n
    {
      if chunked { chunkPos := chunkPos + n; }
      bytesReceived := bytesReceived + n;
      realPos := realPos + n;
    }

    method SkipBytes(n: nat)
      requires n <= |recv|
      modifies this
      ensures Value() == Skip(old(Value()), n)
    {
      recv := recv[n..];
      UpdatePos(n);
    }

    method FindNewline() returns (n: nat)
      ensures n == LineEnd(recv)
    {
      n := 0;
      while n < |recv| && recv[n] != LF
        invariant n <= |recv| && forall i :: 0 <= i < n ==> recv[i] != LF
      {
        n := n + 1;
      }
      if n < |recv| { LineEndIs(recv, n); } else { NoLineEnd(recv); }
    }

    // One pass: either it returns, or the loop goes round again.
    method Pass(size: nat, allowed: nat) returns (o: Outcome, again: bool)
      requires Valid(Value())
      modifies this
      ensures Valid(Value())
      ensures again ==> |recv| < |old(recv)| && Read0(Value(), size, allowed) == Read0(old(Value()), size, allowed)
      ensures !again ==> (Value(), o) == Read0(old(Value()), size, allowed)
    {
      hide ScanHex;
      o, again := Again, false;
      if |recv| == 0 && fault != NoFault {
        phase := if fault == Hard then Failed else Gone;
        return;
      }
      if |recv| == 0 && eof {
        if bytesReceived < bodySize || chunked { phase := Gone; } else { o := Eof; }
        return;
      }
      if !chunked && ((bodySize >= 0 && bytesReceived >= bodySize) || (entitySize >= 0 && pos >= entitySize)) {
        return Eof, false;
      }
      if |recv| == 0 { return; }
      if chunked {
        if chunkSize == UNKNOWN {
          o, again := ReadHead(size, allowed);
          return;
        }
        if chunkSize == 0 {
          phase, bodySize := Trailer, bytesReceived;
          return;
        }
        if chunkPos == chunkSize {
          o, again := ReadFoot(size, allowed);
          return;
        }
      }
      o, again := TakeSome(size, allowed);
    }

    method ReadHead(size: nat, allowed: nat) returns (o: Outcome, again: bool)
      requires Valid(Value()) && |recv| > 0 && chunked && chunkSize == UNKNOWN
      modifies this
      ensures Valid(Value())
      ensures again ==> |recv| < |old(recv)| && Read0(Value(), size, allowed) == Read0(old(Value()), size, allowed)
      ensures !again ==> (Value(), o) == Read0(old(Value()), size, allowed)
    {
      hide ScanHex;
      o, again := Again, false;
      var n := FindNewline();
      if n == |recv| {
        if eof { phase := Gone; }
      } else if !IsHex(recv[0]) {
        phase, o := Failed, Fatal;
      } else {
        chunkSize, chunkPos := ScanHex(recv[..n]), 0;
        recv, again := recv[n + 1..], true;
      }
    }

    method ReadFoot(size: nat, allowed: nat) returns (o: Outcome, again: bool)
      requires Valid(Value()) && |recv| > 0 && chunked && chunkSize > 0 && chunkPos == chunkSize
      modifies this
      ensures Valid(Value())
      ensures again ==> |recv| < |old(recv)| && Read0(Value(), size, allowed) == Read0(old(Value()), size, allowed)
      ensures !again ==> (Value(), o) == Read0(old(Value()), size, allowed)
    {
      o, again := Again, false;
      if |recv| < 2 {
        if eof { phase := Gone; }
      } else if recv[0] != CR || recv[1] != LF {
        phase, o := Failed, Fatal;
      } else {
        recv, chunkSize, again := recv[2..], UNKNOWN, true;
      }
    }

    method CountAvailable(allowed: nat) returns (n: int)
      requires Valid(Value()) && (chunked ==> chunkSize > 0 && chunkPos < chunkSize)
      ensures n == Available(Value(), allowed)
    {
      n := |recv|;
      if chunked && n > chunkSize - chunkPos { n := chunkSize - chunkPos; }
      if !chunked && bodySize >= 0 && n + bytesReceived >= bodySize { n := bodySize - bytesReceived; }
      if n > allowed { n := allowed; }
    }

    method TakeSome(size: nat, allowed: nat) returns (o: Outcome, again: bool)
      requires Valid(Value()) && |recv| > 0 && (chunked ==> chunkSize > 0 && chunkPos < chunkSize)
      requires !chunked && bodySize >= 0 ==> bytesReceived < bodySize
      modifies this
      ensures Valid(Value())
      ensures again ==> |recv| < |old(recv)| && Read0(Value(), size, allowed) == Take(old(Value()), size, allowed)
      ensures !again ==> (Value(), o) == Take(old(Value()), size, allowed)
    {
      hide Read0;
      ghost var was := Value();
      var n := CountAvailable(allowed);
      AvailableFits(was, allowed);
      if n == 0 || (noRest && realPos == 0 && pos > 0) { return Again, false; }
      if realPos < pos {
        o, again := Again, true;
        SkipBytes(if pos - realPos > n then n else pos - realPos);
      } else {
        var m := if size > n then n else size;
        o, again := Data(recv[..m]), false;
        SkipBytes(m);
      }
    }

    /** _Read: its loop comes to what Read0 says. */
    method ReadBody(size: nat, allowed: nat) returns (o: Outcome)
      requires Valid(Value())
      modifies this
      ensures Valid(Value()) && (Value(), o) == Read0(old(Value()), size, allowed)
    {
      hide Read0, Valid;
      ghost var was := Value();
      var again := true;
      o := Again;
      while again
        invariant Valid(Value())
        invariant again ==> Read0(Value(), size, allowed) == Read0(was, size, allowed)
        invariant !again ==> (Value(), o) == Read0(was, size, allowed)
        decreases if again then |recv| + 1 else 0
      {
        o, again := Pass(size, allowed);
      }
    }

    /** Http::Read. */
    method ReadSome(size: nat, allowed: nat) returns (o: Outcome)
      requires Valid(Value())
      modifies this
      ensures Valid(Value()) && (Value(), o) == Read(old(Value()), size, allowed)
    {
      hide Read0;
      if phase == Failed { return Fatal; }
      if phase == Body && realPos >= 0 {
        o := ReadBody(size, allowed);
        if o.Data? { pos := pos + |o.b|; }
      } else {
        o := Again;
      }
    }
  }

  // Taking no more than is available keeps the counters in step.
  lemma AvailableFits(s: Reader, allowed: nat)
    requires Valid(s) && (s.chunked ==> s.chunkSize > 0 && s.chunkPos < s.chunkSize)
    requires !s.chunked && s.bodySize >= 0 ==> s.bytesReceived < s.bodySize
    ensures 0 <= Available(s, allowed) <= |s.recv|
    ensures forall m: nat :: m <= Available(s, allowed) ==> Valid(Skip(s, m))
  {
  }

  lemma NoLineEnd(s: seq<Byte>)
    requires forall i :: 0 <= i < |s| ==> s[i] != LF
    ensures LineEnd(s) == |s|
  {
  }
}

/**
 Ascii transfers of FileCopy.cc: reading puts a carriage return before every line feed, in
 place; writing strips the carriage return of each CR LF, a line at a time. Whatever the split
 into reads, puts and partial writes, what is written is what was read.
 */
module Ascii {
  import CopyEngine

  type Byte = CopyEngine.Byte
  const CR: Byte := 13
  const LF: Byte := 10

  // ---------------------------------------------------------------- what the two directions mean

  function Expand(s: seq<Byte>): (r: seq<Byte>) {
    if s == [] then [] else (if s[0] == LF then [CR, LF] else [s[0]]) + Expand(s[1..])
  }

  // A line end at i.
  predicate LineEnd(s: seq<Byte>, i: int) {
    0 <= i && i + 1 < |s| && s[i] == CR && s[i + 1] == LF
  }

  function Strip(s: seq<Byte>): (r: seq<Byte>) {
    if s == [] then [] else (if LineEnd(s, 0) then [] else [s[0]]) + Strip(s[1..])
  }

  lemma {:induction false} StripExpand(s: seq<Byte>)
    ensures Strip(Expand(s)) == s
  {
    if s != [] {
      StripExpand(s[1..]);
      var t := Expand(s[1..]);
      var e := Expand(s);
      if s[0] == LF {
        assert e == [CR] + ([LF] + t) && e[1..] == [LF] + t && ([LF] + t)[1..] == t;
      } else {
        assert e == [s[0]] + t && e[1..] == t;
        assert !LineEnd(e, 0) by { ExpandHead(s[1..]); }
      }
    }
  }

  // An expanded text never begins with a line feed.
  lemma ExpandHead(s: seq<Byte>)
    ensures Expand(s) == [] || Expand(s)[0] != LF
  {
  }

  lemma {:induction false} ExpandJoin(a: seq<Byte>, b: seq<Byte>)
    ensures Expand(a + b) == Expand(a) + Expand(b)
  {
    if a == [] {
      assert a + b == b;
    } else {
      assert (a + b)[1..] == a[1..] + b;
      ExpandJoin(a[1..], b);
    }
  }

  // The buffer reserved for a read, of twice its length, is enough.
  lemma {:induction false} ExpandLength(s: seq<Byte>)
    ensures |s| <= |Expand(s)| <= 2 * |s|
  {
    if s != [] { ExpandLength(s[1..]); }
  }

  // Up to n there is nothing to strip.
  lemma {:induction false} StripFrom(s: seq<Byte>, n: nat)
    requires n <= |s| && forall i :: 0 <= i < n ==> !LineEnd(s, i)
    ensures Strip(s) == s[..n] + Strip(s[n..])
  {
    if n == 0 {
      assert s[0..] == s;
    } else {
      forall i | 0 <= i < n - 1 ensures !LineEnd(s[1..], i) {
        assert !LineEnd(s, i + 1);
      }
      StripFrom(s[1..], n - 1);
      assert s[1..][n - 1..] == s[n..] && [s[0]] + s[1..][..n - 1] == s[..n];
    }
  }

  // ---------------------------------------------------------------- one low-level write

  // Where the line to write ends, looking from i on, and whether a carriage return follows it
  // that is to be skipped. A carriage return at the very end waits for what comes next.
  function LineLength(b: seq<Byte>, eof: bool, i: nat): (r: (nat, bool))
    requires i <= |b|
    ensures i <= r.0 <= |b|
    ensures forall j :: i <= j < r.0 ==> !LineEnd(b, j)
    ensures r.1 ==> LineEnd(b, r.0)
    ensures !r.1 ==>
      || (r.0 == |b| - 1 && !eof && b[|b| - 1] == CR)
      || (r.0 == |b| && (eof || i == |b| || b[|b| - 1] != CR))
    decreases |b| - i
  {
    if i == |b| then (i, false)
    else if LineEnd(b, i) then (i, true)
    else if b[i] == CR && i == |b| - 1 then (if eof then |b| else |b| - 1, false)
    else LineLength(b, eof, i + 1)
  }

  /** What the system says to a write: it takes some of the bytes and, asked for it, the line
      feed; it is not ready; the reader is gone; or it fails for good. */
  datatype Outcome = Wrote(n: nat, newline: bool) | NotReady | NoReader | Failed

  // A low-level write reports how much of b it used up, or -1, and what reached the file.
  function PutLL(b: seq<Byte>, eof: bool, o: Outcome): (r: (int, seq<Byte>))
    ensures r.0 <= |b|
  {
    var (n, skip) := LineLength(b, eof, 0);
    if n == 0 then (if skip then 1 else 0, [])
    else match o
      case NotReady => (0, [])
      case NoReader => (-1, [])
      case Failed => (-1, [])
      case Wrote(k, newline) =>
        if k < n then (k, b[..k])
        else if !skip then (n, b[..n])
        else if newline then (n + 2, b[..n] + [LF])
        else (n + 1, b[..n])
  }

  lemma PutLLCases(b: seq<Byte>, eof: bool, o: Outcome)
    requires PutLL(b, eof, o).0 >= 0
    ensures var (n, skip) := LineLength(b, eof, 0); var (k, out) := PutLL(b, eof, o);
      || (k <= n && out == b[..k])
      || (skip && k == n + 1 && out == b[..n])
      || (skip && k == n + 2 && out == b[..n] + [LF])
  {
    hide LineLength;
  }

  /** What a low-level write puts into the file is exactly what stripping owes for the bytes it
      uses up, whatever follows them. */
  lemma PutLLStrips(b: seq<Byte>, eof: bool, o: Outcome, rest: seq<Byte>)
    requires eof ==> rest == []
    requires PutLL(b, eof, o).0 >= 0
    ensures var (k, out) := PutLL(b, eof, o);
      Strip(b + rest) == out + Strip(b[k..] + rest)
  {
    hide Strip, LineLength, PutLL;
    var (n, skip) := LineLength(b, eof, 0);
    var (k, out) := PutLL(b, eof, o);
    PutLLCases(b, eof, o);
    if k <= n {
      StripPart(b, eof, k, rest);
    } else {
      StripPart(b, eof, n, rest);
      StripLineEnd(b, n, rest);
      assert b[..n] + ([LF] + Strip(b[n + 2..] + rest)) == b[..n] + [LF] + Strip(b[n + 2..] + rest);
    }
  }

  lemma StripPart(b: seq<Byte>, eof: bool, k: nat, rest: seq<Byte>)
    requires eof ==> rest == []
    requires k <= LineLength(b, eof, 0).0
    ensures Strip(b + rest) == b[..k] + Strip(b[k..] + rest)
  {
    hide Strip;
    var t := b + rest;
    forall i | 0 <= i < k ensures !LineEnd(t, i) {
      assert !LineEnd(b, i);
    }
    StripFrom(t, k);
    assert t[k..] == b[k..] + rest && t[..k] == b[..k];
  }

  lemma StripLineEnd(b: seq<Byte>, n: nat, rest: seq<Byte>)
    requires LineEnd(b, n)
    ensures Strip(b[n..] + rest) == Strip(b[n + 1..] + rest) == [LF] + Strip(b[n + 2..] + rest)
  {
    assert (b[n..] + rest)[1..] == b[n + 1..] + rest;
    assert (b[n + 1..] + rest)[1..] == b[n + 2..] + rest;
  }

  // A write that the system takes part in uses something up, except a lone carriage return
  // that waits for what follows it.
  lemma PutLLProgresses(b: seq<Byte>, eof: bool, o: Outcome)
    requires b != [] && o.Wrote? && o.n > 0
    ensures PutLL(b, eof, o).0 > 0 <==> (eof || b != [CR])
  {
  }

  /** Where the first line end is at n, and no sooner. */
  predicate FirstLineEnd(b: seq<Byte>, n: nat) {
    LineEnd(b, n) && forall i :: 0 <= i < n ==> !LineEnd(b, i)
  }

  /** A write that the system takes in full writes up to the first line end and the line feed alone
      of it, where there is one. Without one it writes all but a carriage return that may begin one.
      At the very front of a line end only the carriage return is passed over. */
  lemma PutLLInFull(b: seq<Byte>, eof: bool, o: Outcome)
    requires o.Wrote? && o.n >= |b| && o.newline
    ensures forall n: nat :: FirstLineEnd(b, n) ==>
      PutLL(b, eof, o) == if n == 0 then (1, []) else (n + 2, b[..n] + [LF])
    ensures (forall i :: 0 <= i < |b| ==> !LineEnd(b, i)) ==>
      PutLL(b, eof, o) == if !eof && b != [] && b[|b| - 1] == CR then (|b| - 1, b[..|b| - 1]) else (|b|, b)
  {
    var (n, skip) := LineLength(b, eof, 0);
    forall m: nat | FirstLineEnd(b, m) ensures m == n && skip {
      assert m <= n;
    }
    assert b[..0] == [] && b[..|b|] == b;
  }

  // ---------------------------------------------------------------- the writing side

  /** A destination stream: what reached the file, what is still buffered, whether all has been
      given, and whether the stream has stopped for good. */
  datatype Sink = Sink(file: seq<Byte>, buf: seq<Byte>, eof: bool, stopped: bool)

  // After a failed write nothing more is written; a broken pipe also drops the buffer.
  function Stopped(s: Sink, o: Outcome): Sink {
    if o.NoReader? then s.(buf := [], eof := true, stopped := true) else s.(stopped := true)
  }

  function Drain(s: Sink, o: Outcome): Sink {
    if s.stopped then s
    else
      var (k, out) := PutLL(s.buf, s.eof, o);
      if k < 0 then Stopped(s, o) else s.(file := s.file + out, buf := s.buf[k..])
  }

  // A large put into an empty buffer is first tried directly; the rest is buffered.
  function Put(s: Sink, b: seq<Byte>, o: Outcome): Sink {
    if |b| >= CopyEngine.PUT_LL_MIN && s.buf == [] && !s.stopped then
      var (k, out) := PutLL(b, s.eof, o);
      if k < 0 then (var t := Stopped(s, o); t.(buf := t.buf + b))
      else s.(file := s.file + out, buf := b[k..])
    else s.(buf := s.buf + b)
  }

  datatype Turn = PutTurn(b: seq<Byte>, o: Outcome) | DrainTurn(o: Outcome)

  function Step(s: Sink, t: Turn): Sink {
    match t
    case PutTurn(b, o) => Put(s, b, o)
    case DrainTurn(o) => Drain(s, o)
  }

  function Run(s: Sink, turns: seq<Turn>): Sink
    decreases |turns|
  {
    if turns == [] then s else Run(Step(s, turns[0]), turns[1..])
  }

  function Given(turns: seq<Turn>): seq<Byte> {
    if turns == [] then [] else (if turns[0].PutTurn? then turns[0].b else []) + Given(turns[1..])
  }

  // After the end of the data only draining is left.
  function Drained(s: Sink, os: seq<Outcome>): Sink
    decreases |os|
  {
    if os == [] then s else Drained(Drain(s, os[0]), os[1..])
  }

  predicate IsPrefix(a: seq<Byte>, b: seq<Byte>) {
    |a| <= |b| && a == b[..|a|]
  }

  // The file and the buffer, and whatever is yet to be given, make up the stripped text.
  ghost predicate Owes(s: Sink, text: seq<Byte>, rest: seq<Byte>) {
    if s.stopped then IsPrefix(s.file, text) else s.file + Strip(s.buf + rest) == text
  }

  lemma PrefixOfJoin(a: seq<Byte>, b: seq<Byte>)
    ensures IsPrefix(a, a + b)
  {
  }

  lemma DrainOwes(s: Sink, o: Outcome, text: seq<Byte>, rest: seq<Byte>)
    requires Owes(s, text, rest) && (s.eof ==> rest == [])
    ensures Owes(Drain(s, o), text, rest)
  {
    hide Strip, PutLL;
    if !s.stopped {
      var (k, out) := PutLL(s.buf, s.eof, o);
      if k >= 0 {
        PutLLStrips(s.buf, s.eof, o, rest);
        assert s.file + out + Strip(s.buf[k..] + rest) == s.file + (out + Strip(s.buf[k..] + rest));
      } else {
        PrefixOfJoin(s.file, Strip(s.buf + rest));
      }
    }
  }

  lemma PutOwes(s: Sink, b: seq<Byte>, o: Outcome, text: seq<Byte>, rest: seq<Byte>)
    requires Owes(s, text, b + rest) && !(s.eof && !s.stopped)
    ensures Owes(Put(s, b, o), text, rest)
  {
    hide Strip, PutLL;
    assert s.buf + (b + rest) == s.buf + b + rest;
    if |b| >= CopyEngine.PUT_LL_MIN && s.buf == [] && !s.stopped {
      assert s.buf + b + rest == b + rest;
      var (k, out) := PutLL(b, s.eof, o);
      if k >= 0 {
        PutLLStrips(b, s.eof, o, rest);
        assert s.file + out + Strip(b[k..] + rest) == s.file + (out + Strip(b[k..] + rest));
      } else {
        PrefixOfJoin(s.file, Strip(b + rest));
      }
    }
  }

  lemma {:induction false} RunOwes(s: Sink, turns: seq<Turn>, text: seq<Byte>, rest: seq<Byte>)
    requires Owes(s, text, Given(turns) + rest) && !(s.eof && !s.stopped)
    ensures Owes(Run(s, turns), text, rest) && !(Run(s, turns).eof && !Run(s, turns).stopped)
    decreases |turns|
  {
    hide Owes, Drain, Put;
    if turns == [] {
      assert Given(turns) + rest == rest;
    } else {
      var t := turns[0];
      var after := Given(turns[1..]) + rest;
      StepKeepsOpen(s, t);
      if t.PutTurn? {
        assert Given(turns) + rest == t.b + after;
        PutOwes(s, t.b, t.o, text, after);
      } else {
        assert Given(turns) + rest == after;
        StoppedOwesAnything(s, text, after);
        if !s.stopped { assert s.(eof := false) == s; }
        DrainOwes(s.(eof := false), t.o, text, after);
        if s.stopped { assert Drain(s, t.o) == s by { StoppedStays(s, t.o); } }
      }
      RunOwes(Step(s, t), turns[1..], text, rest);
    }
  }

  lemma StoppedStays(s: Sink, o: Outcome)
    requires s.stopped
    ensures Drain(s, o) == s
  {
  }

  lemma StoppedOwesAnything(s: Sink, text: seq<Byte>, rest: seq<Byte>)
    ensures Owes(s, text, rest) == Owes(s.(eof := false), text, rest)
  {
  }

  lemma StepKeepsOpen(s: Sink, t: Turn)
    requires !(s.eof && !s.stopped)
    ensures !(Step(s, t).eof && !Step(s, t).stopped)
  {
    hide PutLL;
  }

  lemma {:induction false} DrainedOwes(s: Sink, os: seq<Outcome>, text: seq<Byte>)
    requires Owes(s, text, [])
    ensures Owes(Drained(s, os), text, [])
    decreases |os|
  {
    hide Owes, Drain;
    if os != [] {
      DrainOwes(s, os[0], text, []);
      DrainedOwes(Drain(s, os[0]), os[1..], text);
    }
  }

  // ---------------------------------------------------------------- there and back

  function Joined(parts: seq<seq<Byte>>): seq<Byte> {
    if parts == [] then [] else parts[0] + Joined(parts[1..])
  }

  // What the reading side buffers: every read expanded on its own.
  function Received(chunks: seq<seq<Byte>>): seq<Byte> {
    if chunks == [] then [] else Expand(chunks[0]) + Received(chunks[1..])
  }

  lemma {:induction false} ReceivedIsExpanded(chunks: seq<seq<Byte>>)
    ensures Received(chunks) == Expand(Joined(chunks))
  {
    if chunks != [] {
      ReceivedIsExpanded(chunks[1..]);
      ExpandJoin(chunks[0], Joined(chunks[1..]));
    }
  }

  const EMPTY: Sink := Sink([], [], false, false)

  /** While the copy goes on, the file is always a prefix of the text, however the text was
      split into reads and puts and whatever the writes came to. */
  lemma WrittenIsPrefix(chunks: seq<seq<Byte>>, turns: seq<Turn>, rest: seq<Byte>)
    requires Given(turns) + rest == Received(chunks)
    ensures IsPrefix(Run(EMPTY, turns).file, Joined(chunks))
  {
    hide Run;
    var text := Joined(chunks);
    ReceivedIsExpanded(chunks);
    StripExpand(text);
    assert EMPTY.buf + (Given(turns) + rest) == Received(chunks);
    assert EMPTY.file + text == text;
    RunOwes(EMPTY, turns, text, rest);
    var s := Run(EMPTY, turns);
    PrefixOfJoin(s.file, Strip(s.buf + rest));
  }

  /** Once all has been given and drained the file is the text itself. */
  lemma AsciiRoundTrip(chunks: seq<seq<Byte>>, turns: seq<Turn>, os: seq<Outcome>)
    requires Given(turns) == Received(chunks)
    ensures var s := Drained(Run(EMPTY, turns).(eof := true), os);
      IsPrefix(s.file, Joined(chunks)) && (!s.stopped && s.buf == [] ==> s.file == Joined(chunks))
  {
    hide Run, Drained, Strip;
    var text := Joined(chunks);
    ReceivedIsExpanded(chunks);
    StripExpand(text);
    assert EMPTY.buf + (Given(turns) + []) == Received(chunks);
    assert EMPTY.file + text == text;
    RunOwes(EMPTY, turns, text, []);
    DrainedOwes(Run(EMPTY, turns).(eof := true), os, text);
    var s := Drained(Run(EMPTY, turns).(eof := true), os);
    PrefixOfJoin(s.file, Strip(s.buf + []));
    assert Strip([]) == [] by { StripEmpty(); }
    if s.buf == [] { assert s.buf + [] == []; assert s.file + [] == s.file; }
  }

  // Each write takes part in what it is given.
  ghost predicate Willing(os: seq<Outcome>) {
    forall i :: 0 <= i < |os| ==> os[i].Wrote? && os[i].n > 0
  }

  lemma {:induction false} DrainsAll(s: Sink, os: seq<Outcome>)
    requires s.eof && !s.stopped && Willing(os) && |os| >= |s.buf|
    ensures Drained(s, os).buf == [] && !Drained(s, os).stopped
    decreases |os|
  {
    if os != [] {
      if s.buf != [] {
        PutLLProgresses(s.buf, s.eof, os[0]);
      } else {
        assert PutLL([], true, os[0]) == (0, []);
      }
      hide PutLL;
      DrainsAll(Drain(s, os[0]), os[1..]);
    }
  }

  /** A copy in which no write fails comes to its end: as many drains as bytes are buffered, each
      with something written, leave the file as the text itself. */
  lemma AsciiCompletes(chunks: seq<seq<Byte>>, turns: seq<Turn>, os: seq<Outcome>)
    requires Given(turns) == Received(chunks) && !Run(EMPTY, turns).stopped
    requires Willing(os) && |os| >= |Run(EMPTY, turns).buf|
    ensures Drained(Run(EMPTY, turns).(eof := true), os).file == Joined(chunks)
  {
    hide Run, Drained, Strip;
    AsciiRoundTrip(chunks, turns, os);
    DrainsAll(Run(EMPTY, turns).(eof := true), os);
  }

  lemma StripEmpty()
    ensures Strip([]) == []
  {
  }

  // ---------------------------------------------------------------- in place

  // memmove(p+1,p,i)
  method MoveUp(a: array<Byte>, p: nat, i: nat)
    requires p + i < a.Length
    modifies a
    ensures a[..p + 1] == old(a[..p + 1])
    ensures a[p + 1..p + 1 + i] == old(a[p..p + i])
    ensures a[p + 1 + i..] == old(a[p + 1 + i..])
  {
    var k := i;
    while k > 0
      invariant 0 <= k <= i
      invariant forall j :: 0 <= j <= p + k ==> a[j] == old(a[j])
      invariant forall j :: p + k < j <= p + i ==> a[j] == old(a[j - 1])
      invariant forall j :: p + i < j < a.Length ==> a[j] == old(a[j])
    {
      a[p + k] := a[p + k - 1];
      k := k - 1;
    }
  }

  // The body of Get_LL's loop: the byte at p, the first of the i that are left, is expanded.
  method ExpandAt(a: array<Byte>, p: nat, i: nat) returns (q: nat)
    requires i > 0 && p + i < a.Length
    modifies a
    ensures q == p + (if old(a[p]) == LF then 2 else 1)
    ensures a[..q] == old(a[..p]) + Expand([old(a[p])])
    ensures a[q..q + i - 1] == old(a[p + 1..p + i])
  {
    ghost var before, after := a[..p], a[p + 1..p + i];
    q := p;
    if a[q] == LF {
      assert a[p..p + i] == [LF] + after;
      MoveUp(a, p, i);
      assert a[p + 1..p + 1 + i] == [LF] + after;
      assert a[p + 1] == LF by { assert a[p + 1..p + 1 + i][0] == LF; }
      assert a[p + 2..p + 1 + i] == after by { assert a[p + 1..p + 1 + i][1..] == a[p + 2..p + 1 + i]; }
      a[q] := CR;
      q := q + 1;
      assert a[..p] == before by { assert a[..p + 1][..p] == a[..p]; }
    }
    q := q + 1;
    assert Expand([a[q - 1]]) == (if a[q - 1] == LF then [CR, LF] else [a[q - 1]]) + Expand([]);
  }

  // Where the loop is: done up to p, with the bytes of `was` from d on still as they were read.
  ghost predicate Expanding(now: seq<Byte>, was: seq<Byte>, d: nat, p: nat) {
    && d <= |was| && p <= 2 * d && p + |was| - d <= |now|
    && now[..p] == Expand(was[..d])
    && now[p..p + |was| - d] == was[d..]
  }

  lemma ExpandOneMore(was: seq<Byte>, d: nat)
    requires d < |was|
    ensures Expand(was[..d + 1]) == Expand(was[..d]) + Expand([was[d]])
  {
    assert was[..d + 1] == was[..d] + [was[d]];
    ExpandJoin(was[..d], [was[d]]);
  }

  lemma ExpandingStarts(now: seq<Byte>, got: nat)
    requires got <= |now|
    ensures Expanding(now, now[..got], 0, 0)
  {
    assert now[..got][..0] == [] && now[..got][0..] == now[..got] == now[0..got];
  }

  lemma ExpandingEnds(now: seq<Byte>, was: seq<Byte>, p: nat)
    requires Expanding(now, was, |was|, p)
    ensures now[..p] == Expand(was) && |was| <= p
  {
    assert was[..|was|] == was;
    ExpandLength(was);
  }

  /** The loop of Get_LL: the first `got` bytes of the buffer become their expansion. */
  method InsertCarriageReturns(a: array<Byte>, got: nat) returns (res: nat)
    requires 2 * got <= a.Length
    modifies a
    ensures got <= res <= 2 * got && a[..res] == Expand(old(a[..got]))
  {
    hide Expand;
    ghost var was := a[..got];
    var p, i := 0, got;
    ExpandingStarts(a[..], got);
    while i > 0
      invariant 0 <= i <= got && Expanding(a[..], was, got - i, p)
    {
      ghost var d, now := got - i, a[..];
      assert a[p] == now[p..p + i][0] == was[d..][0];
      assert a[p + 1..p + i] == now[p..p + i][1..] == was[d..][1..] == was[d + 1..];
      ExpandOneMore(was, d);
      p := ExpandAt(a, p, i);
      i := i - 1;
    }
    ExpandingEnds(a[..], was, p);
    return p;
  }

  /** FileCopyPeerFDStream, as the destination of an ascii transfer. */
  class FDStream {
    var file: seq<Byte>
    var buffer: seq<Byte>
    var eof: bool
    var stopped: bool

    function Value(): Sink
      reads this
    {
      Sink(file, buffer, eof, stopped)
    }

    // The scan for where the line ends.
    method FindLineEnd(b: seq<Byte>) returns (len: nat, skip: bool)
      ensures (len, skip) == LineLength(b, eof, 0)
    {
      var cr := 0;
      while cr < |b|
        invariant cr <= |b| && LineLength(b, eof, 0) == LineLength(b, eof, cr)
      {
        if b[cr] == CR {
          if cr < |b| - 1 && b[cr + 1] == LF { return cr, true; }
          if cr == |b| - 1 { return if eof then |b| else |b| - 1, false; }
        }
        cr := cr + 1;
      }
      return |b|, false;
    }

    method Put_LL(b: seq<Byte>, o: Outcome) returns (res: int)
      modifies this
      ensures var (k, out) := PutLL(b, old(eof), o);
        res == k && file == old(file) + out
        && Value() == if k < 0 then Stopped(old(Value()), o) else old(Value()).(file := file)
    {
      var len, skip := FindLineEnd(b);
      if len == 0 { return if skip then 1 else 0; }
      match o
      case NotReady => return 0;
      case NoReader =>
        buffer, eof, stopped := [], true, true;
        return -1;
      case Failed =>
        stopped := true;
        return -1;
      case Wrote(n, newline) =>
        var k := if n < len then n else len;
        file := file + b[..k];
        res := k;
        if k == len && skip {
          res := res + 1;
          if newline {
            file := file + [LF];
            res := res + 1;
          }
        }
    }

    method DrainSome(o: Outcome)
      modifies this
      ensures Value() == Drain(old(Value()), o)
      ensures forall text, rest ::
        Owes(old(Value()), text, rest) && (old(eof) ==> rest == []) ==> Owes(Value(), text, rest)
    {
      hide Owes, Strip;
      ghost var was := Value();
      if !stopped {
        var res := Put_LL(buffer, o);
        if res > 0 { buffer := buffer[res..]; }
      }
      forall text, rest | Owes(was, text, rest) && (was.eof ==> rest == []) ensures Owes(Value(), text, rest) {
        DrainOwes(was, o, text, rest);
      }
    }

    method PutData(b: seq<Byte>, o: Outcome)
      modifies this
      ensures Value() == Put(old(Value()), b, o)
      ensures !old(eof) || old(stopped) ==>
                forall text, rest :: Owes(old(Value()), text, b + rest) ==> Owes(Value(), text, rest)
    {
      hide Owes, Strip;
      ghost var was := Value();
      var rest := b;
      if |b| >= CopyEngine.PUT_LL_MIN && |buffer| == 0 && !stopped {
        var res := Put_LL(b, o);
        if res >= 0 { rest := b[res..]; }
      }
      buffer := buffer + rest;
      assert Value() == Put(was, b, o);
      if !was.eof || was.stopped {
        forall text, later | Owes(was, text, b + later) ensures Owes(Value(), text, later) {
          PutOwes(was, b, o, text, later);
        }
      }
    }
  }
}

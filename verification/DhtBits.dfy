/**
 Node ids of the distributed hash table as byte strings, read bit by bit from
 the most significant end, and the mask arithmetic by which the routing table
 compares and extends bucket prefixes (BEP 5, "Routing Table").
 */
module DhtBits {

  type Byte = bv8

  const ID_BYTES: nat := 20
  const ID_BITS: nat := 160

  // A 160-bit node id, most significant byte first.
  type Id = s: seq<Byte> | |s| == ID_BYTES witness seq(ID_BYTES, _ => 0)

  // The mask of bit j of a byte, bit 0 being the most significant.
  function BitMask(j: nat): (m: Byte)
    requires j < 8
  {
    if j == 0 then 0x80 else if j == 1 then 0x40 else if j == 2 then 0x20 else if j == 3 then 0x10
    else if j == 4 then 0x08 else if j == 5 then 0x04 else if j == 6 then 0x02 else 0x01
  }

  // The mask of the first n bits of a byte.
  function HighMask(n: nat): (m: Byte)
    requires 0 < n < 8
  {
    if n == 1 then 0x80 else if n == 2 then 0xC0 else if n == 3 then 0xE0 else if n == 4 then 0xF0
    else if n == 5 then 0xF8 else if n == 6 then 0xFC else 0xFE
  }

  // The mask of the bits of a byte after the first n.
  function LowMask(n: nat): (m: Byte)
    requires 0 < n < 8
  {
    if n == 1 then 0x7F else if n == 2 then 0x3F else if n == 3 then 0x1F else if n == 4 then 0x0F
    else if n == 5 then 0x07 else if n == 6 then 0x03 else 0x01
  }

  // The three tables are the shifts the routing code computes.
  lemma MasksAreShifts(n: nat)
    requires n < 8
    ensures BitMask(n) == (1 as Byte) << (7 - n)
    ensures n > 0 ==> LowMask(n) == ((1 as Byte) << (8 - n)) - 1 && HighMask(n) == !(((1 as Byte) << (8 - n)) - 1)
  {
    if n == 0 {} else if n == 1 {} else if n == 2 {} else if n == 3 {}
    else if n == 4 {} else if n == 5 {} else if n == 6 {} else {}
  }

  predicate ByteBit(x: Byte, j: nat)
    requires j < 8
  {
    x & BitMask(j) != 0
  }

  predicate Bit(s: seq<Byte>, k: nat)
    requires k < 8 * |s|
  {
    ByteBit(s[k / 8], k % 8)
  }

  ghost predicate Agree(a: seq<Byte>, b: seq<Byte>, n: int)
    requires n <= 8 * |a| && n <= 8 * |b|
  {
    forall k: nat :: k < n ==> Bit(a, k) == Bit(b, k)
  }

  lemma HighMaskStep(x: Byte, y: Byte, n: nat)
    requires 1 < n < 8
    ensures SameHigh(x, y, n) <==> SameHigh(x, y, n - 1) && ByteBit(x, n - 1) == ByteBit(y, n - 1)
  {
    hide SameHigh, HighMask, ByteBit;
    SameHighMeans(x, y, n);
    SameHighMeans(x, y, n - 1);
    OneBitMore(x, y, n);
  }

  lemma OneBitMore(x: Byte, y: Byte, n: nat)
    requires 1 < n < 8
    ensures x & HighMask(n) == y & HighMask(n)
        <==> (x & HighMask(n - 1) == y & HighMask(n - 1) && ByteBit(x, n - 1) == ByteBit(y, n - 1))
  {
    if n == 2 {} else if n == 3 {} else if n == 4 {} else if n == 5 {} else if n == 6 {} else {}
  }

  predicate SameHigh(x: Byte, y: Byte, n: nat)
    requires 0 < n < 8
  {
    x & HighMask(n) == y & HighMask(n)
  }

  lemma {:induction false} SameHighIsBits(x: Byte, y: Byte, n: nat)
    requires 0 < n < 8
    ensures SameHigh(x, y, n) <==> forall j: nat :: j < n ==> ByteBit(x, j) == ByteBit(y, j)
  {
    if n == 1 { HighMaskStart(x, y); } else { HighMaskStep(x, y, n); }
    hide ByteBit, SameHigh;
    if n > 1 { SameHighIsBits(x, y, n - 1); }
  }

  // Comparing under the high mask compares the first n bits.
  lemma HighMaskIsBits(x: Byte, y: Byte, n: nat)
    requires 0 < n < 8
    ensures x & HighMask(n) == y & HighMask(n)
        <==> forall j: nat :: j < n ==> ByteBit(x, j) == ByteBit(y, j)
  {
    hide ByteBit, HighMask;
    SameHighIsBits(x, y, n);
  }

  lemma SameHighMeans(x: Byte, y: Byte, n: nat)
    requires 0 < n < 8
    ensures SameHigh(x, y, n) <==> x & HighMask(n) == y & HighMask(n)
  {
    hide HighMask;
  }

  lemma HighMaskStart(x: Byte, y: Byte)
    ensures SameHigh(x, y, 1) <==> ByteBit(x, 0) == ByteBit(y, 0)
  {
  }

  lemma ByteIsBits(x: Byte, y: Byte)
    ensures x == y <==> forall j: nat :: j < 8 ==> ByteBit(x, j) == ByteBit(y, j)
  {
    var bitsAgree := forall j: nat :: j < 8 ==> ByteBit(x, j) == ByteBit(y, j);
    assert bitsAgree <==>
      && ByteBit(x, 0) == ByteBit(y, 0) && ByteBit(x, 1) == ByteBit(y, 1)
      && ByteBit(x, 2) == ByteBit(y, 2) && ByteBit(x, 3) == ByteBit(y, 3)
      && ByteBit(x, 4) == ByteBit(y, 4) && ByteBit(x, 5) == ByteBit(y, 5)
      && ByteBit(x, 6) == ByteBit(y, 6) && ByteBit(x, 7) == ByteBit(y, 7);
  }

  // Setting bit i changes that bit alone.
  lemma SetBitOnly(x: Byte, i: nat, j: nat)
    requires i < 8 && j < 8
    ensures ByteBit(x | BitMask(i), j) == (i == j || ByteBit(x, j))
  {
    if i == 0 {} else if i == 1 {} else if i == 2 {} else if i == 3 {}
    else if i == 4 {} else if i == 5 {} else if i == 6 {} else {}
  }

  // Or-ing random low bits into a byte whose low bits are clear keeps the first n bits.
  lemma LowBitsOnly(x: Byte, r: Byte, n: nat, j: nat)
    requires 0 < n < 8 && j < n
    ensures ByteBit(x | (r & LowMask(n)), j) == ByteBit(x, j)
  {
    if n == 1 {} else if n == 2 {} else if n == 3 {} else if n == 4 {} else if n == 5 {} else if n == 6 {} else {}
  }

  lemma LowMaskStep(x: Byte, n: nat)
    requires 0 < n < 7
    ensures x & LowMask(n) == 0 <==> (x & LowMask(n + 1) == 0 && !ByteBit(x, n))
  {
    if n == 1 {} else if n == 2 {} else if n == 3 {} else if n == 4 {} else if n == 5 {} else {}
  }

  lemma {:induction false} LowMaskIsBits(x: Byte, n: nat)
    requires 0 < n < 8
    ensures x & LowMask(n) == 0 <==> forall j: nat :: n <= j < 8 ==> !ByteBit(x, j)
    decreases 8 - n
  {
    if n == 7 {
      assert ByteBit(x, 7) <==> x & 0x01 != 0;
    } else {
      LowMaskStep(x, n);
      LowMaskIsBits(x, n + 1);
    }
  }

  // Byte strings that agree on every bit of their first n bytes are equal there.
  lemma BytesAreBits(a: seq<Byte>, b: seq<Byte>, n: nat)
    requires n <= |a| && n <= |b|
    ensures a[..n] == b[..n] <==> Agree(a, b, 8 * n)
  {
    if a[..n] == b[..n] {
      forall k: nat | k < 8 * n
        ensures Bit(a, k) == Bit(b, k)
      {
        assert a[..n][k / 8] == b[..n][k / 8];
      }
    }
    if Agree(a, b, 8 * n) {
      forall i | 0 <= i < n
        ensures a[i] == b[i]
      {
        forall j: nat | j < 8
          ensures ByteBit(a[i], j) == ByteBit(b[i], j)
        {
          assert Bit(a, 8 * i + j) == Bit(b, 8 * i + j);
        }
        ByteIsBits(a[i], b[i]);
      }
    }
  }

  /** The bucket prefix test: whole bytes by memcmp, the rest under a mask.
      `skew` drops that many bits from the end of the prefix. */
  predicate PrefixMatch(prefix: seq<Byte>, prefixBits: nat, id: seq<Byte>, skew: nat)
    requires prefixBits <= 8 * |prefix| && prefixBits <= 8 * |id|
  {
    var n := prefixBits - skew;
    if n <= 0 then true else
    var bytes, bits := n / 8, n % 8;
    && prefix[..bytes] == id[..bytes]
    && (bits > 0 ==> prefix[bytes] & HighMask(bits) == id[bytes] & HighMask(bits))
  }

  // Agreement on n bits is agreement on the whole bytes and on the bits of the last, partial byte.
  lemma AgreeByBytes(a: seq<Byte>, b: seq<Byte>, bytes: nat, bits: nat)
    requires bits < 8 && 8 * bytes + bits <= 8 * |a| && 8 * bytes + bits <= 8 * |b|
    ensures Agree(a, b, 8 * bytes + bits) <==>
      (Agree(a, b, 8 * bytes) &&
       (bits == 0 || forall j: nat :: j < bits ==> ByteBit(a[bytes], j) == ByteBit(b[bytes], j)))
  {
    if bits > 0 {
      if Agree(a, b, 8 * bytes + bits) {
        forall j: nat | j < bits
          ensures ByteBit(a[bytes], j) == ByteBit(b[bytes], j)
        {
          assert Bit(a, 8 * bytes + j) == Bit(b, 8 * bytes + j);
        }
      }
      forall k: nat | 8 * bytes <= k < 8 * bytes + bits
        ensures Bit(a, k) == ByteBit(a[bytes], k - 8 * bytes)
        ensures Bit(b, k) == ByteBit(b[bytes], k - 8 * bytes)
      {
      }
    }
  }

  lemma MaskedCompareIsAgree(a: seq<Byte>, b: seq<Byte>, bytes: nat, bits: nat)
    requires 0 < bits < 8 && 8 * bytes + bits <= 8 * |a| && 8 * bytes + bits <= 8 * |b|
    ensures (a[..bytes] == b[..bytes] && a[bytes] & HighMask(bits) == b[bytes] & HighMask(bits))
        <==> Agree(a, b, 8 * bytes + bits)
  {
    hide Agree, ByteBit, HighMask, SameHigh;
    var x, y := a[bytes], b[bytes];
    assert x & HighMask(bits) == y & HighMask(bits) <==> SameHigh(x, y, bits) by { SameHighMeans(x, y, bits); }
    SameHighIsBits(x, y, bits);
    BytesAreBits(a, b, bytes);
    AgreeByBytes(a, b, bytes, bits);
  }

  // The mask arithmetic of the test is exactly bitwise agreement on what remains of the prefix.
  lemma PrefixMatchIsAgree(prefix: seq<Byte>, prefixBits: nat, id: seq<Byte>, skew: nat)
    requires prefixBits <= 8 * |prefix| && prefixBits <= 8 * |id|
    ensures PrefixMatch(prefix, prefixBits, id, skew) <==> Agree(prefix, id, prefixBits - skew)
  {
    var n := prefixBits - skew;
    if n > 0 {
      var bytes, bits := n / 8, n % 8;
      if bits > 0 {
        MaskedCompareIsAgree(prefix, id, bytes, bits);
      } else {
        BytesAreBits(prefix, id, bytes);
      }
    }
  }

  // Number of leading bits, from bit k on, that two ids share.
  function CommonFrom(a: Id, b: Id, k: nat): (n: nat)
    requires k <= ID_BITS
    ensures k <= n <= ID_BITS
    ensures n < ID_BITS ==> Bit(a, n) != Bit(b, n)
    ensures forall j: nat :: k <= j < n ==> Bit(a, j) == Bit(b, j)
    decreases ID_BITS - k
  {
    if k == ID_BITS || Bit(a, k) != Bit(b, k) then k else CommonFrom(a, b, k + 1)
  }

  // The length of the longest common prefix of two ids, in bits.
  function CommonPrefix(a: Id, b: Id): (n: nat)
    ensures n <= ID_BITS
    ensures forall m: nat :: m <= ID_BITS ==> (Agree(a, b, m) <==> m <= n)
    ensures n == ID_BITS <==> a == b
  {
    var n := CommonFrom(a, b, 0);
    assert n == ID_BITS <==> a == b by {
      BytesAreBits(a, b, ID_BYTES);
      assert a[..ID_BYTES] == a && b[..ID_BYTES] == b;
    }
    n
  }

  lemma CommonPrefixSymmetric(a: Id, b: Id)
    ensures CommonPrefix(a, b) == CommonPrefix(b, a)
  {
    assert Agree(b, a, CommonPrefix(a, b));
    assert Agree(a, b, CommonPrefix(b, a));
  }

  // Common-prefix length is an ultrametric: of three ids the two smaller lengths are equal.
  lemma CommonPrefixUltra(a: Id, b: Id, c: Id)
    requires CommonPrefix(a, b) < CommonPrefix(b, c)
    ensures CommonPrefix(a, c) == CommonPrefix(a, b)
  {
    var n := CommonPrefix(a, b);
    assert Agree(a, b, n) && Agree(b, c, n + 1);
    assert Agree(a, c, n);
    assert !Agree(a, b, n + 1);
    if Agree(a, c, n + 1) {
      assert Agree(a, b, n + 1);
    }
  }
}

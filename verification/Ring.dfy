/** A circular byte area addressed by ever-growing positions. */
module Ring {
  import opened Bytes
  import opened Modular

  /** Where in an area of `n` bytes a position lies. */
  function Offset(pos: nat, n: nat): (off: nat)
    requires n > 0
    ensures off < n
  {
    pos % n
  }

  /** The bytes at positions `t` up to `h`, unrolled into a straight stream. */
  function Unroll(ring: seq<byte>, t: nat, h: nat): (s: seq<byte>)
    requires |ring| > 0 && t <= h
    ensures |s| == h - t
  {
    seq(h - t, i requires 0 <= i < h - t => ring[(t + i) % |ring|])
  }

  /** The area after the bytes `b` are stored from position `pos` on. */
  function Write(ring: seq<byte>, pos: nat, b: seq<byte>): (r: seq<byte>)
    requires |ring| > 0
    ensures |r| == |ring|
    decreases |b|
  {
    if b == [] then ring else Write(ring[pos % |ring| := b[0]], pos + 1, b[1..])
  }

  lemma UnrollSplit(ring: seq<byte>, t: nat, m: nat, h: nat)
    requires |ring| > 0 && t <= m <= h
    ensures Unroll(ring, t, h) == Unroll(ring, t, m) + Unroll(ring, m, h)
    ensures Unroll(ring, t, h)[m - t..] == Unroll(ring, m, h)
  {
  }

  /** A stretch that does not reach past the end of the area is read straight from it. */
  lemma ContiguousRead(ring: seq<byte>, t: nat, h: nat, from: nat, to: nat)
    requires |ring| > 0 && t <= h && from <= to <= h - t
    requires Offset(t, |ring|) + to <= |ring|
    ensures ring[Offset(t, |ring|) + from..Offset(t, |ring|) + to] == Unroll(ring, t, h)[from..to]
  {
    forall i | from <= i < to ensures ring[t % |ring| + i] == Unroll(ring, t, h)[i] {
      ModForward(t, i, |ring|);
    }
  }

  /** A header at an aligned position is never split by the wrap. */
  lemma HeaderFits(t: nat, n: nat)
    requires n > 0 && n % 8 == 0 && t % 8 == 0
    ensures Offset(t, n) % 8 == 0 && Offset(t, n) + 8 <= n
  {
    ModKeepsAlignment(t, n);
  }

  /** Only the offset of the starting position matters to a write. */
  lemma {:induction false} WriteCongruent(ring: seq<byte>, p: nat, q: nat, b: seq<byte>)
    requires |ring| > 0 && p % |ring| == q % |ring|
    ensures Write(ring, p, b) == Write(ring, q, b)
    decreases |b|
  {
    if b != [] {
      ModCongruent(p, q, 1, |ring|);
      WriteCongruent(ring[p % |ring| := b[0]], p + 1, q + 1, b[1..]);
    }
  }

  lemma WriteByteAppends(ring: seq<byte>, t: nat, h: nat, x: byte)
    requires |ring| > 0 && t <= h < t + |ring|
    ensures Unroll(ring[h % |ring| := x], t, h + 1) == Unroll(ring, t, h) + [x]
  {
    var after := ring[h % |ring| := x];
    var s, s' := Unroll(ring, t, h), Unroll(after, t, h + 1);
    forall i | 0 <= i < h - t ensures s'[i] == s[i] {
      ModDistinct(t + i, h, |ring|);
    }
    assert s'[h - t] == x;
  }

  /** Bytes written into free space follow the unread ones, which stay as they were. */
  lemma {:induction false} WriteAppends(ring: seq<byte>, t: nat, h: nat, b: seq<byte>)
    requires |ring| > 0 && t <= h && h + |b| <= t + |ring|
    ensures Unroll(Write(ring, h, b), t, h + |b|) == Unroll(ring, t, h) + b
    decreases |b|
  {
    if b == [] {
      assert Unroll(ring, t, h) + b == Unroll(ring, t, h);
    } else {
      WriteByteAppends(ring, t, h, b[0]);
      WriteAppends(ring[h % |ring| := b[0]], t, h + 1, b[1..]);
      assert Unroll(ring, t, h) + [b[0]] + b[1..] == Unroll(ring, t, h) + b;
    }
  }

  function Pow2(k: nat): (p: nat)
    ensures p > 0
  {
    if k == 0 then 1 else 2 * Pow2(k - 1)
  }

  lemma {:induction false} Pow2Add(j: nat, k: nat)
    ensures Pow2(j + k) == Pow2(j) * Pow2(k)
  {
    if j > 0 {
      Pow2Add(j - 1, k);
      assert 2 * Pow2(j - 1) * Pow2(k) == 2 * (Pow2(j - 1) * Pow2(k));
    }
  }

  lemma Pow2Double(k: nat, p: nat)
    requires Pow2(k) == p
    ensures Pow2(2 * k) == p * p
  {
    hide Pow2;
    Pow2Add(k, k);
  }

  lemma Pow2Of64(k: nat)
    requires k == 4
    ensures Pow2(16 * k) == TWO_64
  {
    assert Pow2(k) == 16 by {
      assert Pow2(k - 2) == 4;
    }
    hide Pow2;
    Pow2Double(k, 16);
    Pow2Double(2 * k, 0x100);
    Pow2Double(4 * k, 0x1_0000);
    Pow2Double(8 * k, 0x1_0000_0000);
  }

  /** A power-of-two page size for which the mapping of nine pages fits a size_t. */
  ghost predicate PageSize(page: nat) {
    exists k: nat :: k <= 60 && page == Pow2(k)
  }

  /** Eight such pages divide 2^64, the fact that lets the counters overflow. */
  lemma EightPagesDivide(page: nat) returns (laps: nat)
    requires PageSize(page)
    ensures laps > 1 && (8 * page) * laps == TWO_64
  {
    var k: nat :| k <= 60 && page == Pow2(k);
    assert Pow2(3) == 8;
    Pow2Add(3, k);
    Pow2Add(k + 3, 61 - k);
    laps := Pow2(61 - k);
    Pow2Of64(4);
  }

  /** A 64-bit counter that overflows gives the offsets of the unbounded one at every
      position exactly when the area size divides 2^64. */
  lemma OverflowKeepsOffsets(n: nat)
    requires 0 < n
    ensures (forall c: nat :: Reg(c) % n == c % n) <==> TWO_64 % n == 0
  {
    if TWO_64 % n == 0 {
      forall c: nat ensures Reg(c) % n == c % n {
        assert n * (TWO_64 / n) == TWO_64;
        ModOfMod(c, n, TWO_64 / n);
      }
    } else {
      assert Reg(TWO_64) == 0;
      DivModUnique(0, 0, 0, n);
      assert Reg(TWO_64) % n != TWO_64 % n;
    }
  }

  /** Where in the data area a tail register points: `mmap_size` covers the control page
      and eight data pages. */
  function EventOffset(dataTail: nat, pageSize: nat): (off: nat)
    requires pageSize > 0
  {
    var mmapSize := pageSize * (1 + 8);
    dataTail % (mmapSize - pageSize)
  }

  /** Which is the register modulo the eight data pages, and positions lie modulo the area. */
  lemma OffsetsAreRemainders(dataTail: nat, page: nat, ring: seq<byte>, t: nat, h: nat, i: nat)
    requires page > 0 && |ring| == 8 * page && t <= h && i < h - t
    ensures EventOffset(dataTail, page) == dataTail % (8 * page)
    ensures Unroll(ring, t, h)[i] == ring[(t + i) % (8 * page)]
  {
  }

  /** The 64-bit register points where the unbounded counter would. */
  lemma RegOffset(page: nat, c: nat)
    requires PageSize(page)
    ensures 0 < 8 * page < TWO_64 && EventOffset(Reg(c), page) == Offset(c, 8 * page) == c % (8 * page)
  {
    var laps := EightPagesDivide(page);
    assert (8 * page) * laps == 8 * page + (8 * page) * (laps - 1);
    ModOfMod(c, 8 * page, laps);
  }

  /** On eight pages the header at an aligned tail lies wholly inside the data area, even
      after the register has overflowed. */
  lemma HeaderInArea(page: nat, c: nat)
    requires PageSize(page) && c % 8 == 0
    ensures page > 0 && EventOffset(Reg(c), page) % 8 == 0 && EventOffset(Reg(c), page) + 8 <= 8 * page
  {
    hide *;
    RegOffset(page, c);
    HeaderFits(c, 8 * page);
  }
}

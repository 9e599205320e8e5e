/** Little-endian integers, as the perf records hold them. */
module Bytes {
  import opened Modular

  type byte = x: int | 0 <= x < 256

  function Pow256(k: nat): (p: nat)
    ensures p > 0
  {
    if k == 0 then 1 else 256 * Pow256(k - 1)
  }

  /** The number a little-endian field holds. */
  function Le(b: seq<byte>): nat {
    if b == [] then 0 else b[0] + 256 * Le(b[1..])
  }

  /** `n` written as a little-endian field of `k` bytes. */
  function LeBytes(n: nat, k: nat): (b: seq<byte>)
    ensures |b| == k
  {
    if k == 0 then [] else [n % 256] + LeBytes(n / 256, k - 1)
  }

  lemma {:induction false} LeOfBytes(n: nat, k: nat)
    requires n < Pow256(k)
    ensures Le(LeBytes(n, k)) == n
  {
    if k > 0 {
      LeOfBytes(n / 256, k - 1);
    }
  }

  lemma {:induction false} BytesOfLe(b: seq<byte>)
    ensures Le(b) < Pow256(|b|)
    ensures LeBytes(Le(b), |b|) == b
  {
    if b != [] {
      BytesOfLe(b[1..]);
      assert Le(b) / 256 == Le(b[1..]) && Le(b) % 256 == b[0];
      assert b == [b[0]] + b[1..];
    }
  }

  /** Byte `i` of a field, counted from the first, is its digit of weight 256^i. */
  lemma {:induction false} LePlace(b: seq<byte>, i: nat)
    requires i < |b|
    ensures Le(b) / Pow256(i) % 256 == b[i]
  {
    LeFirst(b);
    assert Pow256(i) == if i == 0 then 1 else 256 * Pow256(i - 1);
    hide Le, Pow256;
    if i > 0 {
      LePlace(b[1..], i - 1);
      DivStep(Le(b), Pow256(i - 1));
    }
  }

  lemma LeFirst(b: seq<byte>)
    requires b != []
    ensures Le(b) % 256 == b[0] && Le(b) / 256 == Le(b[1..])
  {
  }

  lemma DivStep(n: nat, p: nat)
    requires p > 0
    ensures n / (256 * p) == n / 256 / p
  {
    var q, r := n / 256, n % 256;
    var m, s := q / p, q % p;
    assert n == (256 * p) * m + (256 * s + r) by {
      assert q == p * m + s;
      assert 256 * (p * m) == (256 * p) * m;
    }
    assert 256 * s + r < 256 * p;
    DivModUnique(n, m, 256 * s + r, 256 * p) by {
      assert m * (256 * p) == (256 * p) * m;
    }
  }

  lemma {:induction false} LeZero(b: seq<byte>)
    requires forall i :: 0 <= i < |b| ==> b[i] == 0
    ensures Le(b) == 0
  {
    if b != [] {
      LeZero(b[1..]);
    }
  }

  /** A field whose bytes after the second are zero. */
  lemma LeShort(b: seq<byte>)
    requires |b| >= 2 && forall i :: 2 <= i < |b| ==> b[i] == 0
    ensures Le(b) == b[0] as int + 256 * b[1] as int
  {
    var rest := b[1..];
    LeZero(rest[1..]);
    assert Le(rest) == rest[0] + 256 * Le(rest[1..]);
  }

  /** The whole 8-byte words of a payload. */
  function Words(b: seq<byte>): (w: seq<nat>)
    ensures |w| == |b| / 8
  {
    if |b| < 8 then [] else [Le(b[..8])] + Words(b[8..])
  }

  lemma {:induction false} WordAt(b: seq<byte>, i: nat)
    requires i < |b| / 8
    ensures Words(b)[i] == Le(b[8 * i..8 * i + 8])
  {
    if i > 0 {
      WordAt(b[8..], i - 1);
      assert b[8..][8 * (i - 1)..8 * (i - 1) + 8] == b[8 * i..8 * i + 8];
    }
  }
}

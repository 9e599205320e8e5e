/** When the `!=` loop stops, for any bytes in the area: the loop on the registers alone,
    with the sizes it reads wherever its tail leads. */
module RawLoop {
  import opened Bytes
  import opened Modular
  import opened PerfBuffer
  import opened Records
  import opened Ring
  import opened RingDrain
  import opened Wrappers

  /** The size field at a tail register, zero where no whole header lies. */
  function SizeAt(mem: seq<byte>, page: nat, reg: nat): nat
    requires page > 0
  {
    var off := EventOffset(reg, page);
    if off + 8 <= |mem| then Le(mem[off + 6..off + 8]) else 0
  }

  /** The tail register after `n` rounds. */
  function TailAfter(mem: seq<byte>, page: nat, reg: nat, n: nat): nat
    requires page > 0
  {
    if n == 0 then reg
    else
      var before := TailAfter(mem, page, reg, n - 1);
      AddU64(before, SizeAt(mem, page, before))
  }

  /** The unbounded position it stands for. */
  function PositionAfter(mem: seq<byte>, page: nat, t: nat, n: nat): nat
    requires page > 0
  {
    if n == 0 then t
    else
      var before := PositionAfter(mem, page, t, n - 1);
      before + SizeAt(mem, page, Reg(before))
  }

  /** One round adds the two size bytes of the header at the tail, modulo 2^64. */
  lemma OneRawRound(mem: seq<byte>, page: nat, reg: nat, n: nat)
    requires page > 0 && |mem| == 8 * page
    ensures TailAfter(mem, page, reg, 0) == reg
    ensures var before := TailAfter(mem, page, reg, n);
      var off := before % (8 * page);
      off + 8 <= 8 * page ==>
        TailAfter(mem, page, reg, n + 1)
          == (before + (mem[off + 6] as int + 256 * mem[off + 7] as int)) % 0x1_0000_0000_0000_0000
  {
    var before := TailAfter(mem, page, reg, n);
    var off := before % (8 * page);
    if off + 8 <= 8 * page {
      LeShort(mem[off + 6..off + 8]);
    }
  }

  lemma {:induction false} TailIsRegister(mem: seq<byte>, page: nat, t: nat, n: nat)
    requires page > 0
    ensures TailAfter(mem, page, Reg(t), n) == Reg(PositionAfter(mem, page, t, n))
  {
    if n > 0 {
      TailIsRegister(mem, page, t, n - 1);
      var before := PositionAfter(mem, page, t, n - 1);
      hide SizeAt;
      RegAdd(before, SizeAt(mem, page, Reg(before)));
    }
  }

  lemma {:induction false} PositionsGrow(mem: seq<byte>, page: nat, t: nat, m: nat, n: nat)
    requires page > 0 && m <= n
    ensures t <= PositionAfter(mem, page, t, m) <= PositionAfter(mem, page, t, n)
    decreases n
  {
    hide SizeAt;
    if n > 0 {
      PositionsGrow(mem, page, t, if m == n then n - 1 else m, n - 1);
    }
  }

  /** Before the counter has run through all 64 bits, the loop stops exactly if its sizes
      lead to the head itself; a head that is stepped over does not stop it. */
  lemma StopsOnlyOnHit(mem: seq<byte>, page: nat, t: nat, h: nat)
    requires page > 0 && t <= h < t + TWO_64
    ensures (exists n :: TailAfter(mem, page, Reg(t), n) == Reg(h) && PositionAfter(mem, page, t, n) < t + TWO_64)
      <==> (exists n :: PositionAfter(mem, page, t, n) == h)
  {
    hide Reg, TailAfter, PositionAfter;
    forall n: nat
      ensures PositionAfter(mem, page, t, n) < t + TWO_64 ==>
        (TailAfter(mem, page, Reg(t), n) == Reg(h) <==> PositionAfter(mem, page, t, n) == h)
    {
      TailIsRegister(mem, page, t, n);
      PositionsGrow(mem, page, t, 0, n);
      StartPosition(mem, page, t);
      var p := PositionAfter(mem, page, t, n);
      if p < t + TWO_64 {
        if p <= h {
          RegInjective(p, h);
        } else {
          RegInjective(h, p);
        }
      }
    }
  }

  lemma StartPosition(mem: seq<byte>, page: nat, t: nat)
    requires page > 0
    ensures PositionAfter(mem, page, t, 0) == t
  {
  }

  /** A zero size away from the head, with no stop before it, keeps the loop there for good. */
  lemma {:induction false} ZeroSizeNeverStops(mem: seq<byte>, page: nat, reg: nat, head: nat, k: nat, n: nat)
    requires page > 0 && reg < TWO_64
    requires SizeAt(mem, page, TailAfter(mem, page, reg, k)) == 0
    requires forall i :: 0 <= i <= k ==> TailAfter(mem, page, reg, i) != head
    ensures TailAfter(mem, page, reg, n) != head
    ensures n >= k ==> TailAfter(mem, page, reg, n) == TailAfter(mem, page, reg, k)
  {
    hide SizeAt;
    if n > k {
      ZeroSizeNeverStops(mem, page, reg, head, k, n - 1);
      TailInRange(mem, page, reg, k);
    }
  }

  lemma TailInRange(mem: seq<byte>, page: nat, reg: nat, n: nat)
    requires page > 0 && reg < TWO_64
    ensures TailAfter(mem, page, reg, n) < TWO_64
  {
  }

  /** Position `p` is the boundary after `k` of the records `rs` that lie from `t` to `h`. */
  ghost predicate AtBoundary(mem: seq<byte>, rs: seq<Record>, t: nat, h: nat, k: nat, p: nat) {
    && |mem| > 0 && k <= |rs| && p == t + TotalSize(rs[..k]) && p <= h && p % 8 == 0
    && Parse(Unroll(mem, p, h)) == Some(rs[k..])
  }

  lemma SizeReadAt(mem: seq<byte>, page: nat, p: nat, r: Record)
    requires PageSize(page) && page > 0 && |mem| == 8 * page
    requires RecordAt(mem, Offset(p, |mem|), r)
    ensures SizeAt(mem, page, Reg(p)) == r.Size()
  {
    RegOffset(page, p);
    hide PageSize, EventOffset, Offset, Reg, Le, Record.Size, Words;
  }

  lemma SliceStep(rs: seq<Record>, k: nat)
    requires k < |rs|
    ensures rs[k..][0] == rs[k] && rs[k..][1..] == rs[k + 1..]
    ensures TotalSize(rs[..k + 1]) == TotalSize(rs[..k]) + rs[k].Size()
  {
    assert rs[..k + 1] == rs[..k] + [rs[k]];
    hide TotalSize, Record.Size;
    TotalSizeAppend(rs[..k], [rs[k]]);
    TotalSizeOne(rs[k]);
  }

  lemma FrontSize(mem: seq<byte>, page: nat, rest: seq<Record>, p: nat, h: nat)
    requires PageSize(page) && page > 0 && |mem| == 8 * page && p < h && p % 8 == 0
    requires Parse(Unroll(mem, p, h)) == Some(rest) && rest != []
    ensures SizeAt(mem, page, Reg(p)) == rest[0].Size()
  {
    hide Parse, Unroll, PageSize, RecordAt, SizeAt;
    NextRecord(mem, p, h);
    SizeReadAt(mem, page, p, rest[0]);
  }

  lemma FrontBoundary(mem: seq<byte>, page: nat, rest: seq<Record>, p: nat, h: nat)
    requires PageSize(page) && page > 0 && |mem| == 8 * page && p <= h && p % 8 == 0
    requires Parse(Unroll(mem, p, h)) == Some(rest) && rest != []
    ensures SizeAt(mem, page, Reg(p)) == rest[0].Size()
    ensures p + rest[0].Size() <= h && (p + rest[0].Size()) % 8 == 0
    ensures Parse(Unroll(mem, p + rest[0].Size(), h)) == Some(rest[1..])
  {
    hide Parse, Unroll, PageSize, RecordAt, SizeAt, Record.Size, Record.Valid, Reg;
    MoreToRead(mem, rest, p, h);
    FrontSize(mem, page, rest, p, h);
    RecordAligned(rest[0], p);
    NextRecord(mem, p, h);
  }

  lemma NextBoundary(mem: seq<byte>, page: nat, rs: seq<Record>, t: nat, h: nat, k: nat, p: nat)
    requires PageSize(page) && page > 0 && |mem| == 8 * page
    requires AtBoundary(mem, rs, t, h, k, p) && k < |rs|
    ensures AtBoundary(mem, rs, t, h, k + 1, p + SizeAt(mem, page, Reg(p)))
  {
    hide Parse, Unroll, PageSize, SizeAt, TotalSize, Record.Size, Reg;
    SliceStep(rs, k);
    FrontBoundary(mem, page, rs[k..], p, h);
  }

  lemma FirstBoundary(mem: seq<byte>, rs: seq<Record>, t: nat, h: nat)
    requires |mem| > 0 && t <= h && t % 8 == 0 && Parse(Unroll(mem, t, h)) == Some(rs)
    ensures AtBoundary(mem, rs, t, h, 0, t)
  {
    hide Parse, Unroll;
    assert rs[..0] == [] && rs[0..] == rs;
  }

  lemma LastBoundary(mem: seq<byte>, rs: seq<Record>, t: nat, h: nat, p: nat)
    requires AtBoundary(mem, rs, t, h, |rs|, p)
    ensures p == h
  {
    assert rs[|rs|..] == [];
    var s := Unroll(mem, p, h);
    hide Unroll;
    assert s == [];
  }

  /** The position after `n + 1` rounds is one round on from the position after `n`. */
  lemma PositionStep(mem: seq<byte>, page: nat, t: nat, n: nat)
    requires page > 0
    ensures var p := PositionAfter(mem, page, t, n);
      PositionAfter(mem, page, t, n + 1) == p + SizeAt(mem, page, Reg(p))
  {
  }

  /** On a stream of whole records the loop visits each record boundary in order, the last
      of which is the head. */
  lemma {:induction false} WholeRecordsHit(mem: seq<byte>, page: nat, rs: seq<Record>, t: nat, h: nat, k: nat)
    requires PageSize(page) && page > 0 && |mem| == 8 * page && t <= h && t % 8 == 0
    requires Parse(Unroll(mem, t, h)) == Some(rs) && k <= |rs|
    ensures AtBoundary(mem, rs, t, h, k, PositionAfter(mem, page, t, k))
    ensures k == |rs| ==> PositionAfter(mem, page, t, k) == h
  {
    hide *;
    if k == 0 {
      StartPosition(mem, page, t);
      FirstBoundary(mem, rs, t, h);
    } else {
      WholeRecordsHit(mem, page, rs, t, h, k - 1);
      PositionStep(mem, page, t, k - 1);
      NextBoundary(mem, page, rs, t, h, k - 1, PositionAfter(mem, page, t, k - 1));
    }
    if k == |rs| {
      LastBoundary(mem, rs, t, h, PositionAfter(mem, page, t, k));
    }
  }

  lemma MoreBoundaries(mem: seq<byte>, rs: seq<Record>, t: nat, h: nat, k: nat, p: nat)
    requires AtBoundary(mem, rs, t, h, k, p) && k < |rs|
    ensures t <= p < h
  {
    assert rs[k..] != [];
    hide TotalSize, Unroll, Parse;
    MoreToRead(mem, rs[k..], p, h);
  }

  /** With no more than the area unread, the registers meet after exactly as many rounds as
      there are records: the loop stops there, and not before. */
  lemma StopsAfterEveryRecord(mem: seq<byte>, page: nat, rs: seq<Record>, t: nat, h: nat, k: nat)
    requires PageSize(page) && page > 0 && |mem| == 8 * page && t <= h <= t + |mem| && t % 8 == 0
    requires Parse(Unroll(mem, t, h)) == Some(rs) && k <= |rs|
    ensures TailAfter(mem, page, Reg(t), k) == Reg(h) <==> k == |rs|
  {
    hide *;
    var p := PositionAfter(mem, page, t, k);
    RegOffset(page, t);
    WholeRecordsHit(mem, page, rs, t, h, k);
    TailIsRegister(mem, page, t, k);
    if k < |rs| {
      MoreBoundaries(mem, rs, t, h, k, p);
      RegInjective(p, h);
    }
  }
}

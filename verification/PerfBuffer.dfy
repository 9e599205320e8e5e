/** The mapped perf buffer and the program's drain of it. */
module PerfBuffer {
  import opened Bytes
  import opened Modular
  import opened Records
  import opened Ring
  import opened RingDrain
  import opened Seqs
  import opened Wrappers

  // ---------- What the bytes in the area say about the next record ----------

  /** The area `mem` holds the header of `r` at offset `off`. */
  ghost predicate HeaderAt(mem: seq<byte>, off: nat, r: Record) {
    && off % 8 == 0 && off + 8 <= |mem|
    && Le(mem[off..off + 4]) == r.typ && Le(mem[off + 6..off + 8]) == r.Size()
  }

  /** It holds the header and those of the payload words that lie before its end. */
  ghost predicate RecordAt(mem: seq<byte>, off: nat, r: Record) {
    && HeaderAt(mem, off, r)
    && forall j :: 0 <= j < |r.payload| / 8 && off + 8 + 8 * j + 8 <= |mem| ==>
         Le(mem[off + 8 + 8 * j..off + 8 + 8 * j + 8]) == Words(r.payload)[j]
  }

  lemma HeaderAtFields(mem: seq<byte>, off: nat, r: Record)
    requires HeaderAt(mem, off, r)
    ensures off % 8 == 0 && off + 8 <= |mem|
    ensures Le(mem[off..off + 4]) == r.typ && Le(mem[off + 6..off + 8]) == r.Size()
  {
  }

  // ---------- The words after a header ----------

  /** The words that lie wholly between a header and the end of the area, read in place. */
  lemma WordAfter(mem: seq<byte>, off: nat, j: nat)
    requires off + 8 + 8 * j + 8 <= |mem|
    ensures j < |WordsAfter(mem, off)|
    ensures WordsAfter(mem, off)[j] == Le(mem[off + 8 + 8 * j..off + 8 + 8 * j + 8])
  {
    hide Le;
    WordAt(mem[off + 8..], j);
    assert mem[off + 8..][8 * j..8 * j + 8] == mem[off + 8 + 8 * j..off + 8 + 8 * j + 8];
  }

  lemma WordsToTheEnd(mem: seq<byte>, off: nat, j: nat)
    requires off + 8 <= |mem|
    ensures j < |WordsAfter(mem, off)| <==> off + 8 + 8 * j + 8 <= |mem|
  {
  }

  /** The callchain loop leaves the area exactly if the size, or the entries that the size
      announces, reach past its end. */
  lemma OverrunsExactly(mem: seq<byte>, off: nat)
    requires off + 8 <= |mem|
    ensures Overruns(WordsAfter(mem, off)) <==>
      off + 16 > |mem| || off + 16 + 8 * Le(mem[off + 8..off + 16]) > |mem|
  {
    WordsToTheEnd(mem, off, 0);
    if off + 16 <= |mem| {
      WordAfter(mem, off, 0);
      hide WordsAfter, Le;
      assert mem[off + 8 + 8 * 0..off + 8 + 8 * 0 + 8] == mem[off + 8..off + 16];
      WordsToTheEnd(mem, off, Le(mem[off + 8..off + 16]));
    }
  }

  /** For a record of type 9 that is where a drain of the bytes leaves the area; for another
      type it nowhere does. */
  lemma FaultsExactly(mem: seq<byte>, r: Record, off: nat)
    requires off + 8 <= |mem|
    ensures ByBytes(mem).Faults(r, off) <==>
      r.typ == 9 && (off + 16 > |mem| || off + 16 + 8 * Le(mem[off + 8..off + 16]) > |mem|)
  {
    hide Overruns, WordsAfter, Le;
    OverrunsExactly(mem, off);
  }

  /** What the callchain loop has printed of `words` once it is at word `i`. */
  function LinesUpTo(words: seq<nat>, i: nat): seq<Line>
    requires 1 <= i <= |words|
  {
    [SizeLine(words[0])] + EntryLines(words[1..i])
  }

  lemma LinesUpToGrow(words: seq<nat>, i: nat)
    requires 1 <= i < |words|
    ensures LinesUpTo(words, i + 1) == LinesUpTo(words, i) + [EntryLine(i, words[i])]
  {
  }

  /** At the end of the area, or of the entries announced, everything is printed. */
  lemma LinesUpToEnd(words: seq<nat>, i: nat)
    requires 1 <= i <= |words| && i <= words[0] + 1
    ensures Overruns(words) && i == |words| ==> LinesUpTo(words, i) == ChainLines(words)
    ensures i == words[0] + 1 ==> !Overruns(words) && LinesUpTo(words, i) == ChainLines(words)
  {
  }

  /** A callchain sample's payload words, as far as they lie in the area, begin the words
      after its header. */
  lemma PayloadFirst(mem: seq<byte>, off: nat, r: Record, j: nat)
    requires RecordAt(mem, off, r) && j < |WordsAfter(mem, off)| && j < |r.payload| / 8
    ensures WordsAfter(mem, off)[j] == Words(r.payload)[j]
  {
    WordsToTheEnd(mem, off, j);
    WordAfter(mem, off, j);
    hide WordsAfter, Words, Le;
  }

  /** The first payload word of a sample that fits is the size of its callchain. */
  lemma SampleWords(mem: seq<byte>, off: nat, r: Record)
    requires r.Valid() && r.Chained() && r.IsSample() && RecordAt(mem, off, r)
    ensures off % 8 == 0 && off + 8 <= |mem|
    ensures off + 16 <= |mem| ==> Le(mem[off + 8..off + 16]) == |r.Chain()|
  {
    if off + 16 <= |mem| {
      assert mem[off + 8..off + 16] == mem[off + 8 + 8 * 0..off + 8 + 8 * 0 + 8];
      WordAt(r.payload, 0);
    }
  }

  /** The later ones are its entries. */
  lemma SampleWord(mem: seq<byte>, off: nat, r: Record, i: nat)
    requires r.Valid() && r.Chained() && r.IsSample() && RecordAt(mem, off, r)
    requires 1 <= i <= |r.Chain()| && off + 8 + 8 * i + 8 <= |mem|
    ensures Le(mem[off + 8 + 8 * i..off + 8 + 8 * i + 8]) == r.Chain()[i - 1]
  {
  }

  lemma FirstLine(r: Record)
    ensures LinesBefore(r, 1) == [SizeLine(|r.Chain()|)]
  {
  }

  // ---------- The record at the tail ----------

  lemma PayloadWord(ring: seq<byte>, t: nat, h: nat, r: Record, j: nat)
    requires |ring| > 0 && t < h && r.Valid()
    requires r.Size() <= h - t && Unroll(ring, t, h)[8..r.Size()] == r.payload
    requires j < |r.payload| / 8 && Offset(t, |ring|) + 8 + 8 * j + 8 <= |ring|
    ensures Le(ring[Offset(t, |ring|) + 8 + 8 * j..Offset(t, |ring|) + 8 + 8 * j + 8]) == Words(r.payload)[j]
  {
    var from := 8 + 8 * j;
    hide Offset, Unroll, Le;
    ContiguousRead(ring, t, h, from, from + 8);
    SliceOfSlice(Unroll(ring, t, h), 8, r.Size(), 8 * j, 8 * j + 8);
    WordAt(r.payload, j);
  }

  lemma FirstRecordAt(ring: seq<byte>, t: nat, h: nat)
    requires Area(|ring|) && t < h && t % 8 == 0
    requires ParseOne(Unroll(ring, t, h)).Some?
    ensures RecordAt(ring, Offset(t, |ring|), ParseOne(Unroll(ring, t, h)).value)
  {
    hide Offset, Unroll, Words, Le;
    var r := ParseOne(Unroll(ring, t, h)).value;
    HeaderFits(t, |ring|);
    ContiguousRead(ring, t, h, 0, 4);
    ContiguousRead(ring, t, h, 6, 8);
    forall j | 0 <= j < |r.payload| / 8 && Offset(t, |ring|) + 8 + 8 * j + 8 <= |ring|
      ensures Le(ring[Offset(t, |ring|) + 8 + 8 * j..Offset(t, |ring|) + 8 + 8 * j + 8]) == Words(r.payload)[j]
    {
      PayloadWord(ring, t, h, r, j);
    }
  }

  /** If the unread stream parses, its first record lies at the tail's offset and the
      rest of the stream parses from the position that record's size leads to. */
  lemma NextRecord(ring: seq<byte>, t: nat, h: nat)
    requires Area(|ring|) && t < h && t % 8 == 0
    requires Parse(Unroll(ring, t, h)).Some?
    ensures var rs := Parse(Unroll(ring, t, h)).value;
      && |rs| > 0 && t + rs[0].Size() <= h
      && RecordAt(ring, Offset(t, |ring|), rs[0])
      && Parse(Unroll(ring, t + rs[0].Size(), h)) == Some(rs[1..])
  {
    hide Offset, RecordAt, ParseOne;
    var s := Unroll(ring, t, h);
    var r := ParseOne(s).value;
    UnrollSplit(ring, t, t + r.Size(), h);
    FirstRecordAt(ring, t, h);
    assert Parse(s).value[1..] == Parse(s[r.Size()..]).value;
  }

  lemma MoreToRead(mem: seq<byte>, rest: seq<Record>, p: nat, h: nat)
    requires |mem| > 0 && p <= h && Parse(Unroll(mem, p, h)) == Some(rest) && rest != []
    ensures p < h && rest[0].Valid()
  {
    var s := Unroll(mem, p, h);
    hide Unroll, ParseOne, Record.Valid;
    assert Parse([]) == Some([]);
    assert s != [];
    assert AllValid(rest);
  }

  lemma {:induction false} HeadersAppend(rs: seq<Record>, r: Record, pos: nat, n: nat)
    requires n > 0
    ensures Headers(rs + [r], pos, n)
         == Headers(rs, pos, n) + [Header(Offset(pos + TotalSize(rs), n), r.typ, r.Size())]
  {
    if rs == [] {
      assert [] + [r] == [r];
    } else {
      HeadersAppend(rs[1..], r, pos + rs[0].Size(), n);
      assert (rs + [r])[1..] == rs[1..] + [r];
    }
  }

  /** One round of the loop on the specification side. */
  lemma DrainedRound(v: View, lines: seq<Line>, k: nat, r: Record, rs: seq<Record>, pos: nat)
    requires v.Size() > 0
    ensures var all := Then(Report(lines, k, false), Drained(v, [r] + rs, pos));
      var off := Offset(pos, v.Size());
      var more := lines + v.Lines(r, off);
      all == if v.Faults(r, off) then Report(more, k, true)
             else Then(Report(more, k + 1, false), Drained(v, rs, pos + r.Size()))
  {
    hide View.Lines, View.Faults, View.Size, Offset, Record.Size;
  }

  /** If the stream from `t` to the boundary `m` and the stream from there to `h` parse, so
      does the whole, and draining it is draining the one and then the other. */
  lemma DrainStreamInTwo(ring: seq<byte>, t: nat, m: nat, h: nat)
    requires |ring| > 0 && t <= m <= h
    requires Parse(Unroll(ring, t, m)).Some? && Parse(Unroll(ring, m, h)).Some?
    ensures
      var a, b := Parse(Unroll(ring, t, m)).value, Parse(Unroll(ring, m, h)).value;
      && Parse(Unroll(ring, t, h)) == Some(a + b) && m == t + TotalSize(a)
      && Drained(ByBytes(ring), a + b, t) == Then(Drained(ByBytes(ring), a, t), Drained(ByBytes(ring), b, m))
  {
    hide Unroll, Parse, Drained, Then, EncodeAll;
    var a, b := Parse(Unroll(ring, t, m)).value, Parse(Unroll(ring, m, h)).value;
    UnrollSplit(ring, t, m, h);
    ParseAppend(Unroll(ring, t, m), Unroll(ring, m, h));
    EncodeOfParsed(Unroll(ring, t, m));
    DrainInTwo(ByBytes(ring), a, b, t);
  }

  lemma NothingUnread(ring: seq<byte>, t: nat, b: seq<byte>)
    requires |ring| > 0
    ensures Unroll(ring, t, t) + b == b
  {
  }

  /** Records that fit an area can lie in it from any position, over the wrap or not: once
      their bytes are stored, the stream from there parses to them. */
  lemma StoredRecordsParse(ring: seq<byte>, t: nat, rs: seq<Record>)
    requires |ring| > 0 && AllValid(rs) && TotalSize(rs) <= |ring|
    ensures Parse(Unroll(Write(ring, t, EncodeAll(rs)), t, t + TotalSize(rs))) == Some(rs)
  {
    hide *;
    NothingUnread(ring, t, EncodeAll(rs));
    WriteAppends(ring, t, t, EncodeAll(rs));
    ParseOfEncoded(rs);
  }

  // ---------- Callchain samples ----------

  /** Words that agree with a callchain, as far as there are any, are printed as its. */
  lemma ChainPrefix(words: seq<nat>, chain: seq<nat>)
    requires chain != [] && chain[0] == |chain| - 1
    requires forall j :: 0 <= j < |words| && j < |chain| ==> words[j] == chain[j]
    ensures Overruns(words) <==> |words| < |chain|
    ensures ChainLines(words) == if words == [] then []
      else [SizeLine(|chain| - 1)] + EntryLines(if |words| < |chain| then chain[1..][..|words| - 1] else chain[1..])
  {
    if |words| >= |chain| {
      assert words[0] == chain[0];
      forall j | 0 <= j < |chain| - 1 ensures words[1..|chain|][j] == chain[1..][j] {
        assert words[j + 1] == chain[j + 1];
      }
      assert words[1..|chain|] == chain[1..];
    } else if words != [] {
      assert words[1..|words|] == chain[1..][..|words| - 1];
    }
  }

  lemma ChainWords(r: Record)
    requires r.Valid() && r.Chained() && r.IsSample()
    ensures var chain := Words(r.payload);
      chain != [] && chain[0] == |chain| - 1 && chain[1..] == r.Chain() && r.Size() == 8 + 8 * |chain|
  {
    WordAt(r.payload, 0);
  }

  /** A stored callchain sample is printed and cut as the record alone tells. */
  lemma ChainSeen(mem: seq<byte>, off: nat, r: Record)
    requires Area(|mem|) && r.Valid() && r.Chained() && RecordAt(mem, off, r)
    ensures ByBytes(mem).Lines(r, off) == ByRecord(|mem|).Lines(r, off)
    ensures ByBytes(mem).Faults(r, off) == ByRecord(|mem|).Faults(r, off)
  {
    if r.IsSample() {
      var words, chain := WordsAfter(mem, off), Words(r.payload);
      assert off % 8 == 0 && off + 8 <= |mem| && |words| == Room(off, |mem|);
      assert |chain| == |r.payload| / 8;
      hide WordsAfter, Words, Le, RecordAt, ChainLines, Overruns, Record.Chain, Record.Valid, Record.Chained,
           EntryLines;
      forall j | 0 <= j < |words| && j < |chain| ensures words[j] == chain[j] {
        PayloadFirst(mem, off, r, j);
      }
      ChainWords(r);
      ChainPrefix(words, chain);
    }
  }

  /** From every boundary of a stream the records left parse. */
  lemma {:induction false} ParsesFrom(mem: seq<byte>, rs: seq<Record>, t: nat, h: nat, k: nat)
    requires Area(|mem|) && t <= h && t % 8 == 0 && Parse(Unroll(mem, t, h)) == Some(rs) && k <= |rs|
    ensures var p := t + TotalSize(rs[..k]);
      p <= h && p % 8 == 0 && Parse(Unroll(mem, p, h)) == Some(rs[k..])
    decreases k
  {
    hide Parse, Unroll, Offset, RecordAt, AllValid, Record.Valid, Record.Size;
    if k == 0 {
      assert TotalSize(rs[..0]) == 0 && rs[0..] == rs;
    } else {
      MoreToRead(mem, rs, t, h);
      NextRecord(mem, t, h);
      RecordAligned(rs[0], t);
      ParsesFrom(mem, rs[1..], t + rs[0].Size(), h, k - 1);
      assert rs[..k][1..] == rs[1..][..k - 1] && rs[1..][k - 1..] == rs[k..];
    }
  }

  /** Every record of a stream lies in the area at its boundary. */
  lemma StoredAt(mem: seq<byte>, rs: seq<Record>, t: nat, h: nat, k: nat)
    requires Area(|mem|) && t <= h && t % 8 == 0 && Parse(Unroll(mem, t, h)) == Some(rs) && k < |rs|
    ensures RecordAt(mem, OffsetOf(rs, t, |mem|, k), rs[k])
  {
    hide Parse, Unroll, Offset, RecordAt, AllValid, Record.Valid, Record.Size, TotalSize;
    var p := t + TotalSize(rs[..k]);
    ParsesFrom(mem, rs, t, h, k);
    MoreToRead(mem, rs[k..], p, h);
    NextRecord(mem, p, h);
  }

  /** If every sample in the area is a callchain sample, what the drain makes of the bytes
      is what the records alone tell. */
  lemma ChainsInBytes(mem: seq<byte>, rs: seq<Record>, t: nat, h: nat)
    requires Area(|mem|) && t <= h && t % 8 == 0 && Parse(Unroll(mem, t, h)) == Some(rs) && AllChained(rs)
    ensures Drained(ByBytes(mem), rs, t) == Drained(ByRecord(|mem|), rs, t)
  {
    assert AllValid(rs);
    hide Parse, Unroll, OffsetOf, View.Lines, View.Faults, Record.Valid, Record.Chained, Drained, RecordAt;
    forall k | 0 <= k < |rs|
      ensures var off := OffsetOf(rs, t, |mem|, k);
        && ByBytes(mem).Lines(rs[k], off) == ByRecord(|mem|).Lines(rs[k], off)
        && ByBytes(mem).Faults(rs[k], off) == ByRecord(|mem|).Faults(rs[k], off)
    {
      StoredAt(mem, rs, t, h, k);
      ChainSeen(mem, OffsetOf(rs, t, |mem|, k), rs[k]);
    }
    SameDrain(ByBytes(mem), ByRecord(|mem|), rs, t);
  }

  /** So over callchain samples the bytes are drained without a fault exactly when none is
      cut by the end of the area, and then the printout reads back as their callchains. */
  lemma ChainsPrinted(mem: seq<byte>, rs: seq<Record>, t: nat, h: nat)
    requires Area(|mem|) && t <= h && t % 8 == 0 && Parse(Unroll(mem, t, h)) == Some(rs) && AllChained(rs)
    ensures var d := Drained(ByBytes(mem), rs, t);
      && (d.fault <==> exists k :: 0 <= k < |rs| && CutAt(rs, t, |mem|, k))
      && (!d.fault ==> d.passed == |rs| && ReadBack(d.lines) == Some(Chains(rs)))
  {
    assert AllValid(rs);
    hide *;
    ChainsInBytes(mem, rs, t, h);
    DrainCompletes(rs, t, |mem|);
  }

  /** A sample record whose callchain is the one entry `ip`. */
  function OneEntrySample(ip: nat): (r: Record)
    requires ip < TWO_64
    ensures r.Valid() && r.Size() == 24
  {
    Record(PERF_RECORD_SAMPLE, 0, LeBytes(1, 8) + LeBytes(ip, 8))
  }

  lemma OneEntryChained(ip: nat)
    requires ip < TWO_64
    ensures OneEntrySample(ip).Chained() && OneEntrySample(ip).Chain() == [ip]
  {
    assert Pow256(8) == TWO_64;
    hide Pow256, Le, LeBytes, Words;
    LeOfBytes(1, 8);
    LeOfBytes(ip, 8);
    TwoWords(LeBytes(1, 8), LeBytes(ip, 8));
  }

  lemma TwoWords(a: seq<byte>, b: seq<byte>)
    requires |a| == 8 && |b| == 8
    ensures Le((a + b)[..8]) == Le(a) && Words(a + b)[1..] == [Le(b)]
  {
    hide Le, Words;
    assert (a + b)[..8] == a;
    assert (a + b)[8 * 1..8 * 1 + 8] == b;
    WordAt(a + b, 1);
  }

  lemma CutBeforeEntry(r: Record, t: nat, n: nat)
    requires r.IsSample() && |r.payload| == 16 && t + 16 == n
    ensures CutAt([r], t, n, 0) && Drained(ByRecord(n), [r], t) == Report([SizeLine(1)], 0, true)
  {
    FirstOffset([r], t, n);
    assert Offset(t, n) == t;
    assert EntryLines(r.Chain()[..0]) == [];
    assert RecordLines(r, t, n) == [SizeLine(1)];
  }

  lemma StoredChains(ring: seq<byte>, t: nat, rs: seq<Record>)
    requires Area(|ring|) && t % 8 == 0 && AllValid(rs) && AllChained(rs) && TotalSize(rs) <= |ring|
    ensures
      var stored := Write(ring, t, EncodeAll(rs));
      && Parse(Unroll(stored, t, t + TotalSize(rs))) == Some(rs)
      && Drained(ByBytes(stored), rs, t) == Drained(ByRecord(|ring|), rs, t)
  {
    hide Parse, Unroll, Write, EncodeAll, AllValid, AllChained, TotalSize, Drained;
    StoredRecordsParse(ring, t, rs);
    ChainsInBytes(Write(ring, t, EncodeAll(rs)), rs, t, t + TotalSize(rs));
  }

  lemma OneSample(r: Record)
    requires r.Valid() && r.Chained() && r.IsSample()
    ensures AllValid([r]) && AllChained([r]) && Chains([r]) == [r.Chain()]
  {
    assert [r][1..] == [];
  }

  lemma StoredOne(ring: seq<byte>, r: Record, t: nat)
    requires Area(|ring|) && |ring| >= 24 && t % 8 == 0
    requires r.Valid() && r.Chained() && r.IsSample() && |r.payload| == 16
    ensures
      var stored := Write(ring, t, EncodeAll([r]));
      && Parse(Unroll(stored, t, t + 24)) == Some([r]) && Chains([r]) == [r.Chain()]
      && Drained(ByBytes(stored), [r], t) == Drained(ByRecord(|ring|), [r], t)
  {
    assert r.Size() == 24;
    hide *;
    OneSample(r);
    TotalSizeOne(r);
    StoredChains(ring, t, [r]);
  }

  /** Stored 16 bytes before the end of an area, a callchain sample of one entry is cut: its
      size is printed, and the read of its entry leaves the area. */
  lemma CutSampleFails(ring: seq<byte>, r: Record, t: nat)
    requires Area(|ring|) && |ring| >= 24 && t + 16 == |ring|
    requires r.Valid() && r.Chained() && r.IsSample() && |r.payload| == 16
    ensures
      var stored := Write(ring, t, EncodeAll([r]));
      && Parse(Unroll(stored, t, t + 24)) == Some([r]) && CutAt([r], t, |ring|, 0)
      && Drained(ByBytes(stored), [r], t) == Report([SizeLine(1)], 0, true)
      && Chains([r]) == [r.Chain()]
  {
    assert t % 8 == 0;
    hide *;
    CutBeforeEntry(r, t, |ring|);
    StoredOne(ring, r, t);
  }

  // ---------- A drain of given bytes ----------

  /** The 24 bytes of a record of type `k`, misc 2, whose payload is the words 1 and 0x1234. */
  function GivenBytes(k: byte): seq<byte> {
    [k, 0, 0, 0, 2, 0, 24, 0, 1, 0, 0, 0, 0, 0, 0, 0, 0x34, 0x12, 0, 0, 0, 0, 0, 0]
  }

  /** The fields that the parser and the loop read off those bytes. */
  lemma GivenFields(s: seq<byte>, k: byte)
    requires s == GivenBytes(k)
    ensures Le(s[..4]) == k && Le(s[4..6]) == 2 && Le(s[6..8]) == 24
    ensures Le(s[8..16]) == 1 && Le(s[16..24]) == 0x1234
  {
    hide Le;
    assert s[0] == k && s[1] == 0 && s[2] == 0 && s[3] == 0;
    LeShort(s[..4]);
    LeShort(s[4..6]);
    LeShort(s[6..8]);
    LeShort(s[8..16]);
    LeShort(s[16..24]);
  }

  lemma GivenParses(s: seq<byte>, k: byte)
    requires s == GivenBytes(k)
    ensures Parse(s) == Some([Record(k, 2, s[8..])])
  {
    GivenFields(s, k);
    assert |s| == 24;
    hide GivenBytes;
    ParseSingle(s, Record(k, 2, s[8..]));
  }

  /** A stream that is one record with the fields its header says. */
  lemma ParseSingle(s: seq<byte>, r: Record)
    requires |s| >= 8 && r.Valid() && r.Size() == |s|
    requires Le(s[..4]) == r.typ && Le(s[4..6]) == r.misc && Le(s[6..8]) == r.Size() && s[8..] == r.payload
    ensures Parse(s) == Some([r])
  {
    assert s[8..|s|] == s[8..];
    assert ParseOne(s) == Some(r);
    hide ParseOne, Record.Valid;
    assert s[|s|..] == [];
    assert Parse([]) == Some([]);
    assert [r] + [] == [r];
  }

  lemma GivenWords(mem: seq<byte>, off: nat, k: byte)
    requires off + 24 <= |mem| && mem[off..off + 24] == GivenBytes(k)
    ensures |WordsAfter(mem, off)| >= 2 && WordsAfter(mem, off)[0] == 1 && WordsAfter(mem, off)[1] == 0x1234
  {
    GivenFields(mem[off..off + 24], k);
    hide Le, GivenBytes, WordsAfter;
    SliceOfSlice(mem, off, off + 24, 8, 16);
    SliceOfSlice(mem, off, off + 24, 16, 24);
    WordAfter(mem, off, 0);
    WordAfter(mem, off, 1);
    assert mem[off + 8 + 8 * 0..off + 8 + 8 * 0 + 8] == mem[off + 8..off + 16];
    assert mem[off + 8 + 8 * 1..off + 8 + 8 * 1 + 8] == mem[off + 16..off + 24];
  }

  lemma GivenLines(words: seq<nat>)
    requires |words| >= 2 && words[0] == 1 && words[1] == 0x1234
    ensures !Overruns(words) && ChainLines(words) == [SizeLine(1), EntryLine(1, 0x1234)]
    ensures ReadBack([SizeLine(1), EntryLine(1, 0x1234)]) == Some([[0x1234]])
  {
    ChainLineAt(words, 1);
    hide ChainLines;
    assert ChainLines(words) == [SizeLine(1), EntryLine(1, 0x1234)];
    GivenReadBack([SizeLine(1), EntryLine(1, 0x1234)], 0x1234);
  }

  lemma GivenReadBack(lines: seq<Line>, ip: nat)
    requires lines == [SizeLine(1), EntryLine(1, ip)]
    ensures ReadBack(lines) == Some([[ip]])
  {
    assert lines[1..1 + 1] == [EntryLine(1, ip)];
    assert EntryLines([ip]) == [EntryLine(1, ip)];
    assert Ips(lines[1..2]) == [ip];
    assert lines[2..] == [];
    assert ReadBack([]) == Some([]);
    assert [[ip]] + [] == [[ip]];
  }

  /** Wherever in an area the 24 bytes lie unread and unsplit, the stream parses to one record
      of 24 bytes whose header is met there.  The drain passes it; it prints a chain of one
      entry, 0x1234, if the type is 9, that of a sample, and otherwise nothing. */
  lemma GivenDrain(mem: seq<byte>, t: nat, k: byte)
    requires Area(|mem|) && t % 8 == 0 && t % |mem| + 24 <= |mem|
    requires mem[t % |mem|..t % |mem| + 24]
      == [k, 0, 0, 0, 2, 0, 24, 0, 1, 0, 0, 0, 0, 0, 0, 0, 0x34, 0x12, 0, 0, 0, 0, 0, 0]
    ensures
      var rs := Parse(Unroll(mem, t, t + 24));
      && rs.Some? && Headers(rs.value, t, |mem|) == [Header(t % |mem|, k, 24)]
      && Drained(ByBytes(mem), rs.value, t)
         == Report(if k == 9 then [SizeLine(1), EntryLine(1, 0x1234)] else [], 1, false)
    ensures ReadBack([SizeLine(1), EntryLine(1, 0x1234)]) == Some([[0x1234]])
  {
    var off := t % |mem|;
    var given := mem[off..off + 24];
    assert given == GivenBytes(k);
    hide *;
    GivenParses(given, k);
    GivenWords(mem, off, k);
    GivenLines(WordsAfter(mem, off));
    SampleOrNot(k, given[8..]);
    OneRecordDrain(mem, t, given, Record(k, 2, given[8..]));
  }

  lemma SampleOrNot(k: byte, payload: seq<byte>)
    requires |payload| == 16
    ensures var r := Record(k, 2, payload);
      r.Size() == 24 && (r.IsSample() <==> k == 9) && r.typ == k
  {
  }

  lemma OneRecordDrain(mem: seq<byte>, t: nat, given: seq<byte>, r: Record)
    requires |mem| > 0 && t % |mem| + 24 <= |mem| && |given| == 24 && Parse(given) == Some([r])
    requires mem[t % |mem|..t % |mem| + 24] == given
    requires !Overruns(WordsAfter(mem, t % |mem|))
    ensures Parse(Unroll(mem, t, t + 24)) == Some([r])
    ensures Headers([r], t, |mem|) == [Header(t % |mem|, r.typ, r.Size())]
    ensures Drained(ByBytes(mem), [r], t)
      == Report(if r.IsSample() then ChainLines(WordsAfter(mem, t % |mem|)) else [], 1, false)
  {
    assert Offset(t, |mem|) == t % |mem|;
    hide *;
    ContiguousRead(mem, t, t + 24, 0, 24);
    assert Unroll(mem, t, t + 24)[0..24] == Unroll(mem, t, t + 24);
    DrainedOne(mem, r, t);
    OneHeader(r, t, |mem|);
  }

  lemma DrainedOne(mem: seq<byte>, r: Record, t: nat)
    requires |mem| > 0
    ensures !(r.IsSample() && Overruns(WordsAfter(mem, Offset(t, |mem|)))) ==>
      Drained(ByBytes(mem), [r], t)
        == Report(if r.IsSample() then ChainLines(WordsAfter(mem, Offset(t, |mem|))) else [], 1, false)
  {
    DrainedCons(ByBytes(mem), r, [], t);
    hide Drained, Overruns, WordsAfter, ChainLines, Offset;
  }

  lemma OneHeader(r: Record, t: nat, n: nat)
    requires n > 0
    ensures Headers([r], t, n) == [Header(t % n, r.typ, r.Size())]
  {
    HeaderOf([r], t, n, 0);
    assert TotalSize([r][..0]) == 0;
    hide Headers, TotalSize;
  }

  // ---------- The loop, round by round ----------

  /** After `k` rounds of a drain of `rs` from `start`: the tail is at record `k`, the
      stream left parses to the records left, and what was printed so far followed by a
      drain of those is the whole drain. */
  ghost predicate AfterRounds(mem: seq<byte>, rs: seq<Record>, start: nat, head: nat,
                              k: nat, tail: nat, lines: seq<Line>, headers: seq<Header>)
    requires |mem| > 0
  {
    && k <= |rs| && start % 8 == 0 && AllValid(rs)
    && tail == start + TotalSize(rs[..k]) && tail <= head && tail % 8 == 0
    && Parse(Unroll(mem, tail, head)) == Some(rs[k..])
    && headers == Headers(rs[..k], start, |mem|)
    && Drained(ByBytes(mem), rs, start) == Then(Report(lines, k, false), Drained(ByBytes(mem), rs[k..], tail))
  }

  lemma BeforeFirstRound(mem: seq<byte>, rs: seq<Record>, start: nat, head: nat)
    requires |mem| > 0 && start <= head && start % 8 == 0
    requires Parse(Unroll(mem, start, head)) == Some(rs)
    ensures AfterRounds(mem, rs, start, head, 0, start, [], [])
  {
    hide Offset, Drained;
    assert rs[0..] == rs && rs[..0] == [];
    assert [] + Drained(ByBytes(mem), rs, start).lines == Drained(ByBytes(mem), rs, start).lines;
  }

  lemma OneRound(mem: seq<byte>, rs: seq<Record>, start: nat, head: nat,
                 k: nat, tail: nat, lines: seq<Line>, headers: seq<Header>)
    requires Area(|mem|) && tail < head
    requires AfterRounds(mem, rs, start, head, k, tail, lines, headers)
    ensures k < |rs| && rs[k].Valid() && HeaderAt(mem, Offset(tail, |mem|), rs[k]) && tail + rs[k].Size() <= head
    ensures
      var v, off, r := ByBytes(mem), Offset(tail, |mem|), rs[k];
      var lines', headers' := lines + v.Lines(r, off), headers + [Header(off, r.typ, r.Size())];
      if v.Faults(r, off)
      then Drained(v, rs, start) == Report(lines', k, true) && headers' == Headers(rs[..k + 1], start, |mem|)
      else AfterRounds(mem, rs, start, head, k + 1, tail + r.Size(), lines', headers')
  {
    hide Offset, HeaderAt, Drained, View.Lines, View.Faults, Unroll, Parse, Headers, AllValid, TotalSize,
         Record.Valid, Record.Size;
    NextAt(mem, rs, tail, head, k);
    AtRecord(rs, k, start, |mem|);
    DrainedRound(ByBytes(mem), lines, k, rs[k], rs[k + 1..], tail);
  }

  /** The record at index `k` lies at the tail, and those after it follow. */
  lemma NextAt(mem: seq<byte>, rs: seq<Record>, tail: nat, head: nat, k: nat)
    requires Area(|mem|) && tail < head && tail % 8 == 0 && k <= |rs|
    requires Parse(Unroll(mem, tail, head)) == Some(rs[k..])
    ensures k < |rs| && rs[k].Valid() && HeaderAt(mem, Offset(tail, |mem|), rs[k])
    ensures tail + rs[k].Size() <= head && (tail + rs[k].Size()) % 8 == 0
    ensures Parse(Unroll(mem, tail + rs[k].Size(), head)) == Some(rs[k + 1..])
  {
    hide Offset, HeaderAt, Unroll, Parse, Record.Valid, Record.Size;
    NextRecord(mem, tail, head);
    assert rs[k..][0] == rs[k] && rs[k..][1..] == rs[k + 1..];
    MoreToRead(mem, rs[k..], tail, head);
    RecordAligned(rs[k], tail);
  }

  /** The records and their headers split at index `k`. */
  lemma AtRecord(rs: seq<Record>, k: nat, start: nat, n: nat)
    requires k < |rs| && n > 0
    ensures rs[k..] == [rs[k]] + rs[k + 1..] && rs[k..][1..] == rs[k + 1..]
    ensures TotalSize(rs[..k + 1]) == TotalSize(rs[..k]) + rs[k].Size()
    ensures Headers(rs[..k + 1], start, n) == Headers(rs[..k], start, n)
      + [Header(Offset(start + TotalSize(rs[..k]), n), rs[k].typ, rs[k].Size())]
  {
    assert rs[..k + 1] == rs[..k] + [rs[k]];
    hide Headers, Offset, TotalSize, Record.Size;
    HeadersAppend(rs[..k], rs[k], start, n);
    TotalSizeAppend(rs[..k], [rs[k]]);
    TotalSizeOne(rs[k]);
  }

  lemma RecordAligned(r: Record, pos: nat)
    requires r.Valid() && pos % 8 == 0
    ensures (pos + r.Size()) % 8 == 0
  {
  }

  lemma TotalSizeOne(r: Record)
    ensures TotalSize([r]) == r.Size()
  {
  }

  lemma RoundsLeave(mem: seq<byte>, rs: seq<Record>, start: nat, head: nat,
                    k: nat, tail: nat, lines: seq<Line>, headers: seq<Header>)
    requires |mem| > 0 && AfterRounds(mem, rs, start, head, k, tail, lines, headers)
    ensures k <= |rs| && tail == start + TotalSize(rs[..k]) && start <= tail <= head && tail % 8 == 0
    ensures Parse(Unroll(mem, tail, head)) == Some(rs[k..])
  {
  }

  lemma NothingLeft(mem: seq<byte>, rest: seq<Record>, head: nat)
    requires |mem| > 0 && Parse(Unroll(mem, head, head)) == Some(rest)
    ensures rest == [] && forall pos :: Drained(ByBytes(mem), rest, pos) == Report([], 0, false)
  {
    assert Unroll(mem, head, head) == [];
  }

  /** Draining the records from the bytes reports `d`. */
  ghost predicate Drains(mem: seq<byte>, rs: seq<Record>, start: nat, d: Report) {
    |mem| > 0 && Drained(ByBytes(mem), rs, start) == d
  }

  lemma AfterLastRound(mem: seq<byte>, rs: seq<Record>, start: nat, head: nat,
                       k: nat, lines: seq<Line>, headers: seq<Header>)
    requires |mem| > 0 && AfterRounds(mem, rs, start, head, k, head, lines, headers)
    ensures k == |rs| && headers == Headers(rs, start, |mem|)
    ensures Drains(mem, rs, start, Report(lines, |rs|, false))
  {
    hide Drained, Unroll, Parse, Headers, Offset, View.Lines, View.Faults, AllValid, TotalSize;
    NothingLeft(mem, rs[k..], head);
    assert rs[..k] == rs;
    assert lines + [] == lines;
  }

  // ---------- The buffer ----------

  class PerfBuffer {
    const pageSize: nat
    /** The eight data pages that follow the control page. */
    const data: array<byte>
    /** data_head and data_tail of the control page, 64 bits each. */
    var dataHead: nat
    var dataTail: nat

    /** The unbounded counters the two registers stand for. */
    ghost var head: nat
    ghost var tail: nat

    /** The kernel's side of the contract: the bytes between tail and head are whole
        records and no more than the area holds. */
    ghost predicate Valid()
      reads this, data
    {
      && PageSize(pageSize) && data.Length == 8 * pageSize
      && dataHead == Reg(head) && dataTail == Reg(tail)
      && tail <= head <= tail + data.Length && tail % 8 == 0
      && Area(data.Length)
      && Parse(Unroll(data[..], tail, head)).Some?
    }

    /** A mapped buffer in which the kernel has left the records `rs` from a position on. */
    constructor (pageSize: nat, start: nat, rs: seq<Record>)
      requires PageSize(pageSize) && start % 8 == 0 && AllValid(rs) && TotalSize(rs) <= 8 * pageSize
      ensures Valid() && Pending() == rs
      ensures this.pageSize == pageSize && tail == start && head == start + TotalSize(rs)
    {
      var n := 8 * pageSize;
      assert n > 0;
      var stored := Write(seq(n, _ => 0), start, EncodeAll(rs));
      assert Parse(Unroll(stored, start, start + TotalSize(rs))) == Some(rs) by {
        hide *;
        StoredRecordsParse(seq(n, _ => 0), start, rs);
      }
      this.pageSize := pageSize;
      data := new byte[n](i requires 0 <= i < |stored| => stored[i]);
      tail, head := start, start + TotalSize(rs);
      dataTail, dataHead := Reg(start), Reg(start + TotalSize(rs));
      new;
      hide *;
      hide Valid, Pending;
      assert data[..] == stored;
      Mapped(rs);
    }

    lemma Mapped(rs: seq<Record>)
      requires PageSize(pageSize) && data.Length == 8 * pageSize && data.Length > 0
      requires dataHead == Reg(head) && dataTail == Reg(tail)
      requires tail <= head <= tail + data.Length && tail % 8 == 0
      requires Parse(Unroll(data[..], tail, head)) == Some(rs)
      ensures Valid() && Pending() == rs
    {
      hide PageSize, Parse, Unroll, Reg;
    }

    /** The unread records, as the linear parser sees them. */
    ghost function Pending(): (rs: seq<Record>)
      requires Valid()
      reads this, data
      ensures AllValid(rs)
    {
      Parse(Unroll(data[..], tail, head)).value
    }

    /** The callchain loop for the sample header at offset `off`. */
    method PrintSample(off: nat) returns (lines: seq<Line>, fault: bool)
      requires off + 8 <= data.Length
      ensures lines == ChainLines(WordsAfter(data[..], off))
      ensures fault <==> Overruns(WordsAfter(data[..], off))
    {
      ghost var words := WordsAfter(data[..], off);
      assert words == [] ==> Overruns(words) && ChainLines(words) == [];
      hide WordsAfter, Overruns, ChainLines, Le;
      var sampleData := off + 8;
      WordsToTheEnd(data[..], off, 0);
      if sampleData + 8 > data.Length {
        return [], true;
      }
      WordAfter(data[..], off, 0);
      var callchainSize := Le(data[..][sampleData..sampleData + 8]);
      assert words[0] == callchainSize;
      lines := [SizeLine(callchainSize)];
      assert lines == LinesUpTo(words, 1);
      hide LinesUpTo;
      var i := 1;
      while i <= callchainSize
        invariant 1 <= i <= callchainSize + 1 && i <= |words|
        invariant lines == LinesUpTo(words, i)
      {
        WordsToTheEnd(data[..], off, i);
        if sampleData + 8 * i + 8 > data.Length {
          LinesUpToEnd(words, i);
          return lines, true;
        }
        WordAfter(data[..], off, i);
        var ip := Le(data[..][sampleData + 8 * i..sampleData + 8 * i + 8]);
        LinesUpToGrow(words, i);
        lines := lines + [EntryLine(i, ip)];
        i := i + 1;
      }
      LinesUpToEnd(words, i);
      fault := false;
    }

    /** The body of the drain loop for the record `r` at offset `event`: its callchain is
        printed if it is a sample, and its size read afterwards. */
    method HandleEvent(event: nat, ghost r: Record)
      returns (typ: nat, size: nat, lines: seq<Line>, fault: bool)
      requires HeaderAt(data[..], event, r)
      ensures typ == r.typ && (!fault ==> size == r.Size())
      ensures lines == ByBytes(data[..]).Lines(r, event)
      ensures fault == ByBytes(data[..]).Faults(r, event)
    {
      HeaderAtFields(data[..], event, r);
      hide HeaderAt, WordsAfter, ChainLines, Overruns, Le;
      size, lines, fault := 0, [], false;
      typ := Le(data[..][event..event + 4]);
      if typ == PERF_RECORD_SAMPLE {
        lines, fault := PrintSample(event);
        if fault {
          return;
        }
      }
      size := Le(data[..][event + 6..event + 8]);
    }

    /** A drain of `rs` that began at position `start` has done `k` rounds. */
    ghost predicate Midway(rs: seq<Record>, start: nat, k: nat, lines: seq<Line>, headers: seq<Header>)
      reads this, data
    {
      && PageSize(pageSize) && data.Length == 8 * pageSize && Area(data.Length)
      && dataTail == Reg(tail) && tail <= head <= tail + data.Length
      && AfterRounds(data[..], rs, start, head, k, tail, lines, headers)
    }

    lemma Begin()
      requires Valid()
      ensures Midway(Pending(), tail, 0, [], [])
    {
      BeforeFirstRound(data[..], Pending(), tail, head);
      hide AfterRounds, Parse, Unroll, PageSize;
    }

    lemma TailRegister(rs: seq<Record>, start: nat, k: nat, lines: seq<Line>, headers: seq<Header>)
      requires Midway(rs, start, k, lines, headers)
      ensures tail <= head && (Reg(head) == dataTail <==> head == tail)
      ensures data.Length > 0 && EventOffset(dataTail, pageSize) == Offset(tail, data.Length)
    {
      RegOffset(pageSize, tail);
      RegInjective(tail, head);
    }

    /** One round of the loop: the event at the tail is handled and the tail moved past it. */
    method ReadEvent(ghost rs: seq<Record>, ghost start: nat, ghost k: nat,
                     ghost before: seq<Line>, ghost headers: seq<Header>)
      returns (lines: seq<Line>, fault: bool, ghost header: Header)
      requires Midway(rs, start, k, before, headers) && tail < head
      modifies this`dataTail, this`tail
      ensures k < |rs|
      ensures fault ==> Midway(rs, start, k, before, headers) && tail == old(tail)
      ensures fault ==> Drained(ByBytes(data[..]), rs, start) == Report(before + lines, k, true)
      ensures fault ==> headers + [header] == Headers(rs[..k + 1], start, data.Length)
      ensures !fault ==> tail > old(tail) && Midway(rs, start, k + 1, before + lines, headers + [header])
    {
      hide AfterRounds, Reg, AddU64, EventOffset, Offset, HeaderAt, Drained, Headers, View.Lines, View.Faults,
           Record.Valid;
      TailRegister(rs, start, k, before, headers);
      OneRound(data[..], rs, start, head, k, tail, before, headers);
      ghost var r := rs[k];
      var event := EventOffset(dataTail, pageSize);
      var typ, size;
      typ, size, lines, fault := HandleEvent(event, r);
      header := Header(event, typ, r.Size());
      if !fault {
        RegAdd(tail, size);
        dataTail := AddU64(dataTail, size);
        tail := tail + size;
      }
    }

    /** What a drain of the records `rs` from position `start` has done: it printed and
        passed what the specification says and met those records' headers, each at its own
        boundary; the buffer holds the records not passed; and without a fault data_tail
        has reached data_head exactly. */
    ghost predicate DrainedFrom(rs: seq<Record>, start: nat, lines: seq<Line>, fault: bool, headers: seq<Header>)
      reads this, data
    {
      && Valid()
      && var d := Drained(ByBytes(data[..]), rs, start);
      && lines == d.lines && fault == d.fault
      && headers == Headers(if fault then rs[..d.passed + 1] else rs, start, data.Length)
      && tail == start + TotalSize(rs[..d.passed]) && Pending() == rs[d.passed..]
      && (!fault ==> tail == head && dataTail == dataHead)
    }

    lemma AllRead(rs: seq<Record>, start: nat, k: nat, lines: seq<Line>, headers: seq<Header>)
      requires Midway(rs, start, k, lines, headers) && dataHead == Reg(head) && head == tail
      ensures DrainedFrom(rs, start, lines, false, headers)
    {
      hide Drained, Headers, Unroll, Parse;
      RoundsLeave(data[..], rs, start, head, k, tail, lines, headers);
      AfterLastRound(data[..], rs, start, head, k, lines, headers);
    }

    lemma LeftArea(rs: seq<Record>, start: nat, k: nat, before: seq<Line>, lines: seq<Line>,
                   headers: seq<Header>, header: Header)
      requires Midway(rs, start, k, before, headers) && dataHead == Reg(head) && k < |rs|
      requires Drained(ByBytes(data[..]), rs, start) == Report(before + lines, k, true)
      requires headers + [header] == Headers(rs[..k + 1], start, data.Length)
      ensures DrainedFrom(rs, start, before + lines, true, headers + [header])
    {
      hide Drained, Headers, Unroll, Parse;
      RoundsLeave(data[..], rs, start, head, k, tail, before, headers);
    }

    lemma DrainedTells(rs: seq<Record>, start: nat, lines: seq<Line>, fault: bool, headers: seq<Header>)
      requires DrainedFrom(rs, start, lines, fault, headers)
      ensures Valid() && (!fault ==> dataTail == dataHead && Pending() == [])
      ensures AllChained(rs) && ChainsTold(rs, start) ==>
        && (fault <==> exists k :: 0 <= k < |rs| && CutAt(rs, start, data.Length, k))
        && (!fault ==> ReadBack(lines) == Some(Chains(rs)))
    {
      DrainedLast(rs, start);
      hide Drained, Headers, Unroll, Parse, CutAt, ReadBack, Chains, AllChained, PageSize, Reg;
    }

    lemma DrainedLast(rs: seq<Record>, start: nat)
      requires data.Length > 0
      ensures var d := Drained(ByBytes(data[..]), rs, start);
        !d.fault ==> rs[d.passed..] == []
    {
      DrainStopsAtFault(ByBytes(data[..]), rs, start);
      hide Drained, FaultsAt;
    }

    /** What a drain of callchain samples tells. */
    ghost predicate ChainsTold(rs: seq<Record>, start: nat)
      reads this, data
    {
      data.Length > 0 &&
      var d := Drained(ByBytes(data[..]), rs, start);
      && (d.fault <==> exists k :: 0 <= k < |rs| && CutAt(rs, start, data.Length, k))
      && (!d.fault ==> ReadBack(d.lines) == Some(Chains(rs)))
    }

    lemma BufferChains()
      requires Valid()
      ensures AllChained(Pending()) ==> ChainsTold(Pending(), tail)
    {
      if AllChained(Pending()) {
        ChainsPrinted(data[..], Pending(), tail, head);
        hide Drained, CutAt, ReadBack, Chains, AllChained, Unroll, Parse, PageSize, Reg;
      }
    }

    /** The drain.  It stops with data_tail exactly at data_head, unless a sample is cut
        by the end of the area, where its straight reads leave the mapped pages. */
    method Drain() returns (lines: seq<Line>, fault: bool, ghost headers: seq<Header>)
      requires Valid()
      modifies this`dataTail, this`tail
      ensures DrainedFrom(old(Pending()), old(tail), lines, fault, headers)
      ensures Valid() && (!fault ==> dataTail == dataHead && Pending() == [])
      ensures AllChained(old(Pending())) ==>
        && (fault <==> exists k :: 0 <= k < |old(Pending())| && CutAt(old(Pending()), old(tail), data.Length, k))
        && (!fault ==> ReadBack(lines) == Some(Chains(old(Pending()))))
    {
      ghost var rs, start, k := Pending(), tail, 0;
      Begin();
      BufferChains();
      assert dataHead == Reg(head);
      hide *;
      hide Midway, Valid, Pending, DrainedFrom;
      lines, fault, headers := [], false, [];
      var snapshot := dataHead;
      TailRegister(rs, start, k, lines, headers);
      while snapshot != dataTail
        invariant Midway(rs, start, k, lines, headers) && dataHead == Reg(head) == snapshot
        invariant snapshot == dataTail <==> head == tail
        decreases head - tail
      {
        var more;
        ghost var header;
        more, fault, header := ReadEvent(rs, start, k, lines, headers);
        if fault {
          LeftArea(rs, start, k, lines, more, headers, header);
          lines, headers := lines + more, headers + [header];
          DrainedTells(rs, start, lines, true, headers);
          return;
        }
        lines, headers, k := lines + more, headers + [header], k + 1;
        TailRegister(rs, start, k, lines, headers);
      }
      AllRead(rs, start, k, lines, headers);
      DrainedTells(rs, start, lines, false, headers);
    }
  }
}

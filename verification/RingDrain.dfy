/** The consumer loop over the perf data area, on the sequence of records it holds. */
module RingDrain {
  import opened Bytes
  import opened Modular
  import opened Records
  import opened Ring
  import opened Seqs
  import opened Wrappers

  /** One line printed for a sample: the callchain size, or its `i`-th entry. */
  datatype Line = SizeLine(nr: nat) | EntryLine(i: nat, ip: nat)

  /** A header as the loop meets it: where in the area, and its two fields. */
  datatype Header = Header(offset: nat, typ: nat, size: nat)

  /** What a drain leaves behind: the lines printed, the records passed, and whether a
      read left the data area. */
  datatype Report = Report(lines: seq<Line>, passed: nat, fault: bool)

  // ---------- What the callchain loop does for one record ----------

  function EntryLines(ips: seq<nat>): (ls: seq<Line>)
    ensures |ls| == |ips|
  {
    seq(|ips|, i requires 0 <= i < |ips| => EntryLine(i + 1, ips[i]))
  }

  /** The words from just after a header at `off` to the end of the area. */
  function WordsAfter(mem: seq<byte>, off: nat): seq<nat> {
    if off + 8 <= |mem| then Words(mem[off + 8..]) else []
  }

  /** The callchain loop needs more words than there are: none for the size it reads
      first, or fewer than that size says. */
  predicate Overruns(words: seq<nat>) {
    words == [] || |words| <= words[0]
  }

  /** What the callchain loop prints of those words. */
  function ChainLines(words: seq<nat>): seq<Line> {
    if words == [] then []
    else [SizeLine(words[0])] + EntryLines(words[1..if Overruns(words) then |words| else words[0] + 1])
  }

  /** The number of words between a header at `off` and the end of the area. */
  function Room(off: nat, n: nat): nat {
    if off + 8 <= n then (n - off - 8) / 8 else 0
  }

  /** The lines for a record that is not cut by the end of the area. */
  function WholeLines(r: Record): seq<Line> {
    if r.IsSample() then [SizeLine(|r.Chain()|)] + EntryLines(r.Chain()) else []
  }

  /** The lines for a record at `off`: a sample's size and as many of its entries as lie
      before the end of the area. */
  function RecordLines(r: Record, off: nat, n: nat): seq<Line> {
    if r.IsSample() && Room(off, n) <= |r.Chain()| then
      if Room(off, n) == 0 then [] else [SizeLine(|r.Chain()|)] + EntryLines(r.Chain()[..Room(off, n) - 1])
    else WholeLines(r)
  }

  /** A sample that runs past the end of the area. */
  predicate Cut(r: Record, off: nat, n: nat) {
    r.IsSample() && off + r.Size() > n
  }

  /** An area of whole words. */
  predicate Area(n: nat) {
    n > 0 && n % 8 == 0
  }

  /** How to tell what the loop body does for a record: from the record alone, in an area
      of `n` bytes, or from the bytes of the area, whatever the record's payload is. */
  datatype View = ByRecord(n: nat) | ByBytes(mem: seq<byte>) {

    function Size(): nat {
      match this
      case ByRecord(n) => n
      case ByBytes(mem) => |mem|
    }

    /** The lines printed for the record `r` at `off`. */
    function Lines(r: Record, off: nat): seq<Line> {
      match this
      case ByRecord(n) => RecordLines(r, off, n)
      case ByBytes(mem) => if r.IsSample() then ChainLines(WordsAfter(mem, off)) else []
    }

    /** Whether a read for it leaves the area. */
    predicate Faults(r: Record, off: nat) {
      match this
      case ByRecord(n) => Cut(r, off, n)
      case ByBytes(mem) => r.IsSample() && Overruns(WordsAfter(mem, off))
    }
  }

  // ---------- Whole drains ----------

  /** Draining the records that start at position `pos`. */
  function Drained(v: View, rs: seq<Record>, pos: nat): (d: Report)
    requires v.Size() > 0
    ensures d.passed <= |rs| && (d.fault ==> d.passed < |rs|)
    decreases |rs|
  {
    if rs == [] then Report([], 0, false)
    else
      var off := Offset(pos, v.Size());
      if v.Faults(rs[0], off) then Report(v.Lines(rs[0], off), 0, true)
      else
        var rest := Drained(v, rs[1..], pos + rs[0].Size());
        Report(v.Lines(rs[0], off) + rest.lines, rest.passed + 1, rest.fault)
  }

  function Headers(rs: seq<Record>, pos: nat, n: nat): (hs: seq<Header>)
    requires n > 0
    ensures |hs| == |rs|
  {
    if rs == [] then []
    else [Header(Offset(pos, n), rs[0].typ, rs[0].Size())] + Headers(rs[1..], pos + rs[0].Size(), n)
  }

  function AllLines(rs: seq<Record>): seq<Line> {
    if rs == [] then [] else WholeLines(rs[0]) + AllLines(rs[1..])
  }

  /** The sample records' callchains, in order. */
  function Chains(rs: seq<Record>): seq<seq<nat>> {
    if rs == [] then []
    else if rs[0].IsSample() then [rs[0].Chain()] + Chains(rs[1..])
    else Chains(rs[1..])
  }

  /** Reads printed lines back: a size line opens a chain of that many entry lines. */
  function ReadBack(lines: seq<Line>): Option<seq<seq<nat>>> {
    if lines == [] then Some([])
    else if !lines[0].SizeLine? || |lines| <= lines[0].nr then None
    else
      var nr := lines[0].nr;
      var ips := Ips(lines[1..1 + nr]);
      if lines[1..1 + nr] != EntryLines(ips) then None
      else match ReadBack(lines[1 + nr..])
        case None => None
        case Some(rest) => Some([ips] + rest)
  }

  function Ips(lines: seq<Line>): seq<nat> {
    seq(|lines|, i requires 0 <= i < |lines| => if lines[i].EntryLine? then lines[i].ip else 0)
  }

  /** The offset of the record at index `k`. */
  function OffsetOf(rs: seq<Record>, pos: nat, n: nat, k: nat): nat
    requires k <= |rs| && n > 0
  {
    Offset(pos + TotalSize(rs[..k]), n)
  }

  /** At the record at index `k` a read leaves the area. */
  predicate FaultsAt(v: View, rs: seq<Record>, pos: nat, k: nat)
    requires k < |rs| && v.Size() > 0
  {
    v.Faults(rs[k], OffsetOf(rs, pos, v.Size(), k))
  }

  /** The record at index `k` is a sample that the end of the area cuts. */
  predicate CutAt(rs: seq<Record>, pos: nat, n: nat, k: nat)
    requires k < |rs| && n > 0
  {
    Cut(rs[k], OffsetOf(rs, pos, n, k), n)
  }

  // ---------- What is printed, line by line ----------

  /** The callchain loop prints its first word as the size, then word after word, each with
      its number, until that many entries are printed or the words end. */
  lemma ChainLineAt(words: seq<nat>, k: nat)
    requires words != []
    ensures |ChainLines(words)| == if words[0] < |words| then words[0] + 1 else |words|
    ensures ChainLines(words)[0] == SizeLine(words[0])
    ensures 1 <= k < |ChainLines(words)| ==> ChainLines(words)[k] == EntryLine(k, words[k])
  {
    var ips := words[1..if words[0] < |words| then words[0] + 1 else |words|];
    assert ChainLines(words) == [SizeLine(words[0])] + EntryLines(ips);
    hide *;
    if 1 <= k < |ChainLines(words)| {
      EntryLineAt(ips, k - 1);
      assert ips[k - 1] == words[k];
    }
  }

  lemma EntryLineAt(ips: seq<nat>, k: nat)
    requires k < |ips|
    ensures EntryLines(ips)[k] == EntryLine(k + 1, ips[k])
  {
  }

  /** The `k`-th header met is that of the `k`-th record, where the sizes before it lead. */
  lemma {:induction false} HeaderOf(rs: seq<Record>, pos: nat, n: nat, k: nat)
    requires k < |rs| && n > 0
    ensures Headers(rs, pos, n)[k] == Header((pos + TotalSize(rs[..k])) % n, rs[k].typ, rs[k].Size())
    decreases k
  {
    if k == 0 {
      FirstOffset(rs, pos, n);
    } else {
      HeaderOf(rs[1..], pos + rs[0].Size(), n, k - 1);
      OffsetShift(rs, pos, n, k - 1);
    }
  }

  // ---------- Where a drain stops ----------

  lemma OffsetShift(rs: seq<Record>, pos: nat, n: nat, k: nat)
    requires k < |rs| && n > 0
    ensures OffsetOf(rs, pos, n, k + 1) == OffsetOf(rs[1..], pos + rs[0].Size(), n, k)
  {
    assert rs[..k + 1][1..] == rs[1..][..k];
  }

  lemma FaultShift(v: View, rs: seq<Record>, pos: nat, k: nat)
    requires k + 1 < |rs| && v.Size() > 0
    ensures FaultsAt(v, rs, pos, k + 1) == FaultsAt(v, rs[1..], pos + rs[0].Size(), k)
  {
    hide OffsetOf, View.Faults, View.Size, Record.Size;
    OffsetShift(rs, pos, v.Size(), k);
    assert rs[1..][k] == rs[k + 1];
  }

  lemma FirstOffset(rs: seq<Record>, pos: nat, n: nat)
    requires n > 0
    ensures OffsetOf(rs, pos, n, 0) == Offset(pos, n)
  {
    assert TotalSize(rs[..0]) == 0;
  }

  /** A drain passes the records before the first one at which a read leaves the area, and
      faults there. */
  lemma {:induction false} DrainStopsAtFault(v: View, rs: seq<Record>, pos: nat)
    requires v.Size() > 0
    ensures var d := Drained(v, rs, pos);
      && (forall k :: 0 <= k < d.passed ==> !FaultsAt(v, rs, pos, k))
      && (if d.fault then FaultsAt(v, rs, pos, d.passed) else d.passed == |rs|)
    decreases |rs|
  {
    hide Offset, OffsetOf, View.Lines, View.Faults, View.Size, Record.Size;
    if rs != [] {
      FirstOffset(rs, pos, v.Size());
      if !FaultsAt(v, rs, pos, 0) {
        DrainStopsAtFault(v, rs[1..], pos + rs[0].Size());
        var d := Drained(v, rs, pos);
        forall k | 0 <= k < d.passed ensures !FaultsAt(v, rs, pos, k) {
          if k > 0 {
            FaultShift(v, rs, pos, k - 1);
          }
        }
        if d.fault {
          FaultShift(v, rs, pos, d.passed - 1);
        }
      }
    }
  }

  // ---------- Composition ----------

  /** One drain's report followed by the next one's, which a fault prevents. */
  function Then(first: Report, second: Report): Report {
    if first.fault then first
    else Report(first.lines + second.lines, first.passed + second.passed, second.fault)
  }

  lemma ThenAssociates(x: Report, y: Report, z: Report)
    ensures Then(x, Then(y, z)) == Then(Then(x, y), z)
  {
  }

  lemma ThenNothing(v: View, d: Report, pos: nat)
    requires v.Size() > 0
    ensures Then(Drained(v, [], pos), d) == d
  {
  }

  lemma DrainedCons(v: View, r: Record, rs: seq<Record>, pos: nat)
    requires v.Size() > 0
    ensures Drained(v, [r] + rs, pos) == Then(Drained(v, [r], pos), Drained(v, rs, pos + r.Size()))
    ensures var off := Offset(pos, v.Size());
      Drained(v, [r], pos) == if v.Faults(r, off) then Report(v.Lines(r, off), 0, true) else Report(v.Lines(r, off), 1, false)
  {
    hide View.Faults, View.Lines, View.Size, Record.Size, Offset;
  }

  /** Draining to an intermediate record boundary and then on gives one drain's result. */
  lemma {:induction false} DrainInTwo(v: View, a: seq<Record>, b: seq<Record>, pos: nat)
    requires v.Size() > 0
    ensures Drained(v, a + b, pos) == Then(Drained(v, a, pos), Drained(v, b, pos + TotalSize(a)))
    decreases |a|
  {
    hide Offset, Drained, Then, View.Size;
    if a == [] {
      assert a + b == b;
      ThenNothing(v, Drained(v, b, pos), pos);
    } else {
      var r, rest, next := a[0], a[1..], pos + a[0].Size();
      assert a == [r] + rest && a + b == [r] + (rest + b);
      DrainedCons(v, r, rest, pos);
      DrainedCons(v, r, rest + b, pos);
      DrainInTwo(v, rest, b, next);
      assert next + TotalSize(rest) == pos + TotalSize(a);
      ThenAssociates(Drained(v, [r], pos), Drained(v, rest, next), Drained(v, b, pos + TotalSize(a)));
    }
  }

  /** Views that agree on every record where it lies give the same drain. */
  lemma {:induction false} SameDrain(v: View, v': View, rs: seq<Record>, pos: nat)
    requires v.Size() == v'.Size() > 0
    requires forall k :: 0 <= k < |rs| ==>
      var off := OffsetOf(rs, pos, v.Size(), k);
      v.Lines(rs[k], off) == v'.Lines(rs[k], off) && v.Faults(rs[k], off) == v'.Faults(rs[k], off)
    ensures Drained(v, rs, pos) == Drained(v', rs, pos)
    decreases |rs|
  {
    hide Offset, OffsetOf, View.Lines, View.Faults, View.Size, Record.Size;
    if rs != [] {
      var next := pos + rs[0].Size();
      FirstOffset(rs, pos, v.Size());
      assert v.Lines(rs[0], OffsetOf(rs, pos, v.Size(), 0)) == v'.Lines(rs[0], OffsetOf(rs, pos, v.Size(), 0));
      forall k | 0 <= k < |rs[1..]|
        ensures var off := OffsetOf(rs[1..], next, v.Size(), k);
          && v.Lines(rs[1..][k], off) == v'.Lines(rs[1..][k], off)
          && v.Faults(rs[1..][k], off) == v'.Faults(rs[1..][k], off)
      {
        OffsetShift(rs, pos, v.Size(), k);
        assert rs[1..][k] == rs[k + 1];
      }
      SameDrain(v, v', rs[1..], next);
    }
  }

  // ---------- Callchain samples ----------

  lemma WholeWhenNotCut(r: Record, off: nat, n: nat)
    requires r.Valid() && r.Chained() && n % 8 == 0 && off % 8 == 0 && !Cut(r, off, n)
    ensures RecordLines(r, off, n) == WholeLines(r)
  {
  }

  /** If word `i` of an aligned sample is the first that does not fit, the sample is cut
      and its lines stop before that word. */
  lemma CutAtWord(r: Record, off: nat, n: nat, i: nat)
    requires r.Valid() && r.Chained() && r.IsSample() && Area(n) && off % 8 == 0
    requires i <= |r.Chain()| && off + 8 + 8 * i <= n < off + 8 + 8 * i + 8
    ensures Cut(r, off, n)
    ensures RecordLines(r, off, n) == if i == 0 then [] else LinesBefore(r, i)
  {
  }

  /** The lines of a sample once its size and the entries before the `i`-th are printed. */
  function LinesBefore(r: Record, i: nat): seq<Line>
    requires 1 <= i <= |r.Chain()| + 1
  {
    [SizeLine(|r.Chain()|)] + EntryLines(r.Chain()[..i - 1])
  }

  lemma LinesGrow(r: Record, i: nat)
    requires 1 <= i <= |r.Chain()|
    ensures LinesBefore(r, i + 1) == LinesBefore(r, i) + [EntryLine(i, r.Chain()[i - 1])]
  {
  }

  // ---------- What is printed ----------

  lemma {:induction false} AllLinesAppend(a: seq<Record>, b: seq<Record>)
    ensures AllLines(a + b) == AllLines(a) + AllLines(b)
  {
    hide Offset, WholeLines;
    if a == [] {
      assert a + b == b;
    } else {
      AllLinesAppend(a[1..], b);
      assert (a + b)[1..] == a[1..] + b;
      Concat3(WholeLines(a[0]), AllLines(a[1..]), AllLines(b));
    }
  }

  /** The chains of the passed records are printed in full and in order; if the drain
      faults, only the uncut entries of the next record follow. */
  lemma {:induction false} DrainPrintsPassed(rs: seq<Record>, pos: nat, n: nat)
    requires AllValid(rs) && AllChained(rs) && Area(n) && pos % 8 == 0
    ensures var d := Drained(ByRecord(n), rs, pos);
      d.lines == AllLines(rs[..d.passed]) +
        (if d.fault then RecordLines(rs[d.passed], OffsetOf(rs, pos, n, d.passed), n) else [])
    decreases |rs|
  {
    hide Offset, OffsetOf, RecordLines, WholeLines, Cut, Record.Chained;
    if rs != [] {
      var r, d := rs[0], Drained(ByRecord(n), rs, pos);
      FirstOffset(rs, pos, n);
      if d.passed == 0 {
        assert rs[..0] == [];
        assert [] + d.lines == d.lines;
      } else {
        HeaderFits(pos, n);
        WholeWhenNotCut(r, Offset(pos, n), n);
        var next := pos + r.Size();
        DrainPrintsPassed(rs[1..], next, n);
        var rest := Drained(ByRecord(n), rs[1..], next);
        var passed := rs[1..][..rest.passed];
        assert rs[..d.passed] == [r] + passed && ([r] + passed)[1..] == passed;
        OffsetShift(rs, pos, n, rest.passed);
        Concat3(WholeLines(r), AllLines(passed),
                if d.fault then RecordLines(rs[d.passed], OffsetOf(rs, pos, n, d.passed), n) else []);
      }
    }
  }

  /** The printout of whole records says exactly which callchains were in the area. */
  lemma {:induction false} ReadBackAllLines(rs: seq<Record>)
    ensures ReadBack(AllLines(rs)) == Some(Chains(rs))
  {
    if rs != [] {
      ReadBackAllLines(rs[1..]);
      var ips, lines := rs[0].Chain(), AllLines(rs);
      if rs[0].IsSample() {
        assert lines[0] == SizeLine(|ips|);
        assert lines[1..1 + |ips|] == EntryLines(ips);
        assert lines[1 + |ips|..] == AllLines(rs[1..]);
        assert Ips(EntryLines(ips)) == ips;
      } else {
        assert lines == AllLines(rs[1..]);
      }
    }
  }

  /** One more record adds its callchain if it is of type 9, even an empty one. */
  lemma {:induction false} ChainsAppend(rs: seq<Record>, r: Record)
    ensures Chains([]) == [] && Chains(rs + [r]) == Chains(rs) + if r.typ == 9 then [r.Chain()] else []
  {
    hide Record.Chain;
    if rs == [] {
      assert [] + [r] == [r];
      assert [r][1..] == [];
    } else {
      ChainsAppend(rs[1..], r);
      assert (rs + [r])[1..] == rs[1..] + [r];
    }
  }

  lemma CutIsFault(rs: seq<Record>, pos: nat, n: nat, k: nat)
    requires k < |rs| && n > 0
    ensures FaultsAt(ByRecord(n), rs, pos, k) == CutAt(rs, pos, n, k)
  {
  }

  /** The first sample that is cut is the one at `k` if `fault`; otherwise none is, and `k`
      is the end. */
  ghost predicate StopsAt(rs: seq<Record>, pos: nat, n: nat, k: nat, fault: bool)
    requires n > 0
  {
    && (forall j :: 0 <= j < k && j < |rs| ==> !CutAt(rs, pos, n, j))
    && (if fault then k < |rs| && CutAt(rs, pos, n, k) else k == |rs|)
  }

  /** The callchains of the first `k` records, then the uncut lines of the next if `fault`. */
  function LinesTo(rs: seq<Record>, pos: nat, n: nat, k: nat, fault: bool): seq<Line>
    requires n > 0 && k <= |rs|
  {
    AllLines(rs[..k]) + if fault && k < |rs| then RecordLines(rs[k], OffsetOf(rs, pos, n, k), n) else []
  }

  lemma DrainedLines(rs: seq<Record>, pos: nat, n: nat)
    requires AllValid(rs) && AllChained(rs) && Area(n) && pos % 8 == 0
    ensures var d := Drained(ByRecord(n), rs, pos);
      d.lines == LinesTo(rs, pos, n, d.passed, d.fault)
  {
    DrainPrintsPassed(rs, pos, n);
    hide AllLines, RecordLines, OffsetOf, Drained, AllValid, AllChained;
  }

  lemma DrainedStops(rs: seq<Record>, pos: nat, n: nat)
    requires n > 0
    ensures var d := Drained(ByRecord(n), rs, pos);
      StopsAt(rs, pos, n, d.passed, d.fault)
  {
    hide Offset, OffsetOf, CutAt, FaultsAt, Drained;
    DrainStopsAtFault(ByRecord(n), rs, pos);
    forall k | 0 <= k < |rs| ensures FaultsAt(ByRecord(n), rs, pos, k) == CutAt(rs, pos, n, k) {
      CutIsFault(rs, pos, n, k);
    }
  }

  lemma StopsOnce(rs: seq<Record>, pos: nat, n: nat, k: nat, fault: bool, k': nat, fault': bool)
    requires n > 0 && StopsAt(rs, pos, n, k, fault) && StopsAt(rs, pos, n, k', fault')
    ensures k == k' && fault == fault'
  {
    hide CutAt;
  }

  /** The first cut among the records, or their end, determines the whole report. */
  lemma CutDetermines(rs: seq<Record>, pos: nat, n: nat, k: nat, fault: bool)
    requires AllValid(rs) && AllChained(rs) && Area(n) && pos % 8 == 0 && StopsAt(rs, pos, n, k, fault)
    ensures k <= |rs| && Drained(ByRecord(n), rs, pos) == Report(LinesTo(rs, pos, n, k, fault), k, fault)
  {
    hide CutAt, Drained, LinesTo, AllValid, AllChained;
    var d := Drained(ByRecord(n), rs, pos);
    DrainedStops(rs, pos, n);
    StopsOnce(rs, pos, n, k, fault, d.passed, d.fault);
    DrainedLines(rs, pos, n);
  }

  lemma TailOffset(rs: seq<Record>, pos: nat, n: nat, a: nat, j: nat)
    requires a + j <= |rs| && n > 0
    ensures OffsetOf(rs[a..], pos + TotalSize(rs[..a]), n, j) == OffsetOf(rs, pos, n, a + j)
  {
    hide Offset;
    assert rs[..a + j] == rs[..a] + rs[a..][..j];
    TotalSizeAppend(rs[..a], rs[a..][..j]);
  }

  /** Without the first `a` records the rest stops where it did. */
  lemma StopsLater(rs: seq<Record>, pos: nat, n: nat, a: nat, k: nat, fault: bool)
    requires n > 0 && a <= k && StopsAt(rs, pos, n, k, fault)
    ensures k <= |rs| && StopsAt(rs[a..], pos + TotalSize(rs[..a]), n, k - a, fault)
  {
    hide OffsetOf, Cut, TotalSize;
    var rest, p := rs[a..], pos + TotalSize(rs[..a]);
    forall j | 0 <= j < |rest| ensures CutAt(rest, p, n, j) == CutAt(rs, pos, n, a + j) {
      TailOffset(rs, pos, n, a, j);
    }
    hide CutAt;
    forall j | 0 <= j < k - a && j < |rest| ensures !CutAt(rest, p, n, j) {
      assert !CutAt(rs, pos, n, a + j);
    }
  }

  lemma LinesLater(rs: seq<Record>, pos: nat, n: nat, a: nat, k: nat, fault: bool)
    requires n > 0 && a <= k <= |rs|
    ensures LinesTo(rs, pos, n, k, fault)
         == AllLines(rs[..a]) + LinesTo(rs[a..], pos + TotalSize(rs[..a]), n, k - a, fault)
  {
    hide OffsetOf, AllLines, RecordLines, TotalSize;
    TailOffset(rs, pos, n, a, k - a);
    assert rs[..k] == rs[..a] + rs[a..][..k - a];
    AllLinesAppend(rs[..a], rs[a..][..k - a]);
    Concat3(AllLines(rs[..a]), AllLines(rs[a..][..k - a]),
            if fault && k < |rs| then RecordLines(rs[k], OffsetOf(rs, pos, n, k), n) else []);
  }

  /** The drain completes exactly when no sample is cut by the end of the area, and then
      it prints every sample's callchain in full, in order, and nothing else. */
  lemma DrainCompletes(rs: seq<Record>, pos: nat, n: nat)
    requires AllValid(rs) && AllChained(rs) && Area(n) && pos % 8 == 0
    ensures var d := Drained(ByRecord(n), rs, pos);
      && (d.fault <==> exists k :: 0 <= k < |rs| && CutAt(rs, pos, n, k))
      && (!d.fault ==> d.passed == |rs| && ReadBack(d.lines) == Some(Chains(rs)))
  {
    var d := Drained(ByRecord(n), rs, pos);
    hide Offset, CutAt, FaultsAt, AllLines, Drained;
    DrainStopsAtFault(ByRecord(n), rs, pos);
    forall k | 0 <= k < |rs| ensures FaultsAt(ByRecord(n), rs, pos, k) == CutAt(rs, pos, n, k) {
      CutIsFault(rs, pos, n, k);
    }
    DrainPrintsPassed(rs, pos, n);
    if !d.fault {
      assert rs[..|rs|] == rs;
      assert d.lines == AllLines(rs);
      ReadBackAllLines(rs);
    }
  }
}

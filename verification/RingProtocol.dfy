/** Producer and consumer on one perf buffer, interleaved word by word.

    The consumer is the drain loop with each read of the shared area and each update of the
    shared tail a step of its own; the kernel's appending of a record is one environment
    step, taken only when the record fits the space the registers leave free. */
module RingProtocol {
  import opened Bytes
  import opened Modular
  import opened Records
  import opened Ring
  import opened RingDrain
  import opened Seqs
  import opened PerfBuffer
  import opened Wrappers

  /** Where the consumer is; `head` is its snapshot of data_head. */
  datatype Pc =
    | Idle
    | AtLoop(head: nat)
    | AtType(head: nat)
    | AtNr(head: nat)
    | InChain(head: nat, nr: nat, i: nat)
    | AtSize(head: nat)
    | AtStore(head: nat, size: nat)
    | Faulted

  /** The shared area and registers, the consumer, and what it printed; the last four
      fields are history: the position the counters started from, the records appended,
      how many of them the consumer passed, and how many its snapshot covers. */
  datatype State = State(
    area: seq<byte>, headReg: nat, tailReg: nat, pc: Pc, lines: seq<Line>,
    start: nat, appended: seq<Record>, passed: nat, visible: nat)

  datatype Step =
    | Append(r: Record)
    | Load | Exit | Enter | ReadType | ReadNr | PrintEntry | EndChain | ReadSize | Store

  /** How many bytes the registers say are unread. */
  function Used(s: State): nat {
    SubU64(s.headReg, s.tailReg)
  }

  /** A word of the area, or nothing if it lies outside. */
  function Word(area: seq<byte>, at: nat): Option<nat> {
    if at + 8 <= |area| then Some(Le(area[at..at + 8])) else None
  }

  /** The state after a step, if the step is enabled. */
  function Do(s: State, page: nat, step: Step): Option<State>
    requires page > 0 && |s.area| > 0
    ensures Do(s, page, step).Some? ==> |Do(s, page, step).value.area| == |s.area|
  {
    var off := EventOffset(s.tailReg, page);
    match step
    case Append(r) =>
      if r.Valid() && Used(s) + r.Size() <= |s.area| then
        Some(s.(area := Write(s.area, s.headReg, r.Encode()), headReg := AddU64(s.headReg, r.Size()),
                appended := s.appended + [r]))
      else None
    case Load =>
      if s.pc.Idle? then Some(s.(pc := AtLoop(s.headReg), visible := |s.appended|)) else None
    case Exit =>
      if s.pc.AtLoop? && s.pc.head == s.tailReg then Some(s.(pc := Idle)) else None
    case Enter =>
      if s.pc.AtLoop? && s.pc.head != s.tailReg then Some(s.(pc := AtType(s.pc.head))) else None
    case ReadType =>
      if s.pc.AtType? then
        if off + 8 > |s.area| then Some(s.(pc := Faulted))
        else if Le(s.area[off..off + 4]) == PERF_RECORD_SAMPLE then Some(s.(pc := AtNr(s.pc.head)))
        else Some(s.(pc := AtSize(s.pc.head)))
      else None
    case ReadNr =>
      if s.pc.AtNr? then
        match Word(s.area, off + 8)
        case None => Some(s.(pc := Faulted))
        case Some(nr) => Some(s.(pc := InChain(s.pc.head, nr, 1), lines := s.lines + [SizeLine(nr)]))
      else None
    case PrintEntry =>
      if s.pc.InChain? && s.pc.i <= s.pc.nr then
        match Word(s.area, off + 8 + 8 * s.pc.i)
        case None => Some(s.(pc := Faulted))
        case Some(ip) => Some(s.(pc := s.pc.(i := s.pc.i + 1), lines := s.lines + [EntryLine(s.pc.i, ip)]))
      else None
    case EndChain =>
      if s.pc.InChain? && s.pc.i > s.pc.nr then Some(s.(pc := AtSize(s.pc.head))) else None
    case ReadSize =>
      if s.pc.AtSize? && off + 8 <= |s.area| then
        Some(s.(pc := AtStore(s.pc.head, Le(s.area[off + 6..off + 8]))))
      else None
    case Store =>
      if s.pc.AtStore? then
        Some(s.(tailReg := AddU64(s.tailReg, s.pc.size), pc := AtLoop(s.pc.head), passed := s.passed + 1))
      else None
  }

  /** The state after a whole interleaving. */
  function Run(s: State, page: nat, steps: seq<Step>): Option<State>
    requires page > 0 && |s.area| > 0
    decreases |steps|
  {
    if steps == [] then Some(s)
    else match Do(s, page, steps[0])
      case None => None
      case Some(next) => Run(next, page, steps[1..])
  }

  ghost predicate Init(s: State, page: nat) {
    && PageSize(page) && |s.area| == 8 * page
    && s.start % 8 == 0 && s.headReg == Reg(s.start) && s.tailReg == Reg(s.start)
    && s.pc == Idle && s.lines == [] && s.appended == [] && s.passed == 0 && s.visible == 0
  }

  // ---------- The invariant ----------

  /** The unbounded position of the boundary after the first `k` records. */
  function Position(s: State, k: nat): nat
    requires k <= |s.appended|
  {
    s.start + TotalSize(s.appended[..k])
  }

  /** The registers stand for record boundaries no more than the area apart, and the bytes
      between them are exactly the records appended and not yet passed. */
  ghost predicate Buffered(s: State, page: nat) {
    && PageSize(page) && |s.area| == 8 * page
    && s.start % 8 == 0 && AllValid(s.appended) && s.passed <= |s.appended|
    && s.headReg == Reg(Position(s, |s.appended|)) && s.tailReg == Reg(Position(s, s.passed))
    && Position(s, s.passed) <= Position(s, |s.appended|) <= Position(s, s.passed) + |s.area|
    && Unroll(s.area, Position(s, s.passed), Position(s, |s.appended|)) == EncodeAll(s.appended[s.passed..])
  }

  /** The snapshot ends at a boundary and covers the record being read, if any, whose size
      is what was read for it. */
  ghost predicate Covered(s: State) {
    match s.pc
    case Idle => true
    case AtLoop(head) => SnapshotCovers(s, head, s.passed)
    case AtStore(head, size) => SnapshotCovers(s, head, s.passed + 1) && size == Current(s).Size()
    case Faulted => s.passed < s.visible <= |s.appended|
    case _ => SnapshotCovers(s, s.pc.head, s.passed + 1)
  }

  ghost predicate SnapshotCovers(s: State, head: nat, k: nat) {
    k <= s.visible <= |s.appended| && head == Reg(Position(s, s.visible))
  }

  /** The record at the tail, when there is one, and its offset. */
  function Current(s: State): Record {
    if s.passed < |s.appended| then s.appended[s.passed] else Record(0, 0, [])
  }

  function CurrentOffset(s: State): nat
    requires |s.area| > 0 && s.passed <= |s.appended|
  {
    Offset(Position(s, s.passed), |s.area|)
  }

  /** The consumer has printed nothing of the record at the tail. */
  predicate Between(pc: Pc) {
    pc.Idle? || pc.AtLoop? || pc.AtType? || pc.AtNr?
  }

  /** At `pc`, having printed `whole` for the records passed, the consumer has printed as
      much of the callchain of the record `r` at `off` as it has read. */
  ghost predicate Printed(pc: Pc, lines: seq<Line>, whole: seq<Line>, r: Record, off: nat, n: nat) {
    match pc
    case AtNr(_) => r.IsSample() && lines == whole
    case InChain(_, nr, i) =>
      && r.IsSample() && nr == |r.Chain()| && 1 <= i <= nr + 1 && off + 8 + 8 * i <= n
      && lines == whole + LinesBefore(r, i)
    case AtSize(_) => !Cut(r, off, n) && lines == whole + WholeLines(r)
    case AtStore(_, _) => !Cut(r, off, n) && lines == whole + WholeLines(r)
    case Faulted => Cut(r, off, n) && lines == whole + RecordLines(r, off, n)
    case _ => lines == whole
  }

  ghost predicate PrintedSoFar(s: State)
    requires |s.area| > 0 && s.passed <= |s.appended|
  {
    Printed(s.pc, s.lines, AllLines(s.appended[..s.passed]), Current(s), CurrentOffset(s), |s.area|)
  }

  ghost predicate NoneCutSoFar(s: State)
    requires |s.area| > 0 && s.passed <= |s.appended|
  {
    forall k :: 0 <= k < s.passed ==> !CutAt(s.appended, s.start, |s.area|, k)
  }

  /** Whatever the records' payloads, the registers and the bytes are those of the records
      appended; if all samples are callchain samples, so is the printout. */
  ghost predicate Inv(s: State, page: nat) {
    && Buffered(s, page) && |s.area| > 0 && Covered(s)
    && (AllChained(s.appended) ==> PrintedSoFar(s) && NoneCutSoFar(s))
  }

  // ---------- Positions ----------

  lemma PositionStep(s: State, k: nat)
    requires k < |s.appended|
    ensures Position(s, k + 1) == Position(s, k) + s.appended[k].Size()
  {
    assert s.appended[..k + 1] == s.appended[..k] + [s.appended[k]];
    TotalSizeAppend(s.appended[..k], [s.appended[k]]);
    TotalSizeOne(s.appended[k]);
  }

  lemma PositionAligned(s: State, k: nat)
    requires k <= |s.appended| && AllValid(s.appended) && s.start % 8 == 0
    ensures Position(s, k) % 8 == 0
  {
    hide TotalSize, Record.Valid;
    SizesAligned(s.appended[..k]);
  }

  lemma PositionsOrdered(s: State, j: nat, k: nat)
    requires j <= k <= |s.appended|
    ensures Position(s, j) + 8 * (k - j) <= Position(s, k)
    decreases k - j
  {
    if j < k {
      PositionStep(s, k - 1);
      PositionsOrdered(s, j, k - 1);
      hide Position;
    }
  }

  /** Registers of two boundaries inside the buffer agree only if the boundaries do. */
  lemma BoundaryRegisters(s: State, page: nat, k: nat)
    requires Buffered(s, page) && s.passed <= k <= |s.appended|
    ensures Reg(Position(s, k)) == s.tailReg <==> k == s.passed
    ensures Used(s) == Position(s, |s.appended|) - Position(s, s.passed)
    ensures EventOffset(s.tailReg, page) == Offset(Position(s, s.passed), |s.area|)
  {
    assert Used(s) == SubU64(Reg(Position(s, |s.appended|)), Reg(Position(s, s.passed)));
    hide *;
    PositionsOrdered(s, s.passed, k);
    PositionsOrdered(s, k, |s.appended|);
    RegOffset(page, Position(s, s.passed));
    RegInjective(Position(s, s.passed), Position(s, k));
    RegInjective(Position(s, s.passed), Position(s, |s.appended|));
  }

  /** A stream that begins with an encoded record holds that record at its position, and
      the rest of the stream begins where the record ends. */
  lemma FrontOfStream(mem: seq<byte>, t: nat, h: nat, r: Record, rest: seq<byte>)
    requires Area(|mem|) && t % 8 == 0 && t <= h && r.Valid()
    requires Unroll(mem, t, h) == r.Encode() + rest
    ensures RecordAt(mem, Offset(t, |mem|), r)
    ensures t + r.Size() <= h && Unroll(mem, t + r.Size(), h) == rest
  {
    EncodedFields(r, rest);
    assert ParseOne(r.Encode() + rest) == Some(r);
    hide *;
    FirstRecordAt(mem, t, h);
    UnrollSplit(mem, t, t + r.Size(), h);
  }

  /** The area holds the current record at the tail and the later ones after it. */
  lemma CurrentRecord(s: State, page: nat)
    requires Buffered(s, page) && s.passed < |s.appended|
    ensures
      var r, t := s.appended[s.passed], Position(s, s.passed);
      && r.Valid() && RecordAt(s.area, Offset(t, |s.area|), r)
      && Position(s, s.passed + 1) == t + r.Size() <= Position(s, |s.appended|)
      && Unroll(s.area, t + r.Size(), Position(s, |s.appended|)) == EncodeAll(s.appended[s.passed + 1..])
  {
    var unread := s.appended[s.passed..];
    assert unread[1..] == s.appended[s.passed + 1..];
    assert EncodeAll(unread) == unread[0].Encode() + EncodeAll(unread[1..]);
    PositionAligned(s, s.passed);
    PositionStep(s, s.passed);
    assert Position(s, s.passed) <= Position(s, |s.appended|);
    hide *;
    FrontOfStream(s.area, Position(s, s.passed), Position(s, |s.appended|), unread[0], EncodeAll(unread[1..]));
  }

  // ---------- Every step keeps the invariant ----------

  lemma AppendPositions(s: State, s': State, r: Record)
    requires s'.appended == s.appended + [r] && s'.start == s.start
    ensures forall k {:trigger Position(s', k)} :: 0 <= k <= |s.appended| ==> Position(s', k) == Position(s, k)
    ensures forall k :: 0 <= k <= |s.appended| ==> s'.appended[..k] == s.appended[..k]
    ensures Position(s', |s'.appended|) == Position(s, |s.appended|) + r.Size()
  {
    forall k | 0 <= k <= |s.appended| ensures s'.appended[..k] == s.appended[..k] {
    }
    PositionStep(s', |s.appended|);
  }

  /** Writing a record at the head register stores it right after the unread bytes. */
  lemma WriteAtRegister(area: seq<byte>, page: nat, t: nat, h: nat, b: seq<byte>)
    requires PageSize(page) && |area| == 8 * page && t <= h && h + |b| <= t + |area|
    ensures |area| > 0 && Unroll(Write(area, Reg(h), b), t, h + |b|) == Unroll(area, t, h) + b
  {
    RegOffset(page, h);
    WriteCongruent(area, Reg(h), h, b);
    WriteAppends(area, t, h, b);
  }

  lemma EncodeAllOne(r: Record)
    ensures EncodeAll([r]) == r.Encode()
  {
  }

  lemma AppendEffect(s: State, page: nat, r: Record)
    requires page > 0 && |s.area| > 0 && Do(s, page, Append(r)).Some?
    ensures r.Valid() && Used(s) + r.Size() <= |s.area|
    ensures Do(s, page, Append(r)).value
         == s.(area := Write(s.area, s.headReg, r.Encode()), headReg := AddU64(s.headReg, r.Size()),
               appended := s.appended + [r])
  {
    hide EventOffset, Record.Valid, Used, Write, Record.Encode, AddU64;
  }

  lemma ValidAppend(rs: seq<Record>, r: Record)
    requires AllValid(rs) && r.Valid()
    ensures AllValid(rs + [r])
  {
    hide Record.Valid;
  }

  lemma AppendKeepsBuffered(s: State, page: nat, r: Record)
    requires Buffered(s, page) && page > 0 && |s.area| > 0 && Do(s, page, Append(r)).Some?
    ensures Buffered(Do(s, page, Append(r)).value, page)
  {
    AppendEffect(s, page, r);
    hide Do, Record.Valid, AllValid, Unroll, EncodeAll, TotalSize, Write, Record.Encode, PageSize;
    var s' := Do(s, page, Append(r)).value;
    var t, h := Position(s, s.passed), Position(s, |s.appended|);
    BoundaryRegisters(s, page, s.passed);
    AppendPositions(s, s', r);
    RegAdd(h, r.Size());
    assert s'.appended[s.passed..] == s.appended[s.passed..] + [r];
    EncodeAllAppend(s.appended[s.passed..], [r]);
    EncodeAllOne(r);
    assert PageSize(page) && |s.area| == 8 * page && t <= h && h + r.Size() <= t + |s.area|;
    ValidAppend(s.appended, r);
    hide Position, Unroll, EncodeAll, TotalSize, Write, Record.Encode, Reg, Used, Record.Valid, AllValid,
         PageSize;
    WriteAtRegister(s.area, page, t, h, r.Encode());
  }

  lemma AppendKeepsCovered(s: State, s': State, r: Record)
    requires Covered(s) && s.passed <= |s.appended| && s'.appended == s.appended + [r]
    requires s' == s.(area := s'.area, headReg := s'.headReg, appended := s'.appended)
    ensures Covered(s')
  {
    AppendPositions(s, s', r);
    hide Position, Reg;
  }

  lemma AppendKeepsPrinted(s: State, s': State, r: Record)
    requires |s.area| > 0 && s.passed <= |s.appended| && Covered(s) && PrintedSoFar(s)
    requires s'.appended == s.appended + [r] && |s'.area| == |s.area|
    requires s' == s.(area := s'.area, headReg := s'.headReg, appended := s'.appended)
    ensures PrintedSoFar(s')
  {
    AppendPositions(s, s', r);
    hide Position, AllLines, Printed, Offset, Reg;
    if s.pc.Idle? || s.pc.AtLoop? {
      PrintedBetween(s.pc, s.lines, AllLines(s.appended[..s.passed]), Current(s), Current(s'), CurrentOffset(s), |s.area|);
    }
  }

  lemma AppendKeepsNoneCut(s: State, s': State, r: Record)
    requires |s.area| > 0 && s.passed <= |s.appended| && NoneCutSoFar(s)
    requires s'.appended == s.appended + [r] && |s'.area| == |s.area|
    requires s'.start == s.start && s'.passed == s.passed
    ensures NoneCutSoFar(s')
  {
    hide Cut, Offset, TotalSize;
    forall k | 0 <= k < s'.passed ensures !CutAt(s'.appended, s'.start, |s'.area|, k) {
      assert s'.appended[..k] == s.appended[..k];
      assert !CutAt(s.appended, s.start, |s.area|, k);
    }
  }

  lemma ChainedPrefix(a: seq<Record>, b: seq<Record>)
    requires a <= b && AllChained(b)
    ensures AllChained(a)
  {
    hide Record.Chained;
    assert forall i :: 0 <= i < |a| ==> a[i] == b[i];
  }

  lemma AppendKeepsInv(s: State, page: nat, r: Record)
    requires Inv(s, page) && page > 0 && Do(s, page, Append(r)).Some?
    ensures Inv(Do(s, page, Append(r)).value, page)
  {
    assert s.passed <= |s.appended|;
    hide Buffered, Covered, PrintedSoFar, NoneCutSoFar, Used, EventOffset, Write, AddU64, Record.Valid,
         Record.Chained, Record.Encode, Record.Size;
    var s' := Do(s, page, Append(r)).value;
    AppendKeepsBuffered(s, page, r);
    AppendKeepsCovered(s, s', r);
    if AllChained(s'.appended) {
      ChainedPrefix(s.appended, s'.appended);
      AppendKeepsPrinted(s, s', r);
      AppendKeepsNoneCut(s, s', r);
    }
  }

  /** Between records, which record comes next does not matter to what was printed. */
  lemma PrintedBetween(pc: Pc, lines: seq<Line>, whole: seq<Line>, r: Record, r': Record, off: nat, n: nat)
    requires (pc.Idle? || pc.AtLoop?) && Printed(pc, lines, whole, r, off, n)
    ensures Printed(pc, lines, whole, r', off, n)
  {
  }

  lemma SamePositions(s: State, s': State)
    requires s'.start == s.start && s'.appended == s.appended
    ensures forall k :: 0 <= k <= |s.appended| ==> Position(s', k) == Position(s, k)
  {
  }

  /** A consumer step that leaves the area and the tail alone keeps everything but what is
      known of its position and its lines. */
  lemma ConsumerStep(s: State, s': State, page: nat)
    requires Inv(s, page) && s' == s.(pc := s'.pc, lines := s'.lines) && Covered(s')
    requires AllChained(s.appended) ==>
      Printed(s'.pc, s'.lines, AllLines(s.appended[..s.passed]), Current(s), CurrentOffset(s), |s.area|)
    ensures Inv(s', page)
  {
    hide AllLines, Printed, Reg, Unroll, EncodeAll, TotalSize, AllValid, AllChained, CutAt, Offset, PageSize;
    SamePositions(s, s');
    if AllChained(s.appended) {
      assert forall k {:trigger CutAt(s'.appended, s'.start, |s'.area|, k)} ::
        0 <= k < s.passed ==> !CutAt(s.appended, s.start, |s.area|, k);
    }
  }

  /** The header fields of a stored record; only a sample is printed or cut. */
  lemma StoredFields(area: seq<byte>, off: nat, r: Record)
    requires RecordAt(area, off, r)
    ensures off + 8 <= |area| && Le(area[off..off + 4]) == r.typ && Le(area[off + 6..off + 8]) == r.Size()
    ensures !r.IsSample() ==> WholeLines(r) == [] && !Cut(r, off, |area|)
  {
  }

  lemma EnterKeepsInv(s: State, page: nat)
    requires Inv(s, page) && page > 0 && Do(s, page, Enter).Some?
    ensures Inv(Do(s, page, Enter).value, page)
  {
    hide Position, AllLines, Offset, Reg, Unroll, EncodeAll, TotalSize, EventOffset, PageSize, AllValid,
         AllChained, NoneCutSoFar;
    var s' := Do(s, page, Enter).value;
    BoundaryRegisters(s, page, s.visible);
    hide Buffered;
    SamePositions(s, s');
    ConsumerStep(s, s', page);
  }

  lemma ReadTypePrints(area: seq<byte>, off: nat, r: Record, head: nat, lines: seq<Line>, pc': Pc)
    requires RecordAt(area, off, r)
    requires pc' == if Le(area[off..off + 4]) == PERF_RECORD_SAMPLE then AtNr(head) else AtSize(head)
    ensures Printed(pc', lines, lines, r, off, |area|)
  {
    StoredFields(area, off, r);
    assert lines + [] == lines;
    hide Le, RecordAt, Cut, WholeLines;
  }

  lemma ReadTypeKeepsInv(s: State, page: nat)
    requires Inv(s, page) && page > 0 && Do(s, page, ReadType).Some?
    ensures Inv(Do(s, page, ReadType).value, page)
  {
    hide RecordAt, Position, AllLines, Offset, Reg, Le, Unroll, EncodeAll, TotalSize,
         Record.Valid, EventOffset, PageSize, AllValid, AllChained, NoneCutSoFar;
    var s', off := Do(s, page, ReadType).value, CurrentOffset(s);
    BoundaryRegisters(s, page, s.passed);
    CurrentRecord(s, page);
    StoredFields(s.area, off, Current(s));
    ReadTypePrints(s.area, off, Current(s), s.pc.head, s.lines, s'.pc);
    hide Buffered;
    SamePositions(s, s');
    ConsumerStep(s, s', page);
  }

  lemma ReadNrPrints(area: seq<byte>, off: nat, r: Record, head: nat, lines: seq<Line>, pc': Pc, lines': seq<Line>)
    requires Area(|area|) && r.Valid() && r.Chained() && r.IsSample() && RecordAt(area, off, r)
    requires match Word(area, off + 8)
      case None => pc' == Faulted && lines' == lines
      case Some(nr) => pc' == InChain(head, nr, 1) && lines' == lines + [SizeLine(nr)]
    ensures Printed(pc', lines', lines, r, off, |area|)
  {
    assert lines + [] == lines;
    SampleWords(area, off, r);
    FirstLine(r);
    if off + 16 > |area| {
      CutAtWord(r, off, |area|, 0);
    }
    hide Le, Record.Valid, Record.Chained, RecordAt, Record.Chain, RecordLines, Cut;
  }

  lemma ReadNrKeepsInv(s: State, page: nat)
    requires Inv(s, page) && page > 0 && Do(s, page, ReadNr).Some?
    ensures Inv(Do(s, page, ReadNr).value, page)
  {
    hide RecordAt, Position, AllLines, Offset, Reg, Le, Unroll, EncodeAll, TotalSize,
         Record.Valid, Record.Chained, EventOffset, PageSize, AllValid, NoneCutSoFar;
    var s', off := Do(s, page, ReadNr).value, CurrentOffset(s);
    BoundaryRegisters(s, page, s.passed);
    CurrentRecord(s, page);
    if AllChained(s.appended) {
      ReadNrPrints(s.area, off, Current(s), s.pc.head, s.lines, s'.pc, s'.lines);
    }
    hide Buffered, Printed, AllChained;
    SamePositions(s, s');
    ConsumerStep(s, s', page);
  }

  lemma PrintEntryPrints(area: seq<byte>, off: nat, r: Record, pc: Pc, lines: seq<Line>, whole: seq<Line>,
                         pc': Pc, lines': seq<Line>)
    requires Area(|area|) && r.Valid() && r.Chained() && RecordAt(area, off, r)
    requires pc.InChain? && pc.i <= pc.nr && Printed(pc, lines, whole, r, off, |area|)
    requires match Word(area, off + 8 + 8 * pc.i)
      case None => pc' == Faulted && lines' == lines
      case Some(ip) => pc' == pc.(i := pc.i + 1) && lines' == lines + [EntryLine(pc.i, ip)]
    ensures Printed(pc', lines', whole, r, off, |area|)
  {
    var i := pc.i;
    SampleWords(area, off, r);
    if off + 8 + 8 * i + 8 <= |area| {
      SampleWord(area, off, r, i);
      LinesGrow(r, i);
      Concat3(whole, LinesBefore(r, i), [EntryLine(i, r.Chain()[i - 1])]);
    } else {
      CutAtWord(r, off, |area|, i);
    }
    hide Le, Record.Valid, Record.Chained, RecordAt, Record.Chain, RecordLines, LinesBefore, Cut;
  }

  lemma PrintEntryKeepsInv(s: State, page: nat)
    requires Inv(s, page) && page > 0 && Do(s, page, PrintEntry).Some?
    ensures Inv(Do(s, page, PrintEntry).value, page)
  {
    hide RecordAt, Printed, Position, AllLines, Offset, Reg, Le, Unroll, EncodeAll, TotalSize,
         Record.Valid, Record.Chained, EventOffset, PageSize, AllValid, NoneCutSoFar;
    var s', off := Do(s, page, PrintEntry).value, CurrentOffset(s);
    BoundaryRegisters(s, page, s.passed);
    CurrentRecord(s, page);
    if AllChained(s.appended) {
      PrintEntryPrints(s.area, off, Current(s), s.pc, s.lines, AllLines(s.appended[..s.passed]), s'.pc, s'.lines);
    }
    hide Buffered, AllChained;
    SamePositions(s, s');
    ConsumerStep(s, s', page);
  }

  lemma EndChainPrints(area: seq<byte>, off: nat, r: Record, pc: Pc, lines: seq<Line>, whole: seq<Line>)
    requires Area(|area|) && r.Valid() && r.Chained() && RecordAt(area, off, r)
    requires pc.InChain? && pc.i > pc.nr && Printed(pc, lines, whole, r, off, |area|)
    ensures Printed(AtSize(pc.head), lines, whole, r, off, |area|)
  {
  }

  lemma EndChainKeepsInv(s: State, page: nat)
    requires Inv(s, page) && page > 0 && Do(s, page, EndChain).Some?
    ensures Inv(Do(s, page, EndChain).value, page)
  {
    hide RecordAt, Printed, Position, AllLines, Offset, Reg, Le, Unroll, EncodeAll, TotalSize,
         Record.Valid, Record.Chained, EventOffset, PageSize, AllValid, NoneCutSoFar;
    var s' := Do(s, page, EndChain).value;
    CurrentRecord(s, page);
    if AllChained(s.appended) {
      EndChainPrints(s.area, CurrentOffset(s), Current(s), s.pc, s.lines, AllLines(s.appended[..s.passed]));
    }
    hide Buffered, AllChained;
    SamePositions(s, s');
    ConsumerStep(s, s', page);
  }

  lemma ReadSizeKeepsInv(s: State, page: nat)
    requires Inv(s, page) && page > 0 && Do(s, page, ReadSize).Some?
    ensures Inv(Do(s, page, ReadSize).value, page)
  {
    hide RecordAt, Position, AllLines, Offset, Reg, Le, Unroll, EncodeAll, TotalSize, Cut, WholeLines,
         Record.Valid, EventOffset, PageSize, AllValid, AllChained, NoneCutSoFar;
    var s' := Do(s, page, ReadSize).value;
    BoundaryRegisters(s, page, s.passed);
    CurrentRecord(s, page);
    StoredFields(s.area, CurrentOffset(s), Current(s));
    hide Buffered;
    SamePositions(s, s');
    ConsumerStep(s, s', page);
  }

  lemma StoreEffect(s: State, page: nat)
    requires Inv(s, page) && page > 0 && Do(s, page, Store).Some?
    ensures s.passed < s.visible <= |s.appended|
    ensures Do(s, page, Store).value
         == s.(tailReg := Reg(Position(s, s.passed + 1)), pc := AtLoop(s.pc.head), passed := s.passed + 1)
  {
    hide PrintedSoFar, NoneCutSoFar, Position, Offset, Reg, Le, Unroll, EncodeAll, TotalSize, Record.Size,
         Record.Valid, EventOffset, PageSize, AllValid, AllChained, AddU64;
    PositionStep(s, s.passed);
    RegAdd(Position(s, s.passed), Current(s).Size());
  }

  lemma PassingKeepsBuffered(s: State, s': State, page: nat)
    requires Buffered(s, page) && s.passed < |s.appended|
    requires s' == s.(tailReg := Reg(Position(s, s.passed + 1)), pc := s'.pc, passed := s.passed + 1)
    ensures Buffered(s', page)
  {
    CurrentRecord(s, page);
    SamePositions(s, s');
    assert Position(s, s.passed) <= Position(s, |s.appended|) <= Position(s, s.passed) + |s.area|;
    hide RecordAt, Position, Offset, Reg, Unroll, EncodeAll, TotalSize, Record.Valid, PageSize, AllValid;
  }

  lemma LinesOfOneMore(rs: seq<Record>, k: nat)
    requires k < |rs|
    ensures AllLines(rs[..k + 1]) == AllLines(rs[..k]) + WholeLines(rs[k])
  {
    hide WholeLines;
    assert rs[..k + 1] == rs[..k] + [rs[k]];
    AllLinesAppend(rs[..k], [rs[k]]);
    assert [rs[k]][1..] == [] && WholeLines(rs[k]) + [] == WholeLines(rs[k]);
  }

  lemma PassingKeepsNoneCut(s: State, s': State)
    requires |s.area| > 0 && s.passed < |s.appended| && NoneCutSoFar(s)
    requires !Cut(Current(s), CurrentOffset(s), |s.area|)
    requires s'.area == s.area && s'.start == s.start && s'.appended == s.appended && s'.passed == s.passed + 1
    ensures NoneCutSoFar(s')
  {
    assert CutAt(s.appended, s.start, |s.area|, s.passed) == Cut(Current(s), CurrentOffset(s), |s.area|);
    hide Cut, CutAt, Position, Offset, Record.Size;
    forall k | 0 <= k < s'.passed ensures !CutAt(s'.appended, s'.start, |s'.area|, k) {
      if k < s.passed {
        assert !CutAt(s.appended, s.start, |s.area|, k);
      }
    }
  }

  lemma PassingKeepsPrinted(s: State, s': State)
    requires |s.area| > 0 && s.passed < |s.appended| && s.pc.AtStore? && PrintedSoFar(s)
    requires s' == s.(tailReg := s'.tailReg, pc := AtLoop(s.pc.head), passed := s.passed + 1)
    ensures PrintedSoFar(s')
  {
    LinesOfOneMore(s.appended, s.passed);
    hide Cut, AllLines, WholeLines, Position, Offset;
  }

  lemma PassingKeepsInv(s: State, s': State, page: nat)
    requires Inv(s, page) && s.pc.AtStore? && s.passed < |s.appended|
    requires s' == s.(tailReg := Reg(Position(s, s.passed + 1)), pc := AtLoop(s.pc.head), passed := s.passed + 1)
    ensures Inv(s', page)
  {
    SamePositions(s, s');
    assert AllChained(s.appended) ==> PrintedSoFar(s) && !Cut(Current(s), CurrentOffset(s), |s.area|);
    PassingKeepsBuffered(s, s', page);
    if AllChained(s.appended) {
      PassingKeepsPrinted(s, s');
      PassingKeepsNoneCut(s, s');
    }
    hide Buffered, PrintedSoFar, NoneCutSoFar, AllChained, Position, Reg, Record.Size;
  }

  lemma StoreKeepsInv(s: State, page: nat)
    requires Inv(s, page) && page > 0 && Do(s, page, Store).Some?
    ensures Inv(Do(s, page, Store).value, page)
  {
    StoreEffect(s, page);
    assert s.pc.AtStore?;
    hide *;
    PassingKeepsInv(s, Do(s, page, Store).value, page);
  }

  /** Taking or leaving a snapshot keeps the invariant. */
  lemma LoadKeepsInv(s: State, s': State, page: nat)
    requires Inv(s, page) && s.pc.Idle?
    requires s' == s.(pc := AtLoop(s.headReg), visible := |s.appended|)
    ensures Inv(s', page)
  {
    SamePositions(s, s');
    hide AllLines, Reg, Unroll, EncodeAll, TotalSize, Position, CutAt, AllValid, AllChained, PageSize;
    if AllChained(s.appended) {
      forall k | 0 <= k < s'.passed ensures !CutAt(s'.appended, s'.start, |s'.area|, k) {
        assert !CutAt(s.appended, s.start, |s.area|, k);
      }
    }
  }

  /** Every step, of the producer or of the consumer, keeps the invariant. */
  lemma StepKeepsInv(s: State, page: nat, step: Step)
    requires Inv(s, page) && page > 0 && Do(s, page, step).Some?
    ensures Inv(Do(s, page, step).value, page)
  {
    match step
    case Append(r) => AppendKeepsInv(s, page, r);
    case Load => LoadKeepsInv(s, Do(s, page, Load).value, page);
    case Exit =>
      hide Buffered, NoneCutSoFar, AllLines, AllChained;
      ConsumerStep(s, Do(s, page, Exit).value, page);
    case Enter => EnterKeepsInv(s, page);
    case ReadType => ReadTypeKeepsInv(s, page);
    case ReadNr => ReadNrKeepsInv(s, page);
    case PrintEntry => PrintEntryKeepsInv(s, page);
    case EndChain => EndChainKeepsInv(s, page);
    case ReadSize => ReadSizeKeepsInv(s, page);
    case Store => StoreKeepsInv(s, page);
  }

  // ---------- Whole runs ----------

  lemma InitInv(s: State, page: nat)
    requires Init(s, page)
    ensures Inv(s, page)
  {
  }

  lemma {:induction false} RunKeepsInv(s: State, page: nat, steps: seq<Step>)
    requires Inv(s, page) && page > 0 && Run(s, page, steps).Some?
    ensures Inv(Run(s, page, steps).value, page)
    decreases |steps|
  {
    hide Buffered, Covered, PrintedSoFar, NoneCutSoFar, AllChained, Do;
    if steps != [] {
      StepKeepsInv(s, page, steps[0]);
      RunKeepsInv(Do(s, page, steps[0]).value, page, steps[1..]);
    }
  }

  /** No more than the area is unread, and the unread bytes are exactly the records
      appended and not passed: none was overwritten. */
  ghost predicate UnreadIntact(e: State, page: nat) {
    && page > 0 && |e.area| == 8 * page && e.passed <= |e.appended|
    && Used(e) == TotalSize(e.appended[e.passed..]) <= |e.area|
    && Unroll(e.area, Position(e, e.passed), Position(e, e.passed) + Used(e)) == EncodeAll(e.appended[e.passed..])
  }

  /** The printout tells the callchains of a prefix of the records appended, in order. */
  ghost predicate PrintsPrefix(e: State) {
    && e.passed <= |e.appended|
    && (Between(e.pc) ==> ReadBack(e.lines) == Some(Chains(e.appended[..e.passed])))
    && AllLines(e.appended[..e.passed]) <= e.lines
  }

  /** A read leaves the area only at a sample the area's end cuts, the first one appended. */
  ghost predicate FaultsAtCut(e: State) {
    && e.passed <= |e.appended| && |e.area| > 0
    && (forall k :: 0 <= k < e.passed ==> !CutAt(e.appended, e.start, |e.area|, k))
    && (e.pc.Faulted? ==> e.passed < |e.appended| && CutAt(e.appended, e.start, |e.area|, e.passed))
  }

  /** What holds of whole records of any payload, and what of callchain samples. */
  ghost predicate Sound(e: State, page: nat) {
    UnreadIntact(e, page) && (AllChained(e.appended) ==> PrintsPrefix(e) && FaultsAtCut(e))
  }

  /** A state some interleaving leads to from an empty buffer. */
  ghost predicate Reachable(e: State, page: nat)
    requires page > 0
  {
    exists s: State, steps: seq<Step> :: Init(s, page) && |s.area| > 0 && Run(s, page, steps) == Some(e)
  }

  lemma ReachableInv(e: State, page: nat)
    requires page > 0 && Reachable(e, page)
    ensures Inv(e, page)
  {
    hide Init, Run, Inv;
    var s: State, steps: seq<Step> :| Init(s, page) && |s.area| > 0 && Run(s, page, steps) == Some(e);
    InitInv(s, page);
    RunKeepsInv(s, page, steps);
  }

  /** Every reachable state is sound. */
  lemma EveryInterleaving(e: State, page: nat)
    requires page > 0 && Reachable(e, page)
    ensures Sound(e, page)
  {
    ReachableInv(e, page);
    hide *;
    InvIsSound(e, page);
  }

  /** In every reachable state the consumer has its next step unless a read left the area,
      and when its drain ends it has passed exactly the records its snapshot covers. */
  lemma EveryDrain(e: State, page: nat)
    requires page > 0 && Reachable(e, page)
    ensures |e.area| > 0
    ensures !e.pc.Faulted? ==> Do(e, page, NextStep(e)).Some?
    ensures Do(e, page, Exit).Some? ==> e.passed == e.visible
  {
    ReachableInv(e, page);
    assert |e.area| > 0;
    hide Inv, Do, Reachable;
    if !e.pc.Faulted? {
      NeverStuck(e, page);
    }
    if Do(e, page, Exit).Some? {
      DrainReadsItsSnapshot(e, page);
    }
  }

  lemma InvUnread(e: State, page: nat)
    requires Buffered(e, page)
    ensures UnreadIntact(e, page)
  {
    BoundaryRegisters(e, page, e.passed);
    assert |Unroll(e.area, Position(e, e.passed), Position(e, |e.appended|))| == |EncodeAll(e.appended[e.passed..])|;
    hide Used, Unroll, EncodeAll, Position, PageSize, AllValid, TotalSize, EventOffset, Offset;
  }

  lemma InvPrints(e: State)
    requires |e.area| > 0 && e.passed <= |e.appended| && PrintedSoFar(e)
    ensures PrintsPrefix(e)
  {
    ReadBackAllLines(e.appended[..e.passed]);
    hide ReadBack, Chains, AllLines, Position, Cut, Offset, Reg, RecordLines, LinesBefore, WholeLines;
  }

  lemma InvFaults(e: State)
    requires |e.area| > 0 && e.passed <= |e.appended| && Covered(e) && PrintedSoFar(e) && NoneCutSoFar(e)
    ensures FaultsAtCut(e)
  {
    hide AllLines, Cut, RecordLines, LinesBefore, WholeLines, TotalSize, Offset, Reg;
  }

  lemma InvIsSound(e: State, page: nat)
    requires Inv(e, page)
    ensures Sound(e, page)
  {
    InvUnread(e, page);
    if AllChained(e.appended) {
      InvPrints(e);
      InvFaults(e);
    }
    hide Inv, UnreadIntact, PrintsPrefix, FaultsAtCut, AllChained;
  }

  /** A drain that ends has passed every record its snapshot covers, and no more. */
  lemma DrainReadsItsSnapshot(s: State, page: nat)
    requires Inv(s, page) && page > 0 && Do(s, page, Exit).Some?
    ensures s.passed == s.visible
  {
    BoundaryRegisters(s, page, s.visible);
  }

  // ---------- Progress ----------

  /** The consumer's next step; it has one unless it is idle or faulted. */
  function NextStep(s: State): Step {
    match s.pc
    case AtLoop(head) => if head == s.tailReg then Exit else Enter
    case AtType(_) => ReadType
    case AtNr(_) => ReadNr
    case InChain(_, nr, i) => if i <= nr then PrintEntry else EndChain
    case AtSize(_) => ReadSize
    case AtStore(_, _) => Store
    case _ => Load
  }

  /** The header at the tail always lies wholly inside the area. */
  lemma HeaderInside(s: State, page: nat)
    requires Buffered(s, page)
    ensures page > 0 && EventOffset(s.tailReg, page) + 8 <= |s.area|
  {
    PositionAligned(s, s.passed);
    hide Position, EventOffset, Unroll, EncodeAll, AllValid, PageSize, TotalSize;
    HeaderInArea(page, Position(s, s.passed));
  }

  lemma NeverStuck(s: State, page: nat)
    requires Inv(s, page) && page > 0 && !s.pc.Faulted?
    ensures Do(s, page, NextStep(s)).Some?
  {
    HeaderInside(s, page);
    hide Inv, Buffered, Covered, PrintedSoFar, NoneCutSoFar, AllChained, Position, EventOffset, Le, Word, AddU64, Used, Write,
         SubU64, Reg;
  }

  /** The consumer steps a record takes: enter, type, size and store, and for a sample its
      `nr`, its entries and the end of the chain. */
  function Work(r: Record): nat {
    if r.IsSample() then |r.Chain()| + 6 else 4
  }

  function TotalWork(rs: seq<Record>): nat {
    if rs == [] then 0 else Work(rs[0]) + TotalWork(rs[1..])
  }

  /** The records from index `k` that the snapshot covers. */
  function Covers(s: State, k: nat): seq<Record> {
    if k <= s.visible <= |s.appended| then s.appended[k..s.visible] else []
  }

  /** The consumer steps left for the record being read. */
  function WorkLeft(s: State): nat {
    match s.pc
    case AtType(_) => Work(Current(s)) - 1
    case AtNr(_) => |Current(s).Chain()| + 4
    case InChain(_, nr, i) => (if i <= nr then nr + 1 - i else 0) + 3
    case AtSize(_) => 2
    case AtStore(_, _) => 1
    case _ => 0
  }

  /** The consumer steps left in the current drain. */
  function StepsLeft(s: State): nat {
    match s.pc
    case Idle => 0
    case Faulted => 0
    case AtLoop(_) => TotalWork(Covers(s, s.passed)) + 1
    case _ => WorkLeft(s) + TotalWork(Covers(s, s.passed + 1)) + 1
  }

  /** The producer does not lengthen a drain, and each consumer step shortens it by one. */
  lemma StepsLeftStep(s: State, page: nat, step: Step)
    requires Inv(s, page) && page > 0 && AllChained(s.appended) && !step.Load? && Do(s, page, step).Some?
    requires !Do(s, page, step).value.pc.Faulted?
    ensures StepsLeft(s) == StepsLeft(Do(s, page, step).value) + if step.Append? then 0 else 1
  {
    assert |s.area| > 0;
    hide *;
    match step
    case Append(r) => AppendWork(s, page, r);
    case Exit => ExitWork(s, page);
    case Enter => EnterWork(s, page);
    case ReadType => ReadTypeWork(s, page);
    case ReadNr => ReadNrWork(s, page);
    case Store => StoreWork(s, page);
    case _ => InnerWork(s, page, step);
  }

  lemma ExitWork(s: State, page: nat)
    requires Inv(s, page) && page > 0 && Do(s, page, Exit).Some?
    ensures StepsLeft(s) == StepsLeft(Do(s, page, Exit).value) + 1
  {
    hide Buffered, PrintedSoFar, NoneCutSoFar, Position, Offset, EventOffset, Reg, AllChained;
    BoundaryRegisters(s, page, s.visible);
    assert Covers(s, s.passed) == [];
  }

  /** The steps within a record that depend on nothing but the consumer's own position. */
  lemma InnerWork(s: State, page: nat, step: Step)
    requires |s.area| > 0 && page > 0 && Do(s, page, step).Some? && !Do(s, page, step).value.pc.Faulted?
    requires step.PrintEntry? || step.EndChain? || step.ReadSize?
    ensures StepsLeft(s) == StepsLeft(Do(s, page, step).value) + 1
  {
    hide TotalWork, Work, EventOffset, Le, Current;
    assert Covers(Do(s, page, step).value, s.passed + 1) == Covers(s, s.passed + 1);
  }

  lemma AppendWork(s: State, page: nat, r: Record)
    requires Inv(s, page) && page > 0 && Do(s, page, Append(r)).Some?
    ensures StepsLeft(s) == StepsLeft(Do(s, page, Append(r)).value)
  {
    var s' := Do(s, page, Append(r)).value;
    assert s' == s.(area := s'.area, headReg := s'.headReg, appended := s.appended + [r]);
    assert !s.pc.Idle? && !s.pc.Faulted? ==> s.visible <= |s.appended|;
    assert !s.pc.Idle? && !s.pc.Faulted? && !s.pc.AtLoop? ==> s.passed < |s.appended|;
    hide *;
    AddedWork(s, s', r);
  }

  lemma AddedWork(s: State, s': State, r: Record)
    requires s' == s.(area := s'.area, headReg := s'.headReg, appended := s.appended + [r])
    requires !s.pc.Idle? && !s.pc.Faulted? ==> s.visible <= |s.appended|
    requires !s.pc.Idle? && !s.pc.Faulted? && !s.pc.AtLoop? ==> s.passed < |s.appended|
    ensures StepsLeft(s) == StepsLeft(s')
  {
    hide Work, TotalWork, Record.Chain;
    if !s.pc.Idle? && !s.pc.Faulted? {
      assert Covers(s', s.passed) == Covers(s, s.passed);
      assert Covers(s', s.passed + 1) == Covers(s, s.passed + 1);
    }
  }

  lemma EnterWork(s: State, page: nat)
    requires Inv(s, page) && page > 0 && Do(s, page, Enter).Some?
    ensures StepsLeft(s) == StepsLeft(Do(s, page, Enter).value) + 1
  {
    hide Buffered, PrintedSoFar, NoneCutSoFar, Position, Reg, Record.Chain, AllChained, EventOffset;
    BoundaryRegisters(s, page, s.visible);
    assert Covers(s, s.passed)[0] == Current(s);
    assert Covers(s, s.passed)[1..] == Covers(s, s.passed + 1);
  }

  lemma ReadTypeWork(s: State, page: nat)
    requires Inv(s, page) && page > 0 && Do(s, page, ReadType).Some?
    requires !Do(s, page, ReadType).value.pc.Faulted?
    ensures StepsLeft(s) == StepsLeft(Do(s, page, ReadType).value) + 1
  {
    hide RecordAt, PrintedSoFar, NoneCutSoFar, Position, Offset, Reg, Le, Unroll, EncodeAll, TotalSize,
         Record.Valid, Record.Chain, EventOffset, PageSize, AllValid, AllChained, TotalWork;
    BoundaryRegisters(s, page, s.passed);
    CurrentRecord(s, page);
    StoredFields(s.area, CurrentOffset(s), Current(s));
    hide Buffered;
    var s' := Do(s, page, ReadType).value;
    assert Current(s') == Current(s) && Covers(s', s.passed + 1) == Covers(s, s.passed + 1);
  }

  /** The size read for a callchain sample is that of its chain. */
  lemma NrRead(s: State, page: nat)
    requires Inv(s, page) && page > 0 && AllChained(s.appended) && s.pc.AtNr?
    ensures var nr := Word(s.area, EventOffset(s.tailReg, page) + 8);
      nr.Some? ==> nr.value == |Current(s).Chain()|
  {
    assert Current(s).IsSample();
    BoundaryRegisters(s, page, s.passed);
    CurrentRecord(s, page);
    assert Current(s).Chained();
    hide Inv, Buffered, AllChained, Record.Valid, Record.Chained, Record.Chain, RecordAt, Le, EventOffset, Offset,
         Position;
    SampleWords(s.area, CurrentOffset(s), Current(s));
  }

  lemma ReadNrWork(s: State, page: nat)
    requires Inv(s, page) && page > 0 && AllChained(s.appended) && Do(s, page, ReadNr).Some?
    requires !Do(s, page, ReadNr).value.pc.Faulted?
    ensures StepsLeft(s) == StepsLeft(Do(s, page, ReadNr).value) + 1
  {
    ReadNrEffect(s, page);
    hide *;
    NrRead(s, page);
    ReadNrLeaves(s, Do(s, page, ReadNr).value, |Current(s).Chain()|);
  }

  lemma ReadNrEffect(s: State, page: nat)
    requires page > 0 && |s.area| > 0 && Do(s, page, ReadNr).Some? && !Do(s, page, ReadNr).value.pc.Faulted?
    ensures var nr := Word(s.area, EventOffset(s.tailReg, page) + 8);
      && s.pc.AtNr? && nr.Some?
      && Do(s, page, ReadNr).value == s.(pc := InChain(s.pc.head, nr.value, 1), lines := s.lines + [SizeLine(nr.value)])
  {
    hide Word, EventOffset;
  }

  lemma ReadNrLeaves(s: State, s': State, nr: nat)
    requires s.pc.AtNr? && s' == s.(pc := InChain(s.pc.head, nr, 1), lines := s.lines + [SizeLine(nr)])
    requires nr == |Current(s).Chain()|
    ensures StepsLeft(s) == StepsLeft(s') + 1
  {
    hide TotalWork, Work, Record.Chain;
    assert Covers(s', s.passed + 1) == Covers(s, s.passed + 1);
  }

  lemma StoreWork(s: State, page: nat)
    requires Inv(s, page) && page > 0 && Do(s, page, Store).Some?
    ensures StepsLeft(s) == StepsLeft(Do(s, page, Store).value) + 1
  {
    StoreEffect(s, page);
    assert s.pc.AtStore?;
    hide Inv, TotalWork, Do, Position, Reg, Work, Current;
    assert Covers(Do(s, page, Store).value, s.passed + 1) == Covers(s, s.passed + 1);
  }

  function ConsumerSteps(steps: seq<Step>): nat {
    if steps == [] then 0 else (if steps[0].Append? then 0 else 1) + ConsumerSteps(steps[1..])
  }

  /** Steps without a new snapshot keep the snapshot, and records are only added. */
  lemma {:induction false} RunKeepsSnapshot(s: State, page: nat, steps: seq<Step>)
    requires page > 0 && |s.area| > 0 && Run(s, page, steps).Some? && Load !in steps
    ensures var e := Run(s, page, steps).value;
      && |e.area| == |s.area| && e.start == s.start && e.visible == s.visible && s.appended <= e.appended
      && s.passed <= e.passed
    decreases |steps|
  {
    if steps != [] {
      RunKeepsSnapshot(Do(s, page, steps[0]).value, page, steps[1..]);
      hide Run, Write, EventOffset, AddU64, Used, Le, Word, Record.Valid, Record.Size, Record.Encode;
    }
  }

  /** From a reachable state, what is left of a drain takes a number of consumer steps fixed
      by the callchain records its snapshot covers, however the producer's steps fall among
      them. */
  lemma DrainLength(e: State, page: nat, steps: seq<Step>)
    requires page > 0 && Reachable(e, page) && |e.area| > 0 && Run(e, page, steps).Some?
    requires Load !in steps && !Run(e, page, steps).value.pc.Faulted?
    requires AllChained(Run(e, page, steps).value.appended)
    ensures StepsLeft(e) == ConsumerSteps(steps) + StepsLeft(Run(e, page, steps).value)
  {
    ReachableInv(e, page);
    hide Inv, Reachable;
    StepsCounted(e, page, steps);
  }

  lemma {:induction false} StepsCounted(s: State, page: nat, steps: seq<Step>)
    requires Inv(s, page) && page > 0 && Run(s, page, steps).Some?
    requires Load !in steps && !Run(s, page, steps).value.pc.Faulted?
    requires AllChained(Run(s, page, steps).value.appended)
    ensures !s.pc.Faulted?
    ensures StepsLeft(s) == ConsumerSteps(steps) + StepsLeft(Run(s, page, steps).value)
    decreases |steps|
  {
    RunKeepsSnapshot(s, page, steps);
    ChainedPrefix(s.appended, Run(s, page, steps).value.appended);
    hide Buffered, Covered, PrintedSoFar, NoneCutSoFar, StepsLeft, AllChained;
    if steps != [] {
      var next := Do(s, page, steps[0]).value;
      StepKeepsInv(s, page, steps[0]);
      StepsCounted(next, page, steps[1..]);
      StepsLeftStep(s, page, steps[0]);
    }
  }

  // ---------- A drain by steps is a drain of records ----------

  /** The records up to the end of the snapshot. */
  function Snapshot(s: State): seq<Record> {
    if s.visible <= |s.appended| then s.appended[..s.visible] else s.appended
  }

  lemma PrefixCuts(rs: seq<Record>, pos: nat, n: nat, m: nat, k: nat)
    requires k < m <= |rs| && n > 0
    ensures CutAt(rs[..m], pos, n, k) == CutAt(rs, pos, n, k)
    ensures rs[..m][k] == rs[k] && OffsetOf(rs[..m], pos, n, k) == OffsetOf(rs, pos, n, k)
  {
    assert rs[..m][..k] == rs[..k];
  }

  lemma PrefixStops(rs: seq<Record>, pos: nat, n: nat, m: nat, k: nat, fault: bool)
    requires n > 0 && k <= m <= |rs|
    requires forall j :: 0 <= j < k ==> !CutAt(rs, pos, n, j)
    requires if fault then k < m && CutAt(rs, pos, n, k) else k == m
    ensures StopsAt(rs[..m], pos, n, k, fault)
  {
    hide CutAt;
    forall j | 0 <= j < m ensures CutAt(rs[..m], pos, n, j) == CutAt(rs, pos, n, j) {
      PrefixCuts(rs, pos, n, m, j);
    }
  }

  /** Where a drain has ended, it has stopped among the records of its snapshot. */
  lemma EndStops(e: State, page: nat)
    requires Inv(e, page) && page > 0 && AllChained(e.appended) && (Do(e, page, Exit).Some? || e.pc.Faulted?)
    ensures e.passed <= e.visible <= |e.appended|
    ensures StopsAt(Snapshot(e), e.start, |e.area|, e.passed, e.pc.Faulted?)
  {
    EndIsLoopOrFault(e, page);
    hide *;
    CutsSoFar(e);
    if !e.pc.Faulted? {
      DrainReadsItsSnapshot(e, page);
    }
    PrefixStops(e.appended, e.start, |e.area|, e.visible, e.passed, e.pc.Faulted?);
    SameSnapshot(e, e);
  }

  lemma EndIsLoopOrFault(e: State, page: nat)
    requires page > 0 && |e.area| > 0 && (Do(e, page, Exit).Some? || e.pc.Faulted?)
    ensures e.pc.AtLoop? || e.pc.Faulted?
  {
    hide EventOffset;
  }

  lemma CutsSoFar(e: State)
    requires |e.area| > 0 && e.passed <= |e.appended| && Covered(e) && PrintedSoFar(e) && NoneCutSoFar(e)
    requires e.pc.AtLoop? || e.pc.Faulted?
    ensures e.passed <= e.visible <= |e.appended|
    ensures forall j :: 0 <= j < e.passed ==> !CutAt(e.appended, e.start, |e.area|, j)
    ensures e.pc.Faulted? ==> e.passed < e.visible && CutAt(e.appended, e.start, |e.area|, e.passed)
  {
    hide AllLines, Cut, RecordLines, TotalSize, Offset, Reg;
  }

  lemma EndPrinted(e: State, page: nat)
    requires Inv(e, page) && page > 0 && AllChained(e.appended) && (Do(e, page, Exit).Some? || e.pc.Faulted?)
    requires e.passed <= e.visible <= |e.appended|
    ensures e.lines == LinesTo(Snapshot(e), e.start, |e.area|, e.passed, e.pc.Faulted?)
  {
    EndIsLoopOrFault(e, page);
    hide *;
    CutsSoFar(e);
    PrintedToEnd(e);
  }

  lemma PrintedToEnd(e: State)
    requires |e.area| > 0 && e.passed <= e.visible <= |e.appended| && PrintedSoFar(e)
    requires e.pc.AtLoop? || (e.pc.Faulted? && e.passed < e.visible)
    ensures e.lines == LinesTo(Snapshot(e), e.start, |e.area|, e.passed, e.pc.Faulted?)
  {
    hide AllLines, RecordLines, Cut, TotalSize, Offset;
    if e.pc.Faulted? {
      PrefixCuts(e.appended, e.start, |e.area|, e.visible, e.passed);
    }
    assert Snapshot(e)[..e.passed] == e.appended[..e.passed];
    assert AllLines(e.appended[..e.passed]) + [] == AllLines(e.appended[..e.passed]);
  }

  lemma SnapshotValid(s: State, page: nat)
    requires Inv(s, page) && AllChained(s.appended) && s.passed <= s.visible <= |s.appended|
    ensures AllValid(Snapshot(s)[s.passed..]) && AllChained(Snapshot(s)[s.passed..])
    ensures Area(|s.area|) && Position(s, s.passed) % 8 == 0
  {
    BufferedFacts(s, page);
    hide *;
    PositionAligned(s, s.passed);
    SameSnapshot(s, s);
    StretchValid(s.appended, s.passed, s.visible);
  }

  lemma BufferedFacts(s: State, page: nat)
    requires Buffered(s, page) && |s.area| > 0
    ensures AllValid(s.appended) && Area(|s.area|) && s.start % 8 == 0 && s.passed <= |s.appended|
  {
    hide AllValid, Position, Unroll, EncodeAll, Reg, PageSize;
  }

  lemma StretchValid(rs: seq<Record>, a: nat, b: nat)
    requires AllValid(rs) && AllChained(rs) && a <= b <= |rs|
    ensures AllValid(rs[a..b]) && AllChained(rs[a..b])
  {
    hide Record.Valid, Record.Chained;
  }

  /** From a snapshot taken in a reachable state, any interleaving of the consumer's steps
      with the producer's ends the drain as the records the snapshot covers determine: the
      same lines, as many records passed, and a fault at the same one. */
  lemma DrainIsDrained(s: State, page: nat, steps: seq<Step>)
    requires page > 0 && Reachable(s, page) && s.pc.AtLoop? && |s.area| > 0 && Run(s, page, steps).Some?
    requires Load !in steps && AllChained(Run(s, page, steps).value.appended)
    requires var e := Run(s, page, steps).value;
      |e.area| > 0 && (Do(e, page, Exit).Some? || e.pc.Faulted?)
    ensures s.passed <= s.visible <= |s.appended|
    ensures
      var e := Run(s, page, steps).value;
      var d := Drained(ByRecord(|s.area|), s.appended[s.passed..s.visible], Position(s, s.passed));
      e.lines == s.lines + d.lines && e.passed == s.passed + d.passed && e.pc.Faulted? == d.fault
  {
    hide *;
    var e := Run(s, page, steps).value;
    ReachableInv(s, page);
    RunKeepsInv(s, page, steps);
    RunKeepsSnapshot(s, page, steps);
    ChainedPrefix(s.appended, e.appended);
    SnapshotLines(s, page);
    SnapshotValid(s, page);
    EndStops(e, page);
    EndPrinted(e, page);
    SameSnapshot(s, e);
    var rs, n := Snapshot(s), |s.area|;
    StopsLater(rs, s.start, n, s.passed, e.passed, e.pc.Faulted?);
    LinesLater(rs, s.start, n, s.passed, e.passed, e.pc.Faulted?);
    CutDetermines(rs[s.passed..], Position(s, s.passed), n, e.passed - s.passed, e.pc.Faulted?);
  }

  lemma SameSnapshot(s: State, e: State)
    requires s.passed <= s.visible <= |s.appended| && s.appended <= e.appended && e.visible == s.visible
    ensures Snapshot(e) == Snapshot(s) == s.appended[..s.visible] && Snapshot(s)[s.passed..] == s.appended[s.passed..s.visible]
    ensures Snapshot(s)[..s.passed] == s.appended[..s.passed]
  {
  }

  lemma SnapshotLines(s: State, page: nat)
    requires Inv(s, page) && AllChained(s.appended) && s.pc.AtLoop?
    ensures s.passed <= s.visible <= |s.appended| && s.lines == AllLines(s.appended[..s.passed])
    ensures Position(s, s.passed) == s.start + TotalSize(s.appended[..s.passed])
  {
    hide AllLines, Buffered, AllChained, NoneCutSoFar;
  }

  lemma LoadThenRun(s: State, page: nat, steps: seq<Step>)
    requires page > 0 && |s.area| > 0 && s.pc.Idle?
    ensures var s' := Do(s, page, Load);
      && s'.Some? && |s'.value.area| > 0 && s'.value.visible == |s.appended| && s'.value.appended == s.appended
      && Run(s, page, [Load] + steps) == Run(s'.value, page, steps)
  {
    assert ([Load] + steps)[0] == Load && ([Load] + steps)[1..] == steps;
    hide EventOffset;
  }

  /** A drain that begins in any reachable state and ends has passed every record appended
      when it loaded data_head, whatever was appended since; and over callchain samples
      everything printed from the start on reads back as the callchains of those records. */
  lemma WholeDrain(s: State, page: nat, steps: seq<Step>)
    requires page > 0 && Reachable(s, page) && s.pc.Idle? && |s.area| > 0
    requires Run(s, page, [Load] + steps).Some? && Load !in steps
    requires var e := Run(s, page, [Load] + steps).value; |e.area| > 0 && Do(e, page, Exit).Some?
    ensures var e := Run(s, page, [Load] + steps).value;
      && s.appended <= e.appended && e.passed == |s.appended|
      && (AllChained(e.appended) ==> ReadBack(e.lines) == Some(Chains(s.appended)))
  {
    LoadThenRun(s, page, steps);
    hide *;
    ReachableInv(s, page);
    StepKeepsInv(s, page, Load);
    var s' := Do(s, page, Load).value;
    RunKeepsInv(s', page, steps);
    RunKeepsSnapshot(s', page, steps);
    var e := Run(s', page, steps).value;
    DrainReadsItsSnapshot(e, page);
    EndIsLoopOrFault(e, page);
    InvIsSound(e, page);
    ExitPrinted(e, page);
    assert s.appended <= e.appended ==> e.appended[..|s.appended|] == s.appended;
  }

  lemma ExitPrinted(e: State, page: nat)
    requires Sound(e, page) && page > 0 && |e.area| > 0 && Do(e, page, Exit).Some?
    ensures e.passed <= |e.appended|
    ensures AllChained(e.appended) ==> ReadBack(e.lines) == Some(Chains(e.appended[..e.passed]))
  {
    hide EventOffset, AllChained, ReadBack, Chains, AllLines, Position, Used, Unroll, EncodeAll, TotalSize, CutAt;
  }

  // ---------- What can be reached ----------

  function Appends(rs: seq<Record>): (steps: seq<Step>)
    ensures |steps| == |rs|
  {
    seq(|rs|, i requires 0 <= i < |rs| => Append(rs[i]))
  }

  lemma OneAppend(s: State, page: nat, r: Record)
    requires Inv(s, page) && page > 0 && r.Valid() && Used(s) + r.Size() <= |s.area|
    ensures
      var s' := Do(s, page, Append(r));
      && s'.Some? && Inv(s'.value, page) && Used(s'.value) == Used(s) + r.Size()
      && s'.value == s.(area := s'.value.area, headReg := s'.value.headReg, appended := s.appended + [r])
  {
    AppendKeepsInv(s, page, r);
    var s' := Do(s, page, Append(r)).value;
    AppendPositions(s, s', r);
    BoundaryRegisters(s, page, s.passed);
    BoundaryRegisters(s', page, s'.passed);
    hide Inv, Used, Position, EventOffset, Offset, Write, AddU64, Record.Valid, Record.Size, Record.Encode;
  }

  /** Whatever the consumer is doing, the producer can append any valid records that fit
      the free space, and only the buffer changes. */
  lemma {:induction false} ProducerCanFill(s: State, page: nat, rs: seq<Record>)
    requires Inv(s, page) && page > 0 && AllValid(rs) && Used(s) + TotalSize(rs) <= |s.area|
    ensures
      var e := Run(s, page, Appends(rs));
      e.Some? && e.value == s.(area := e.value.area, headReg := e.value.headReg, appended := s.appended + rs)
    decreases |rs|
  {
    hide Buffered, Covered, PrintedSoFar, NoneCutSoFar, AllChained, Do, Used, Record.Valid, Record.Size;
    if rs == [] {
      assert s.appended + rs == s.appended;
    } else {
      OneAppend(s, page, rs[0]);
      var next := Do(s, page, Append(rs[0])).value;
      ProducerCanFill(next, page, rs[1..]);
      assert Appends(rs)[0] == Append(rs[0]) && Appends(rs)[1..] == Appends(rs[1..]);
      assert s.appended + rs == s.appended + [rs[0]] + rs[1..];
    }
  }
}

/** The rewriter on the text of the tracefile: it is read into lines, rewritten and written
    back, so a second rewriting meets the lines the first one's text is read as. */
module CoverageFiles {
  import opened Coverage
  import opened CoverageLaws
  import opened Text
  import opened Wrappers

  ghost function RewriteText(text: string, f: string, count: string): string {
    Concat(Rewritten(ReadLines(text), f, count))
  }

  /** The tracefile, rewritten in place. */
  class InfoFile {
    var text: string

    constructor (text: string)
      ensures this.text == text
    {
      this.text := text;
    }

    method ModifyCoverage(functionName: string, newCount: string)
      modifies this
      ensures text == RewriteText(old(text), functionName, newCount)
    {
      var lines := ReadLines(text);
      var modifiedLines := RewriteLines(lines, functionName, newCount);
      text := Concat(modifiedLines);
    }
  }

  // ---------- Rewritten lines are lines ----------

  lemma FieldsOnOneLine(line: string, first: string, second: string)
    requires IsLine(line) && line == first + "," + second
    ensures '\n' !in first && '\n' !in Strip(second)
  {
    hide Strip;
    assert first <= line[..|line| - 1];
    assert second != "" ==> second[..|second| - 1] == line[..|line| - 1][|first| + 1..];
    StripDropsLineEnd(second);
  }

  /** The name and number a line matches hold no line end. */
  lemma MatchesOnOneLine(line: string, f: string)
    requires IsLine(line)
    ensures NamesFnda(line, f) ==> '\n' !in f
    ensures DaNumber(line).Some? ==> '\n' !in DaNumber(line).value
  {
    hide Fields, Strip, NumberOf, IsLine;
    if Fields(line).Some? {
      TwoFieldsJoin(line);
      FieldsOnOneLine(line, Fields(line).value.0, Fields(line).value.1);
      if "DA:" <= line {
        DaField(line);
        NumberFree(Fields(line).value.0, '\n');
      }
    }
  }

  lemma DaField(line: string)
    requires "DA:" <= line && Fields(line).Some?
    ensures ':' in Fields(line).value.0
  {
    TagStays(line, "DA:");
  }

  lemma TwoFieldsJoin(line: string)
    requires Fields(line).Some?
    ensures line == Fields(line).value.0 + "," + Fields(line).value.1
  {
    JoinSplit(line, ',');
    var parts := Split(line, ',');
    hide Split;
    assert parts == [parts[0], parts[1]];
    assert parts[1..] == [parts[1]];
  }

  lemma NumberFree(first: string, x: char)
    requires ':' in first && x !in first
    ensures x !in NumberOf(first)
  {
    PartsFree(first, ':');
    SecondPartInside(first, ':', x);
    StripFree(Split(first, ':')[1], x);
  }

  lemma PrintedAreLines(n: string, f: string, count: string)
    requires '\n' !in count
    ensures '\n' !in f ==> IsLine(FndaLine(count, f)) && Terminated(FndaLine(count, f))
    ensures '\n' !in n ==> IsLine(DaLine(n, count)) && Terminated(DaLine(n, count))
  {
  }

  /** A line that is hit is replaced by a terminated line, if the count is on one line. */
  lemma HitIsLine(ls: seq<string>, f: string, count: string, k: nat)
    requires k < |ls| && IsLine(ls[k]) && '\n' !in count
    ensures IsLine(RewrittenLine(ls, f, count, k))
    ensures Terminated(ls[k]) ==> Terminated(RewrittenLine(ls, f, count, k))
  {
    MatchesOnOneLine(ls[k], f);
    PrintedAreLines(DaNumberOr(ls[k]), f, count);
    hide FnPending, NumberPending, DaNumber, NamesFnda, FndaLine, DaLine, IsLine, Terminated;
  }

  lemma RewrittenAreLines(ls: seq<string>, f: string, count: string)
    requires AreLines(ls) && '\n' !in count
    ensures AreLines(Rewritten(ls, f, count))
  {
    hide RewrittenLine, IsLine, Terminated;
    forall k | 0 <= k < |ls|
      ensures IsLine(Rewritten(ls, f, count)[k])
      ensures k < |ls| - 1 ==> Terminated(Rewritten(ls, f, count)[k])
    {
      HitIsLine(ls, f, count, k);
    }
  }

  // ---------- Counting line ends ----------

  lemma PrintedLineEnds(n: string, f: string, count: string)
    ensures LineEnds(FndaLine(count, f)) == LineEnds(count) + LineEnds(f) + 1
    ensures LineEnds(DaLine(n, count)) == LineEnds(n) + LineEnds(count) + 1
  {
  }

  lemma {:induction false} MoreLineEnds(ls: seq<string>, ls': seq<string>)
    requires |ls| == |ls'| && forall k :: 0 <= k < |ls| ==> LineEnds(ls[k]) <= LineEnds(ls'[k])
    ensures LineEnds(Concat(ls)) <= LineEnds(Concat(ls'))
    ensures (exists k :: 0 <= k < |ls| && LineEnds(ls[k]) < LineEnds(ls'[k])) ==>
      LineEnds(Concat(ls)) < LineEnds(Concat(ls'))
    decreases |ls|
  {
    hide LineEnds;
    if ls != [] {
      MoreLineEnds(ls[1..], ls'[1..]);
      LineEndsConcat(ls[0], Concat(ls[1..]));
      LineEndsConcat(ls'[0], Concat(ls'[1..]));
      if k :| 0 <= k < |ls| && LineEnds(ls[k]) < LineEnds(ls'[k]) {
        if k > 0 {
          assert LineEnds(ls[1..][k - 1]) < LineEnds(ls'[1..][k - 1]);
        }
      }
    }
  }

  /** A rewriting loses no line end. */
  lemma RewritingKeepsLineEnds(ls: seq<string>, f: string, count: string)
    requires AreLines(ls)
    ensures LineEnds(Concat(ls)) <= LineEnds(Concat(Rewritten(ls, f, count)))
  {
    hide LineEnds, IsLine, Terminated;
    forall k | 0 <= k < |ls| ensures LineEnds(ls[k]) <= LineEnds(Rewritten(ls, f, count)[k]) {
      LineEndsAre(ls[k]);
      RewrittenAt(ls, f, count, k);
      hide FndaHit, DaHit, FndaLine, DaLine, DaNumber;
      PrintedLineEnds(if DaHit(ls, f, k) then DaNumberOr(ls[k]) else "", f, count);
    }
    MoreLineEnds(ls, Rewritten(ls, f, count));
  }

  function DaNumberOr(line: string): string {
    if DaNumber(line).Some? then DaNumber(line).value else ""
  }

  /** A count with a line end leaves more of them than an empty count. */
  lemma CountAddsLineEnds(ls: seq<string>, f: string, count: string)
    requires !NoHit(ls, f) && '\n' in count
    ensures LineEnds(Concat(Rewritten(ls, f, ""))) < LineEnds(Concat(Rewritten(ls, f, count)))
  {
    var a, b := Rewritten(ls, f, ""), Rewritten(ls, f, count);
    LineEndsAre(count);
    assert LineEnds("") == 0;
    hide LineEnds, Rewritten;
    forall k | 0 <= k < |ls|
      ensures LineEnds(a[k]) <= LineEnds(b[k])
      ensures FndaHit(ls, f, k) || DaHit(ls, f, k) ==> LineEnds(a[k]) < LineEnds(b[k])
    {
      RewrittenAt(ls, f, "", k);
      RewrittenAt(ls, f, count, k);
      hide FnPending, NumberPending, NamesFnda, FndaLine, DaLine, DaNumber;
      PrintedLineEnds(DaNumberOr(ls[k]), f, "");
      PrintedLineEnds(DaNumberOr(ls[k]), f, count);
    }
    hide FndaHit, DaHit;
    MoreLineEnds(a, b);
  }

  // ---------- Last write wins on files ----------

  ghost predicate TextLastWins(text: string, f: string, c1: string, c2: string) {
    RewriteText(RewriteText(text, f, c1), f, c2) == RewriteText(text, f, c2)
  }

  /** With a count on one line the second rewriting meets the first one's lines. */
  lemma Reread(text: string, f: string, count: string)
    requires '\n' !in count
    ensures ReadLines(RewriteText(text, f, count)) == Rewritten(ReadLines(text), f, count)
  {
    hide AreLines, ReadLines, Rewritten;
    WriteRead(text);
    RewrittenAreLines(ReadLines(text), f, count);
    ReadWrite(Rewritten(ReadLines(text), f, count));
  }

  lemma NoHitNoChange(text: string, f: string, count: string)
    requires NoHit(ReadLines(text), f)
    ensures RewriteText(text, f, count) == text
  {
    var ls := ReadLines(text);
    WriteRead(text);
    hide ReadLines, FndaHit, DaHit;
    assert Rewritten(ls, f, count) == ls;
  }

  lemma TextLastWriteWins(text: string, f: string, c1: string, c2: string)
    requires NoHit(ReadLines(text), f) || (',' !in c1 && '\n' !in c1)
    ensures TextLastWins(text, f, c1, c2)
  {
    if NoHit(ReadLines(text), f) {
      NoHitNoChange(text, f, c1);
    } else {
      Reread(text, f, c1);
      LastWriteWins(ReadLines(text), f, c1, c2);
    }
  }

  lemma BadCountSpoils(text: string, f: string, c1: string)
    requires !NoHit(ReadLines(text), f) && (',' in c1 || '\n' in c1)
    ensures !TextLastWins(text, f, c1, "")
  {
    var ls := ReadLines(text);
    if '\n' in c1 {
      CountAddsLineEnds(ls, f, c1);
      var again := RewriteText(text, f, c1);
      WriteRead(again);
      hide ReadLines, LineEnds, AreLines, NoHit;
      RewritingKeepsLineEnds(ReadLines(again), f, "");
    } else {
      var k :| 0 <= k < |ls| && (FndaHit(ls, f, k) || DaHit(ls, f, k));
      SpoiltLineStays(ls, f, c1, k);
      hide ReadLines, Rewritten, FndaHit, DaHit;
      Reread(text, f, c1);
      Reread(RewriteText(text, f, c1), f, "");
      Reread(text, f, "");
    }
  }

  /** On a file the second of two rewritings of one function alone counts, whatever the
      second count, exactly when the first count holds neither a comma nor a line end, or
      no line is rewritten. */
  lemma TextLastWriteWinsExactly(text: string, f: string, c1: string)
    ensures (forall c2 :: TextLastWins(text, f, c1, c2)) <==>
      NoHit(ReadLines(text), f) || (',' !in c1 && '\n' !in c1)
  {
    if NoHit(ReadLines(text), f) || (',' !in c1 && '\n' !in c1) {
      forall c2 ensures TextLastWins(text, f, c1, c2) {
        TextLastWriteWins(text, f, c1, c2);
      }
    } else {
      BadCountSpoils(text, f, c1);
    }
  }

  // ---------- Two functions on files ----------

  ghost predicate TextCommute(text: string, f: string, c: string, g: string, d: string) {
    RewriteText(RewriteText(text, f, c), g, d) == RewriteText(RewriteText(text, g, d), f, c)
  }

  /** Texts of lines are the same only if the lines are. */
  lemma SameTextSameLines(a: seq<string>, b: seq<string>)
    requires AreLines(a) && AreLines(b)
    ensures Concat(a) == Concat(b) <==> a == b
  {
    hide AreLines, ReadLines, Concat;
    ReadWrite(a);
    ReadWrite(b);
  }

  /** Rewritings with counts on one line do on a file what they do on its lines. */
  lemma TextCommuteIsCommute(text: string, f: string, c: string, g: string, d: string)
    requires '\n' !in c && '\n' !in d
    ensures TextCommute(text, f, c, g, d) <==> Commute(ReadLines(text), f, c, g, d)
  {
    hide AreLines, ReadLines, Rewritten;
    var ls := ReadLines(text);
    WriteRead(text);
    Reread(text, f, c);
    Reread(text, g, d);
    RewrittenAreLines(ls, f, c);
    RewrittenAreLines(ls, g, d);
    RewrittenAreLines(Rewritten(ls, f, c), g, d);
    RewrittenAreLines(Rewritten(ls, g, d), f, c);
    SameTextSameLines(Rewritten(Rewritten(ls, f, c), g, d), Rewritten(Rewritten(ls, g, d), f, c));
  }

  /** On a file, rewritings of different functions commute if no DA record is contested,
      whatever the counts on one line. */
  lemma TextUncontestedCommute(text: string, f: string, c: string, g: string, d: string)
    requires f != g && '\n' !in c && '\n' !in d && Uncontested(ReadLines(text), f, g)
    ensures TextCommute(text, f, c, g, d)
  {
    hide ReadLines, Commute, TextCommute, Uncontested;
    TextCommuteIsCommute(text, f, c, g, d);
    UncontestedCommute(ReadLines(text), f, c, g, d);
  }

  /** On a file, rewritings of different functions with counts on one line and without
      commas commute exactly when no DA record is contested or the counts are equal. */
  lemma TextCommuteExactly(text: string, f: string, c: string, g: string, d: string)
    requires f != g && ',' !in c && ',' !in d && '\n' !in c && '\n' !in d
    ensures TextCommute(text, f, c, g, d) <==> c == d || Uncontested(ReadLines(text), f, g)
  {
    hide ReadLines, Commute, TextCommute, Uncontested;
    TextCommuteIsCommute(text, f, c, g, d);
    CommuteExactly(ReadLines(text), f, c, g, d);
  }
}

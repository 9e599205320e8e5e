/** The lcov tracefile rewriter: one pass over the lines with a flag and a pending line
    number, proved against a description of every output line by position. */
module Coverage {
  import opened Text
  import opened Wrappers

  // ---------- What one line says ----------

  /** The two fields of a line with exactly one comma. */
  function Fields(line: string): Option<(string, string)> {
    var parts := Split(line, ',');
    if |parts| == 2 then Some((parts[0], parts[1])) else None
  }

  /** The stripped text between the first and the second colon of a field. */
  function NumberOf(field: string): string
    requires ':' in field
  {
    PartsFree(field, ':');
    Strip(Split(field, ':')[1])
  }

  /** The first field of a line keeps a tag the line begins with. */
  lemma TagStays(line: string, tag: string)
    requires tag <= line && ',' !in tag && ':' in tag
    ensures tag <= Split(line, ',')[0] && ':' in Split(line, ',')[0]
  {
    SplitKeepsPrefix(line, tag, ',');
    var k :| 0 <= k < |tag| && tag[k] == ':';
    assert Split(line, ',')[0][k] == ':';
  }

  /** The line number an FN record gives for function `f`. */
  function FnNumber(line: string, f: string): Option<string> {
    if "FN:" <= line then
      TagStays(line, "FN:");
      match Fields(line)
      case Some((first, second)) => if Strip(second) == f then Some(NumberOf(first)) else None
      case None => None
    else None
  }

  /** An FNDA record that names function `f`. */
  predicate NamesFnda(line: string, f: string) {
    "FNDA:" <= line && Fields(line).Some? && Strip(Fields(line).value.1) == f
  }

  /** The line number of a DA record with two fields. */
  function DaNumber(line: string): Option<string> {
    if "DA:" <= line && Fields(line).Some? then
      TagStays(line, "DA:");
      Some(NumberOf(Fields(line).value.0))
    else None
  }

  function FndaLine(count: string, f: string): string {
    "FNDA:" + count + "," + f + "\n"
  }

  function DaLine(number: string, count: string): string {
    "DA:" + number + "," + count + "\n"
  }

  // ---------- Which lines are rewritten, by position ----------

  /** Some FN record of `f` before line `k` has no FNDA record of `f` after it yet. */
  ghost predicate FnPending(ls: seq<string>, f: string, k: nat)
    requires k <= |ls|
  {
    exists j :: 0 <= j < k && FnNumber(ls[j], f).Some? && forall i :: j < i < k ==> !NamesFnda(ls[i], f)
  }

  /** The latest FN record of `f` before line `k` gave number `n`, and no DA record with
      that number lies between the two. */
  ghost predicate NumberPending(ls: seq<string>, f: string, n: string, k: nat)
    requires k <= |ls|
  {
    exists j :: 0 <= j < k && FnNumber(ls[j], f) == Some(n)
      && forall i :: j < i < k ==> FnNumber(ls[i], f).None? && DaNumber(ls[i]) != Some(n)
  }

  ghost predicate FndaHit(ls: seq<string>, f: string, k: nat)
    requires k < |ls|
  {
    NamesFnda(ls[k], f) && FnPending(ls, f, k)
  }

  ghost predicate DaHit(ls: seq<string>, f: string, k: nat)
    requires k < |ls|
  {
    DaNumber(ls[k]).Some? && NumberPending(ls, f, DaNumber(ls[k]).value, k)
  }

  ghost function RewrittenLine(ls: seq<string>, f: string, count: string, k: nat): string
    requires k < |ls|
  {
    if FndaHit(ls, f, k) then FndaLine(count, f)
    else if DaHit(ls, f, k) then DaLine(DaNumber(ls[k]).value, count)
    else ls[k]
  }

  /** The whole file rewritten, line by line and by position only. */
  ghost function Rewritten(ls: seq<string>, f: string, count: string): (r: seq<string>)
    ensures |r| == |ls|
  {
    seq(|ls|, k requires 0 <= k < |ls| => RewrittenLine(ls, f, count, k))
  }

  // ---------- How the pending facts move with the position ----------

  lemma TagsExclude(line: string)
    ensures "FN:" <= line ==> !("FNDA:" <= line) && !("DA:" <= line)
    ensures "FNDA:" <= line ==> !("DA:" <= line)
  {
    assert "FN:" <= line ==> |line| >= 3 && line[1] == "FN:"[1] && line[2] == "FN:"[2];
    assert "FNDA:" <= line ==> |line| >= 5 && line[1] == "FNDA:"[1] && line[2] == "FNDA:"[2];
    assert "DA:" <= line ==> |line| >= 3 && line[1] == "DA:"[1];
  }

  lemma ViewsExclude(line: string, f: string, g: string)
    ensures FnNumber(line, f).Some? ==> !NamesFnda(line, g) && DaNumber(line).None?
    ensures NamesFnda(line, g) ==> DaNumber(line).None?
  {
    TagsExclude(line);
  }

  lemma NothingPendingAtStart(ls: seq<string>, f: string)
    ensures !FnPending(ls, f, 0)
    ensures forall n :: !NumberPending(ls, f, n, 0)
  {
  }

  lemma FnPendingStep(ls: seq<string>, f: string, k: nat)
    requires k < |ls|
    ensures FnPending(ls, f, k + 1) <==>
      FnNumber(ls[k], f).Some? || (FnPending(ls, f, k) && !NamesFnda(ls[k], f))
  {
  }

  lemma NumberPendingStep(ls: seq<string>, f: string, n: string, k: nat)
    requires k < |ls|
    ensures NumberPending(ls, f, n, k + 1) <==>
      if FnNumber(ls[k], f).Some? then FnNumber(ls[k], f) == Some(n)
      else NumberPending(ls, f, n, k) && DaNumber(ls[k]) != Some(n)
  {
  }

  /** At most one number is pending. */
  lemma {:induction false} OneNumberPending(ls: seq<string>, f: string, m: string, n: string, k: nat)
    requires k <= |ls| && NumberPending(ls, f, m, k) && NumberPending(ls, f, n, k)
    ensures m == n
  {
  }

  // ---------- The pass ----------

  /** What the two variables of the pass hold before line `k`. */
  ghost predicate Tracks(ls: seq<string>, f: string, k: nat, fnFound: bool, lineNumber: Option<string>)
    requires k <= |ls|
  {
    && fnFound == FnPending(ls, f, k)
    && forall n :: NumberPending(ls, f, n, k) <==> lineNumber == Some(n)
  }

  lemma TracksStep(ls: seq<string>, f: string, k: nat, fnFound: bool, lineNumber: Option<string>,
                   fnFound': bool, lineNumber': Option<string>)
    requires k < |ls| && Tracks(ls, f, k, fnFound, lineNumber)
    requires fnFound' == (FnNumber(ls[k], f).Some? || (fnFound && !NamesFnda(ls[k], f)))
    requires lineNumber' ==
      if FnNumber(ls[k], f).Some? then FnNumber(ls[k], f)
      else if lineNumber.Some? && DaNumber(ls[k]) == lineNumber then None
      else lineNumber
    ensures Tracks(ls, f, k + 1, fnFound', lineNumber')
  {
    hide FnNumber, DaNumber, NamesFnda, NumberPending, FnPending;
    FnPendingStep(ls, f, k);
    forall n ensures NumberPending(ls, f, n, k + 1) <==> lineNumber' == Some(n) {
      NumberPendingStep(ls, f, n, k);
    }
  }

  /** The line the pass puts out at `k`, from what its variables hold. */
  lemma OutputLine(ls: seq<string>, f: string, count: string, k: nat, fnFound: bool, lineNumber: Option<string>)
    requires k < |ls| && Tracks(ls, f, k, fnFound, lineNumber)
    ensures RewrittenLine(ls, f, count, k) ==
      if NamesFnda(ls[k], f) && fnFound then FndaLine(count, f)
      else if DaNumber(ls[k]).Some? && DaNumber(ls[k]) == lineNumber then DaLine(lineNumber.value, count)
      else ls[k]
  {
  }

  lemma RewrittenGrows(ls: seq<string>, f: string, count: string, k: nat)
    requires k < |ls|
    ensures Rewritten(ls, f, count)[..k + 1] == Rewritten(ls, f, count)[..k] + [RewrittenLine(ls, f, count, k)]
  {
  }

  lemma TracksStart(ls: seq<string>, f: string)
    ensures Tracks(ls, f, 0, false, None)
  {
  }

  /** The pass over the lines: the output is the by-position rewriting. */
  method RewriteLines(lines: seq<string>, functionName: string, newCount: string)
    returns (modifiedLines: seq<string>)
    ensures modifiedLines == Rewritten(lines, functionName, newCount)
  {
    hide Tracks, Split, Strip, NumberOf, Rewritten, RewrittenLine;
    modifiedLines := [];
    var fnFound := false;
    var lineNumber: Option<string> := None;
    TracksStart(lines, functionName);
    for k := 0 to |lines|
      invariant Tracks(lines, functionName, k, fnFound, lineNumber)
      invariant modifiedLines == Rewritten(lines, functionName, newCount)[..k]
    {
      var line := lines[k];
      ghost var found, number := fnFound, lineNumber;
      ViewsExclude(line, functionName, functionName);
      TagsExclude(line);
      OutputLine(lines, functionName, newCount, k, fnFound, lineNumber);
      RewrittenGrows(lines, functionName, newCount, k);
      if "FN:" <= line {
        TagStays(line, "FN:");
        var parts := Split(line, ',');
        if |parts| == 2 && Strip(parts[1]) == functionName {
          lineNumber := Some(NumberOf(parts[0]));
          fnFound := true;
        }
        modifiedLines := modifiedLines + [line];
      } else if "FNDA:" <= line && fnFound {
        var parts := Split(line, ',');
        if |parts| == 2 && Strip(parts[1]) == functionName {
          modifiedLines := modifiedLines + ["FNDA:" + newCount + "," + functionName + "\n"];
          fnFound := false;
        } else {
          modifiedLines := modifiedLines + [line];
        }
      } else if "DA:" <= line && lineNumber.Some? {
        TagStays(line, "DA:");
        var parts := Split(line, ',');
        if |parts| == 2 && NumberOf(parts[0]) == lineNumber.value {
          modifiedLines := modifiedLines + ["DA:" + lineNumber.value + "," + newCount + "\n"];
          lineNumber := None;
        } else {
          modifiedLines := modifiedLines + [line];
        }
      } else {
        modifiedLines := modifiedLines + [line];
      }
      TracksStep(lines, functionName, k, found, number, fnFound, lineNumber);
    }
  }
}

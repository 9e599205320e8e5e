/** Laws of the tracefile rewriter: what its printed lines parse back as, what repeated
    rewritings do, and how many lines a rewriting touches. */
module CoverageLaws {
  import opened Coverage
  import opened Text
  import opened Wrappers

  // ---------- Printed lines parse back ----------

  /** A name an FN or FNDA record can match: without comma or outer white space. */
  predicate Nameable(f: string) {
    ',' !in f && Strip(f) == f
  }

  /** A number an FN or DA record can give. */
  predicate Recordable(n: string) {
    ',' !in n && ':' !in n && Strip(n) == n
  }

  /** The fields of a line made of two texts with a comma between. */
  lemma FieldsOf(a: string, b: string)
    ensures Fields(a + "," + b) == if ',' !in a && ',' !in b then Some((a, b)) else None
  {
    SplitAppend(a, b, ',');
    PartsFree(a, ',');
    PartsFree(b, ',');
    if ',' !in a && ',' !in b {
      SplitWhole(a, ',');
      SplitWhole(b, ',');
    }
  }

  /** A printed FNDA line is matched by a name exactly when that is the printed name, the
      name is one that can be matched, and the count holds no comma. */
  lemma FndaReadsBack(count: string, f: string, g: string)
    ensures NamesFnda(FndaLine(count, f), g) <==> ',' !in count && ',' !in f && Strip(f) == g
    ensures FnNumber(FndaLine(count, f), g).None? && DaNumber(FndaLine(count, f)).None?
  {
    var line := FndaLine(count, f);
    assert line == ("FNDA:" + count) + "," + (f + "\n");
    FieldsOf("FNDA:" + count, f + "\n");
    StripAppend(f, '\n');
    assert "FNDA:" <= line;
    assert ',' in "FNDA:" + count <==> ',' in count;
    assert ',' in f + "\n" <==> ',' in f;
    TagsExclude(line);
  }

  /** A printed DA line gives the printed number back unless the count holds a comma. */
  lemma DaReadsBack(n: string, count: string, g: string)
    requires Recordable(n)
    ensures DaNumber(DaLine(n, count)) == if ',' in count then None else Some(n)
    ensures FnNumber(DaLine(n, count), g).None? && !NamesFnda(DaLine(n, count), g)
  {
    var line := DaLine(n, count);
    var first := "DA:" + n;
    assert line == first + "," + (count + "\n");
    FieldsOf(first, count + "\n");
    assert "DA:" <= line;
    assert ',' !in first;
    assert ',' in count + "\n" <==> ',' in count;
    TagsExclude(line);
    if ',' !in count {
      assert first == "DA" + ":" + n;
      SplitFirst("DA", n, ':');
      SplitWhole(n, ':');
      assert Split(first, ':')[1] == n;
    }
  }

  lemma NumberOfRecordable(line: string, first: string)
    requires first == Split(line, ',')[0] && ':' in first
    ensures Recordable(NumberOf(first))
  {
    PartsFree(line, ',');
    PartsFree(first, ':');
    var part := Split(first, ':')[1];
    SecondPartInside(first, ':', ',');
    hide Split;
    StripEnds(part);
    StripFree(part, ',');
    StripFree(part, ':');
  }

  /** Splitting brings no new characters into the second part. */
  lemma SecondPartInside(s: string, c: char, x: char)
    requires |Split(s, c)| >= 2 && x !in s
    ensures x !in Split(s, c)[1]
  {
  }

  lemma NameReadsBack(line: string)
    requires Fields(line).Some?
    ensures Nameable(Strip(Fields(line).value.1))
  {
    hide Split, Strip;
    PartsFree(line, ',');
    StripEnds(Split(line, ',')[1]);
    StripFree(Split(line, ',')[1], ',');
  }

  lemma NumberReadsBack(line: string, tag: string)
    requires tag <= line && ',' !in tag && ':' in tag && Fields(line).Some?
    ensures ':' in Fields(line).value.0 && Recordable(NumberOf(Fields(line).value.0))
  {
    TagStays(line, tag);
    NumberOfRecordable(line, Split(line, ',')[0]);
  }

  /** Whatever a line matches is a name or number that printed lines give back. */
  lemma MatchesReadBack(line: string, f: string)
    ensures FnNumber(line, f).Some? ==> Nameable(f) && Recordable(FnNumber(line, f).value)
    ensures NamesFnda(line, f) ==> Nameable(f)
    ensures DaNumber(line).Some? ==> Recordable(DaNumber(line).value)
  {
    hide Fields, Strip, NumberOf, Recordable, Nameable;
    if Fields(line).Some? {
      NameReadsBack(line);
      if "FN:" <= line {
        NumberReadsBack(line, "FN:");
      }
      if "DA:" <= line {
        NumberReadsBack(line, "DA:");
      }
    }
  }

  // ---------- Views of a rewritten file ----------

  ghost predicate NoHit(ls: seq<string>, f: string) {
    forall k :: 0 <= k < |ls| ==> !FndaHit(ls, f, k) && !DaHit(ls, f, k)
  }

  lemma HitFndaViews(line: string, f: string, count: string, g: string)
    requires NamesFnda(line, f)
    ensures var out := FndaLine(count, f);
      && FnNumber(out, g) == FnNumber(line, g) && DaNumber(out) == DaNumber(line)
      && NamesFnda(out, g) == (NamesFnda(line, g) && ',' !in count)
  {
    MatchesReadBack(line, f);
    ViewsExclude(line, g, f);
    FndaReadsBack(count, f, g);
    hide FndaLine, Fields, Strip, FnNumber, DaNumber;
  }

  lemma HitDaViews(line: string, f: string, count: string, g: string)
    requires DaNumber(line).Some?
    ensures var out := DaLine(DaNumber(line).value, count);
      && FnNumber(out, g) == FnNumber(line, g) && NamesFnda(out, g) == NamesFnda(line, g)
      && DaNumber(out) == if ',' in count then None else DaNumber(line)
  {
    MatchesReadBack(line, f);
    ViewsExclude(line, g, g);
    DaReadsBack(DaNumber(line).value, count, g);
    hide DaLine, FnNumber, DaNumber, NamesFnda;
  }

  /** A rewritten line says to function `g` what the line it replaces said, except that a
      count with a comma spoils the lines it is printed on. */
  lemma RewrittenViews(ls: seq<string>, f: string, count: string, k: nat, g: string)
    requires k < |ls|
    ensures var out := Rewritten(ls, f, count)[k];
      && FnNumber(out, g) == FnNumber(ls[k], g)
      && NamesFnda(out, g) == (NamesFnda(ls[k], g) && !(FndaHit(ls, f, k) && ',' in count))
      && DaNumber(out) == if DaHit(ls, f, k) && ',' in count then None else DaNumber(ls[k])
  {
    ViewsExclude(ls[k], f, f);
    hide FnPending, NumberPending, FndaLine, DaLine, FnNumber, DaNumber, NamesFnda;
    if FndaHit(ls, f, k) {
      HitFndaViews(ls[k], f, count, g);
    } else if DaHit(ls, f, k) {
      HitDaViews(ls[k], f, count, g);
    }
  }

  /** The file `ls'` says to `f` what `ls` says, except for DA records `f` never rewrites. */
  ghost predicate SameViews(ls: seq<string>, ls': seq<string>, f: string) {
    && |ls'| == |ls|
    && forall k :: 0 <= k < |ls| ==>
         && FnNumber(ls'[k], f) == FnNumber(ls[k], f)
         && NamesFnda(ls'[k], f) == NamesFnda(ls[k], f)
         && (DaNumber(ls'[k]) == DaNumber(ls[k]) || (DaNumber(ls'[k]).None? && !DaHit(ls, f, k)))
  }

  lemma {:induction false} SamePending(ls: seq<string>, ls': seq<string>, f: string, k: nat)
    requires SameViews(ls, ls', f) && k <= |ls|
    ensures FnPending(ls', f, k) == FnPending(ls, f, k)
    ensures forall n :: NumberPending(ls', f, n, k) == NumberPending(ls, f, n, k)
  {
    NothingPendingAtStart(ls, f);
    NothingPendingAtStart(ls', f);
    hide FnNumber, NamesFnda, DaNumber, FnPending, NumberPending;
    if k > 0 {
      SamePending(ls, ls', f, k - 1);
      FnPendingStep(ls, f, k - 1);
      FnPendingStep(ls', f, k - 1);
      forall n ensures NumberPending(ls', f, n, k) == NumberPending(ls, f, n, k) {
        NumberPendingStep(ls, f, n, k - 1);
        NumberPendingStep(ls', f, n, k - 1);
      }
    }
  }

  /** Files that say the same to a function are hit by it at the same lines. */
  lemma SameHits(ls: seq<string>, ls': seq<string>, f: string, k: nat)
    requires SameViews(ls, ls', f) && k < |ls|
    ensures FndaHit(ls', f, k) == FndaHit(ls, f, k)
    ensures DaHit(ls', f, k) == DaHit(ls, f, k)
    ensures DaHit(ls, f, k) ==> DaNumber(ls'[k]) == DaNumber(ls[k])
  {
    SamePending(ls, ls', f, k);
    hide FnNumber, NamesFnda, DaNumber, FnPending, NumberPending;
  }

  lemma RewrittenAt(ls: seq<string>, f: string, count: string, k: nat)
    requires k < |ls|
    ensures Rewritten(ls, f, count)[k] == RewrittenLine(ls, f, count, k)
  {
  }

  // ---------- Last write wins ----------

  /** Rewriting with `c1` and then `c2` is rewriting with `c2`. */
  ghost predicate LastWins(ls: seq<string>, f: string, c1: string, c2: string) {
    Rewritten(Rewritten(ls, f, c1), f, c2) == Rewritten(ls, f, c2)
  }

  lemma RewrittenSameViews(ls: seq<string>, f: string, count: string, g: string)
    requires ',' !in count || NoHit(ls, f)
    ensures SameViews(ls, Rewritten(ls, f, count), g)
  {
    hide FnNumber, NamesFnda, DaNumber, FndaHit, DaHit, Rewritten;
    forall k | 0 <= k < |ls|
      ensures var out := Rewritten(ls, f, count)[k];
        FnNumber(out, g) == FnNumber(ls[k], g) && NamesFnda(out, g) == NamesFnda(ls[k], g) && DaNumber(out) == DaNumber(ls[k])
    {
      RewrittenViews(ls, f, count, k, g);
    }
  }

  lemma LastWriteWins(ls: seq<string>, f: string, c1: string, c2: string)
    requires ',' !in c1 || NoHit(ls, f)
    ensures LastWins(ls, f, c1, c2)
  {
    var ls' := Rewritten(ls, f, c1);
    RewrittenSameViews(ls, f, c1, f);
    hide FnNumber, NamesFnda, DaNumber, FndaHit, DaHit, Rewritten, FndaLine, DaLine;
    forall k | 0 <= k < |ls| ensures Rewritten(ls', f, c2)[k] == Rewritten(ls, f, c2)[k] {
      SameHits(ls, ls', f, k);
      RewrittenAt(ls, f, c1, k);
      RewrittenAt(ls, f, c2, k);
      RewrittenAt(ls', f, c2, k);
    }
    assert Rewritten(ls', f, c2) == Rewritten(ls, f, c2);
  }

  /** A line spoilt by a comma in the first count is not rewritten again. */
  lemma SpoiltLineStays(ls: seq<string>, f: string, c1: string, k: nat)
    requires k < |ls| && ',' in c1 && (FndaHit(ls, f, k) || DaHit(ls, f, k))
    ensures !LastWins(ls, f, c1, "")
  {
    var ls' := Rewritten(ls, f, c1);
    RewrittenViews(ls, f, c1, k, f);
    ViewsExclude(ls[k], f, f);
    hide FnNumber, NamesFnda, DaNumber, Rewritten, FnPending, NumberPending;
    RewrittenAt(ls, f, c1, k);
    RewrittenAt(ls, f, "", k);
    RewrittenAt(ls', f, "", k);
    assert !FndaHit(ls', f, k) && !DaHit(ls', f, k);
    var n := if DaHit(ls, f, k) then DaNumber(ls[k]).value else "";
    assert |FndaLine(c1, f)| > |FndaLine("", f)| && |DaLine(n, c1)| > |DaLine(n, "")|;
  }

  /** For a file, the second of two rewritings of one function alone counts, whatever the
      second count, exactly when the first count has no comma or no line is rewritten. */
  lemma LastWriteWinsExactly(ls: seq<string>, f: string, c1: string)
    ensures (forall c2 :: LastWins(ls, f, c1, c2)) <==> (',' !in c1 || NoHit(ls, f))
  {
    if ',' !in c1 || NoHit(ls, f) {
      forall c2 ensures LastWins(ls, f, c1, c2) {
        LastWriteWins(ls, f, c1, c2);
      }
    } else {
      var k :| 0 <= k < |ls| && (FndaHit(ls, f, k) || DaHit(ls, f, k));
      SpoiltLineStays(ls, f, c1, k);
    }
  }

  // ---------- Two functions ----------

  ghost predicate Commute(ls: seq<string>, f: string, c: string, g: string, d: string) {
    Rewritten(Rewritten(ls, f, c), g, d) == Rewritten(Rewritten(ls, g, d), f, c)
  }

  /** A DA record that the rewritings of both functions would claim. */
  ghost predicate Contested(ls: seq<string>, f: string, g: string, k: nat)
    requires k < |ls|
  {
    DaHit(ls, f, k) && DaHit(ls, g, k)
  }

  ghost predicate Uncontested(ls: seq<string>, f: string, g: string) {
    forall k :: 0 <= k < |ls| ==> !Contested(ls, f, g, k)
  }

  lemma UncontestedSameViews(ls: seq<string>, f: string, c: string, g: string)
    requires f != g
    requires ',' !in c || Uncontested(ls, f, g)
    ensures SameViews(ls, Rewritten(ls, f, c), g)
  {
    hide FnNumber, DaNumber, FnPending, NumberPending, Rewritten, Fields;
    forall k | 0 <= k < |ls|
      ensures var out := Rewritten(ls, f, c)[k];
        && FnNumber(out, g) == FnNumber(ls[k], g) && NamesFnda(out, g) == NamesFnda(ls[k], g)
        && (DaNumber(out) == DaNumber(ls[k]) || (DaNumber(out).None? && !DaHit(ls, g, k)))
    {
      RewrittenViews(ls, f, c, k, g);
      assert !(NamesFnda(ls[k], g) && FndaHit(ls, f, k));
      assert !Contested(ls, f, g, k) || ',' !in c;
    }
  }

  /** What line `k` is after rewriting for `f` and then for another function `g`. */
  lemma SecondRewriting(ls: seq<string>, f: string, c: string, g: string, d: string, k: nat)
    requires k < |ls| && f != g
    requires ',' !in c || Uncontested(ls, f, g)
    ensures Rewritten(Rewritten(ls, f, c), g, d)[k] ==
      if FndaHit(ls, g, k) then FndaLine(d, g)
      else if DaHit(ls, g, k) then DaLine(DaNumber(ls[k]).value, d)
      else RewrittenLine(ls, f, c, k)
  {
    UncontestedSameViews(ls, f, c, g);
    SameHits(ls, Rewritten(ls, f, c), g, k);
    hide FnNumber, NamesFnda, DaNumber, FndaHit, DaHit, Rewritten, FndaLine, DaLine, Contested;
    RewrittenAt(ls, f, c, k);
    RewrittenAt(Rewritten(ls, f, c), g, d, k);
  }

  lemma UncontestedSymmetric(ls: seq<string>, f: string, g: string)
    ensures Uncontested(ls, f, g) ==> Uncontested(ls, g, f)
  {
    hide DaHit;
    assert forall k :: 0 <= k < |ls| ==> Contested(ls, g, f, k) == Contested(ls, f, g, k);
  }

  /** Rewritings of different functions commute if no DA record is contested, whatever the
      counts. */
  lemma UncontestedCommute(ls: seq<string>, f: string, c: string, g: string, d: string)
    requires f != g && (Uncontested(ls, f, g) || (c == d && ',' !in c))
    ensures Commute(ls, f, c, g, d)
  {
    UncontestedSymmetric(ls, f, g);
    hide DaHit, Rewritten, DaNumber;
    var fg, gf := Rewritten(Rewritten(ls, f, c), g, d), Rewritten(Rewritten(ls, g, d), f, c);
    forall k | 0 <= k < |ls| ensures fg[k] == gf[k] {
      CommuteAt(ls, f, c, g, d, k);
    }
    assert fg == gf;
  }

  /** Rewritings of different functions with counts without commas commute exactly when no
      DA record is contested or the counts are equal. */
  lemma CommuteExactly(ls: seq<string>, f: string, c: string, g: string, d: string)
    requires f != g && ',' !in c && ',' !in d
    ensures Commute(ls, f, c, g, d) <==> c == d || Uncontested(ls, f, g)
  {
    if c == d || Uncontested(ls, f, g) {
      UncontestedCommute(ls, f, c, g, d);
    } else {
      hide Contested, Rewritten, DaNumber;
      var k :| 0 <= k < |ls| && Contested(ls, f, g, k);
      CommuteAt(ls, f, c, g, d, k);
      DaLineInjective(DaNumber(ls[k]).value, c, d);
    }
  }

  lemma DaLineInjective(n: string, c: string, d: string)
    ensures DaLine(n, c) == DaLine(n, d) ==> c == d
  {
    assert DaLine(n, c)[|n| + 4..] == c + "\n" && DaLine(n, d)[|n| + 4..] == d + "\n";
    assert (c + "\n")[..|c|] == c && (d + "\n")[..|d|] == d;
  }

  lemma CommuteAt(ls: seq<string>, f: string, c: string, g: string, d: string, k: nat)
    requires k < |ls| && f != g
    requires (',' !in c && ',' !in d)
      || (Uncontested(ls, f, g) && Uncontested(ls, g, f))
    ensures Contested(ls, f, g, k) ==> DaNumber(ls[k]).Some?
    ensures Rewritten(Rewritten(ls, f, c), g, d)[k] == Rewritten(Rewritten(ls, g, d), f, c)[k] <==>
      !Contested(ls, f, g, k) || DaLine(DaNumber(ls[k]).value, c) == DaLine(DaNumber(ls[k]).value, d)
  {
    SecondRewriting(ls, f, c, g, d, k);
    SecondRewriting(ls, g, d, f, c, k);
    ViewsExclude(ls[k], f, f);
    ViewsExclude(ls[k], g, g);
    hide FnNumber, DaNumber, FnPending, NumberPending, Rewritten, FndaLine, DaLine, Fields;
  }

  /** No record is contested if no number recorded for one function is for the other. */
  lemma DisjointNumbersUncontested(ls: seq<string>, f: string, g: string)
    requires forall i, j :: 0 <= i < |ls| && 0 <= j < |ls| && FnNumber(ls[i], f).Some? ==>
      FnNumber(ls[i], f) != FnNumber(ls[j], g)
    ensures Uncontested(ls, f, g)
  {
  }

  // ---------- Files on which the laws fail ----------

  function FnLine(n: string, f: string): string {
    "FN:" + n + "," + f + "\n"
  }

  lemma FnNumberOf(n: string)
    requires Recordable(n)
    ensures ':' in "FN:" + n && NumberOf("FN:" + n) == n
  {
    var first := "FN:" + n;
    assert first[2] == ':';
    assert first == "FN" + ":" + n;
    SplitFirst("FN", n, ':');
    SplitWhole(n, ':');
  }

  lemma FnReadsBack(n: string, f: string, g: string)
    requires Recordable(n) && Nameable(f)
    ensures FnNumber(FnLine(n, f), g) == if g == f then Some(n) else None
    ensures DaNumber(FnLine(n, f)).None? && !NamesFnda(FnLine(n, f), g)
  {
    var line, first := FnLine(n, f), "FN:" + n;
    assert line == first + "," + (f + "\n");
    assert ',' !in first && ',' !in f + "\n" && "FN:" <= line;
    hide NumberOf, Split, Strip, Fields;
    FieldsOf(first, f + "\n");
    StripAppend(f, '\n');
    TagsExclude(line);
    FnNumberOf(n);
  }

  /** A count with a comma cannot be rewritten away. */
  lemma CommaCountFails(n: string, f: string, c0: string, c1: string)
    requires Recordable(n) && Nameable(f) && ',' !in c0 && ',' in c1
    ensures !LastWins([FnLine(n, f), FndaLine(c0, f)], f, c1, "")
  {
    FnReadsBack(n, f, f);
    FndaReadsBack(c0, f, f);
    hide FnLine, FndaLine, FnNumber, NamesFnda, DaNumber, LastWins, Nameable, Recordable;
    var ls := [FnLine(n, f), FndaLine(c0, f)];
    assert FnNumber(ls[0], f).Some?;
    assert FnPending(ls, f, 1);
    SpoiltLineStays(ls, f, c1, 1);
  }

  lemma ContestedHit(ls: seq<string>, f: string, n: string)
    requires |ls| == 3 && DaNumber(ls[2]) == Some(n)
    requires || FnNumber(ls[1], f) == Some(n)
      || (FnNumber(ls[0], f) == Some(n) && FnNumber(ls[1], f).None? && DaNumber(ls[1]).None?)
    ensures DaHit(ls, f, 2)
  {
  }

  lemma SharedLineContested(n: string, f: string, g: string, c0: string)
    requires Recordable(n) && Nameable(f) && Nameable(g) && f != g && ',' !in c0
    ensures !Uncontested([FnLine(n, f), FnLine(n, g), DaLine(n, c0)], f, g)
  {
    FnReadsBack(n, f, f);
    FnReadsBack(n, g, f);
    FnReadsBack(n, g, g);
    DaReadsBack(n, c0, f);
    hide FnLine, DaLine, FnNumber, DaNumber, NamesFnda, DaHit, Uncontested, Strip;
    var ls := [FnLine(n, f), FnLine(n, g), DaLine(n, c0)];
    ContestedHit(ls, f, n);
    ContestedHit(ls, g, n);
    OneContested(ls, f, g, 2);
  }

  /** Two functions recorded at one line contest its DA record, so the order matters. */
  lemma ContestedFails(n: string, f: string, g: string, c0: string, c: string, d: string)
    requires Recordable(n) && Nameable(f) && Nameable(g) && f != g
    requires ',' !in c0 && ',' !in c && ',' !in d && c != d
    ensures !Commute([FnLine(n, f), FnLine(n, g), DaLine(n, c0)], f, c, g, d)
  {
    hide FnLine, DaLine, Uncontested, Commute, Strip;
    SharedLineContested(n, f, g, c0);
    CommuteExactly([FnLine(n, f), FnLine(n, g), DaLine(n, c0)], f, c, g, d);
  }

  lemma OneContested(ls: seq<string>, f: string, g: string, k: nat)
    requires k < |ls| && DaHit(ls, f, k) && DaHit(ls, g, k)
    ensures !Uncontested(ls, f, g)
  {
    assert Contested(ls, f, g, k);
  }
}

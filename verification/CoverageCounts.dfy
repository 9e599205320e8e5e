/** What a rewriting conserves: positions, record kinds, and a balance between FN records
    and rewritten records. */
module CoverageCounts {
  import opened Coverage
  import opened CoverageLaws
  import opened Text
  import opened Wrappers

  datatype Kind = Fn | Fnda | Da | Other

  function KindOf(line: string): Kind {
    if "FN:" <= line then Fn else if "FNDA:" <= line then Fnda else if "DA:" <= line then Da else Other
  }

  lemma PrintedKinds(n: string, f: string, count: string)
    ensures KindOf(FndaLine(count, f)) == Fnda && KindOf(DaLine(n, count)) == Da
  {
    var fnda, da := FndaLine(count, f), DaLine(n, count);
    assert "FNDA:" <= fnda && "DA:" <= da;
    TagsExclude(fnda);
    TagsExclude(da);
  }

  /** Every line keeps its position and record kind, and changes only if it is hit. */
  lemma LinesKeepKind(ls: seq<string>, f: string, count: string, k: nat)
    requires k < |ls|
    ensures |Rewritten(ls, f, count)| == |ls|
    ensures KindOf(Rewritten(ls, f, count)[k]) == KindOf(ls[k])
    ensures Rewritten(ls, f, count)[k] != ls[k] ==> FndaHit(ls, f, k) || DaHit(ls, f, k)
  {
    TagsExclude(ls[k]);
    PrintedKinds(if DaNumber(ls[k]).Some? then DaNumber(ls[k]).value else "", f, count);
    hide FndaLine, DaLine, FnPending, NumberPending, Fields, NumberOf, Strip;
  }

  // ---------- Counts over the first k lines ----------

  /** FN records of `f`. */
  function FnRecords(ls: seq<string>, f: string, k: nat): nat
    requires k <= |ls|
  {
    if k == 0 then 0 else FnRecords(ls, f, k - 1) + if FnNumber(ls[k - 1], f).Some? then 1 else 0
  }

  /** FNDA records rewritten. */
  ghost function FndaRewrites(ls: seq<string>, f: string, k: nat): nat
    requires k <= |ls|
  {
    if k == 0 then 0 else FndaRewrites(ls, f, k - 1) + if FndaHit(ls, f, k - 1) then 1 else 0
  }

  /** DA records rewritten. */
  ghost function DaRewrites(ls: seq<string>, f: string, k: nat): nat
    requires k <= |ls|
  {
    if k == 0 then 0 else DaRewrites(ls, f, k - 1) + if DaHit(ls, f, k - 1) then 1 else 0
  }

  /** FN records of `f` met while the flag of an earlier one still stands. */
  ghost function FlagsMerged(ls: seq<string>, f: string, k: nat): nat
    requires k <= |ls|
  {
    if k == 0 then 0
    else FlagsMerged(ls, f, k - 1) + if FnNumber(ls[k - 1], f).Some? && FnPending(ls, f, k - 1) then 1 else 0
  }

  ghost predicate SomeNumberPending(ls: seq<string>, f: string, k: nat)
    requires k <= |ls|
  {
    exists n :: NumberPending(ls, f, n, k)
  }

  /** FN records of `f` met while the number of an earlier one is still pending. */
  ghost function NumbersReplaced(ls: seq<string>, f: string, k: nat): nat
    requires k <= |ls|
  {
    if k == 0 then 0
    else NumbersReplaced(ls, f, k - 1) + if FnNumber(ls[k - 1], f).Some? && SomeNumberPending(ls, f, k - 1) then 1 else 0
  }

  /** At every prefix each FN record has led to one rewritten FNDA record, to the flag that
      still stands, or was merged with a flag that stood already. */
  lemma {:induction false} FndaBalance(ls: seq<string>, f: string, k: nat)
    requires k <= |ls|
    ensures FnRecords(ls, f, k) ==
      FndaRewrites(ls, f, k) + (if FnPending(ls, f, k) then 1 else 0) + FlagsMerged(ls, f, k)
  {
    NothingPendingAtStart(ls, f);
    hide FnPending, FnNumber, NamesFnda;
    if k > 0 {
      FndaBalance(ls, f, k - 1);
      FnPendingStep(ls, f, k - 1);
      ViewsExclude(ls[k - 1], f, f);
    }
  }

  lemma SomeNumberStep(ls: seq<string>, f: string, k: nat)
    requires k < |ls|
    ensures SomeNumberPending(ls, f, k + 1) <==>
      FnNumber(ls[k], f).Some? || (SomeNumberPending(ls, f, k) && !DaHit(ls, f, k))
    ensures DaHit(ls, f, k) ==> SomeNumberPending(ls, f, k) && FnNumber(ls[k], f).None?
  {
    ViewsExclude(ls[k], f, f);
    hide FnNumber, DaNumber, NumberPending;
    if FnNumber(ls[k], f).Some? {
      NumberPendingStep(ls, f, FnNumber(ls[k], f).value, k);
    } else if SomeNumberPending(ls, f, k) {
      var n :| NumberPending(ls, f, n, k);
      NumberPendingStep(ls, f, n, k);
      if SomeNumberPending(ls, f, k + 1) {
        var m :| NumberPending(ls, f, m, k + 1);
        NumberPendingStep(ls, f, m, k);
        OneNumberPending(ls, f, m, n, k);
        if DaHit(ls, f, k) {
          OneNumberPending(ls, f, DaNumber(ls[k]).value, n, k);
        }
      }
    } else if SomeNumberPending(ls, f, k + 1) {
      var m :| NumberPending(ls, f, m, k + 1);
      NumberPendingStep(ls, f, m, k);
    }
  }

  /** Likewise for line numbers and DA records. */
  lemma {:induction false} DaBalance(ls: seq<string>, f: string, k: nat)
    requires k <= |ls|
    ensures FnRecords(ls, f, k) ==
      DaRewrites(ls, f, k) + (if SomeNumberPending(ls, f, k) then 1 else 0) + NumbersReplaced(ls, f, k)
  {
    NothingPendingAtStart(ls, f);
    hide FnNumber, DaNumber, DaHit, NumberPending;
    if k > 0 {
      DaBalance(ls, f, k - 1);
      SomeNumberStep(ls, f, k - 1);
      hide SomeNumberPending;
    }
  }
}

/** What the lines of a tracefile say, character by character, and what a rewriting makes of
    the records of one function. */
module CoverageRecords {
  import opened Coverage
  import opened CoverageFiles
  import opened CoverageLaws
  import opened Text
  import opened Wrappers

  // ---------- What a line says ----------

  /** A line has two fields exactly if it is two texts without commas around one comma. */
  lemma FieldsExactly(line: string, first: string, second: string)
    ensures Fields(line) == Some((first, second)) <==>
      line == first + "," + second && ',' !in first && ',' !in second
  {
    FieldsOf(first, second);
    if Fields(line) == Some((first, second)) {
      PartsFree(line, ',');
      JoinSplit(line, ',');
      var parts := Split(line, ',');
      hide Split;
      assert parts == [first, second] && parts[1..] == [second];
    }
  }

  /** The number of a field is what stands between its first two colons. */
  lemma NumberBetween(tag: string, num: string, more: string)
    requires ':' !in tag && ':' !in num && (more == "" || more[0] == ':')
    ensures var field := tag + ":" + num + more;
      ':' in field && NumberOf(field) == Strip(num)
  {
    var field := tag + ":" + num + more;
    assert field == tag + [':'] + (num + more);
    assert field[|tag|] == ':';
    SplitFirst(tag, num + more, ':');
    if more == "" {
      assert num + more == num;
      SplitWhole(num, ':');
    } else {
      assert num + more == num + [':'] + more[1..];
      SplitFirst(num, more[1..], ':');
    }
    hide Split, Strip;
    assert NumberOf(field) == Strip(num);
  }

  /** An FN record of two fields gives the stripped text after its tag, up to a second colon
      if there is one, to the function that its second field, stripped, names. */
  lemma FnRecord(num: string, more: string, name: string, f: string)
    requires ',' !in num && ',' !in more && ',' !in name && ':' !in num && (more == "" || more[0] == ':')
    ensures FnNumber("FN:" + num + more + "," + name, f) == if Strip(name) == f then Some(Strip(num)) else None
  {
    var line := "FN:" + num + more + "," + name;
    assert "FN:" <= line;
    assert "FN:" + num + more == "FN" + ":" + num + more;
    NumberBetween("FN", num, more);
    FieldsExactly(line, "FN:" + num + more, name);
    hide NumberOf, Fields, Strip;
  }

  /** An FNDA record of two fields names the function its second field, stripped, is. */
  lemma FndaRecord(count: string, name: string, f: string)
    requires ',' !in count && ',' !in name
    ensures NamesFnda("FNDA:" + count + "," + name, f) <==> Strip(name) == f
  {
    var line := "FNDA:" + count + "," + name;
    assert "FNDA:" <= line;
    FieldsExactly(line, "FNDA:" + count, name);
    hide Fields, Strip;
  }

  /** A DA record of two fields gives the stripped text after its tag, up to a second colon. */
  lemma DaRecord(num: string, more: string, count: string)
    requires ',' !in num && ',' !in more && ',' !in count && ':' !in num && (more == "" || more[0] == ':')
    ensures DaNumber("DA:" + num + more + "," + count) == Some(Strip(num))
  {
    var line := "DA:" + num + more + "," + count;
    assert "DA:" <= line;
    assert "DA:" + num + more == "DA" + ":" + num + more;
    NumberBetween("DA", num, more);
    FieldsExactly(line, "DA:" + num + more, count);
    hide NumberOf, Fields, Strip;
  }

  /** Only lines that begin with the tag and have exactly one comma say anything. */
  lemma OtherLines(line: string, f: string)
    ensures FnNumber(line, f).Some? ==> "FN:" <= line
    ensures NamesFnda(line, f) ==> "FNDA:" <= line
    ensures DaNumber(line).Some? ==> "DA:" <= line
    ensures FnNumber(line, f).Some? || NamesFnda(line, f) || DaNumber(line).Some? ==>
      exists first: string, second: string :: line == first + "," + second && ',' !in first && ',' !in second
  {
    if Fields(line).Some? {
      FieldsExactly(line, Fields(line).value.0, Fields(line).value.1);
    }
    hide Fields, NumberOf, Strip;
  }

  // ---------- The count in the rewritten lines ----------

  /** A rewritten record carries the count, and nothing else of it changes; without commas
      the count is its first field less the tag, or its second less the line end. */
  lemma HitCarriesCount(ls: seq<string>, f: string, count: string, k: nat)
    requires k < |ls|
    ensures var out := Rewritten(ls, f, count)[k];
      && (FndaHit(ls, f, k) ==> out == "FNDA:" + count + "," + f + "\n")
      && (FndaHit(ls, f, k) && ',' !in count ==> Fields(out) == Some(("FNDA:" + count, f + "\n")))
      && (DaHit(ls, f, k) ==> out == "DA:" + DaNumber(ls[k]).value + "," + count + "\n")
      && (DaHit(ls, f, k) && ',' !in count ==> Fields(out) == Some(("DA:" + DaNumber(ls[k]).value, count + "\n")))
      && (!FndaHit(ls, f, k) && !DaHit(ls, f, k) ==> out == ls[k])
  {
    RewrittenAt(ls, f, count, k);
    ViewsExclude(ls[k], f, f);
    MatchesReadBack(ls[k], f);
    hide FnPending, NumberPending, FnNumber, Rewritten, Strip, Split;
    FieldsExactly("FNDA:" + count + "," + (f + "\n"), "FNDA:" + count, f + "\n");
    if DaHit(ls, f, k) {
      var n := DaNumber(ls[k]).value;
      FieldsExactly("DA:" + n + "," + (count + "\n"), "DA:" + n, count + "\n");
      assert "DA:" + n + "," + (count + "\n") == "DA:" + n + "," + count + "\n";
    }
    assert "FNDA:" + count + "," + (f + "\n") == "FNDA:" + count + "," + f + "\n";
  }

  // ---------- One function's records ----------

  /** The records of one function, with a second DA record of its line. */
  ghost predicate OwnRecords(ls: seq<string>, n: string, f: string, c0: string, c1: string, c2: string) {
    && |ls| == 4 && Recordable(n) && Nameable(f) && ',' !in c0 && ',' !in c1 && ',' !in c2
    && ls[0] == FnLine(n, f) && ls[1] == FndaLine(c0, f) && ls[2] == DaLine(n, c1) && ls[3] == DaLine(n, c2)
  }

  lemma OwnViews(ls: seq<string>, n: string, f: string, c0: string, c1: string, c2: string)
    requires OwnRecords(ls, n, f, c0, c1, c2)
    ensures |ls| == 4
    ensures FnNumber(ls[0], f) == Some(n) && FnNumber(ls[1], f).None? && FnNumber(ls[2], f).None? && FnNumber(ls[3], f).None?
    ensures !NamesFnda(ls[0], f) && NamesFnda(ls[1], f) && !NamesFnda(ls[2], f) && !NamesFnda(ls[3], f)
    ensures DaNumber(ls[0]).None? && DaNumber(ls[1]).None? && DaNumber(ls[2]) == Some(n) && DaNumber(ls[3]) == Some(n)
  {
    hide FnLine, FndaLine, DaLine, FnNumber, NamesFnda, DaNumber;
    FnReadsBack(n, f, f);
    FndaReadsBack(c0, f, f);
    DaReadsBack(n, c1, f);
    DaReadsBack(n, c2, f);
  }

  lemma OwnHits(ls: seq<string>, n: string, f: string)
    requires |ls| == 4
    requires FnNumber(ls[0], f) == Some(n) && FnNumber(ls[1], f).None? && FnNumber(ls[2], f).None? && FnNumber(ls[3], f).None?
    requires !NamesFnda(ls[0], f) && NamesFnda(ls[1], f) && !NamesFnda(ls[2], f) && !NamesFnda(ls[3], f)
    requires DaNumber(ls[0]).None? && DaNumber(ls[1]).None? && DaNumber(ls[2]) == Some(n) && DaNumber(ls[3]) == Some(n)
    ensures !FndaHit(ls, f, 0) && FndaHit(ls, f, 1) && !FndaHit(ls, f, 2) && !FndaHit(ls, f, 3)
    ensures !DaHit(ls, f, 0) && !DaHit(ls, f, 1) && DaHit(ls, f, 2) && !DaHit(ls, f, 3)
  {
    hide FnNumber, NamesFnda, DaNumber;
    assert FnPending(ls, f, 1);
    assert NumberPending(ls, f, n, 2);
  }

  lemma OwnRewritten(ls: seq<string>, n: string, f: string, c0: string, c1: string, c2: string, count: string)
    requires OwnRecords(ls, n, f, c0, c1, c2)
    ensures |ls| == 4
    ensures Rewritten(ls, f, count) == [ls[0], "FNDA:" + count + "," + f + "\n", "DA:" + n + "," + count + "\n", ls[3]]
  {
    OwnViews(ls, n, f, c0, c1, c2);
    hide OwnRecords, Rewritten, FndaHit, DaHit, FnNumber, NamesFnda, DaNumber;
    OwnHits(ls, n, f);
    HitCarriesCount(ls, f, count, 0);
    HitCarriesCount(ls, f, count, 1);
    HitCarriesCount(ls, f, count, 2);
    HitCarriesCount(ls, f, count, 3);
  }

  lemma OwnLines(n: string, f: string, c0: string, c1: string, c2: string)
    requires Recordable(n) && Nameable(f) && ',' !in c0 && ',' !in c1 && ',' !in c2
    ensures OwnRecords(["FN:" + n + "," + f + "\n", "FNDA:" + c0 + "," + f + "\n", "DA:" + n + "," + c1 + "\n",
                        "DA:" + n + "," + c2 + "\n"], n, f, c0, c1, c2)
  {
    hide Recordable, Nameable;
  }

  /** A name or number whose ends are characters from '!' to '~' is one that records match. */
  lemma PlainNames(s: string)
    requires s != "" && '!' <= s[0] <= '~' && '!' <= s[|s| - 1] <= '~' && ',' !in s
    ensures Nameable(s) && (':' !in s ==> Recordable(s))
  {
    assert "" + s + "" == s;
    StripsToVisible("", s, "");
  }

  lemma OneLine(body: string)
    requires '\n' !in body
    ensures IsLine(body + "\n") && Terminated(body + "\n")
  {
    assert (body + "\n")[..|body|] == body;
  }

  lemma OwnAreLines(n: string, f: string, c0: string, c1: string, c2: string)
    requires '\n' !in n && '\n' !in f && '\n' !in c0 && '\n' !in c1 && '\n' !in c2
    ensures AreLines(["FN:" + n + "," + f + "\n", "FNDA:" + c0 + "," + f + "\n", "DA:" + n + "," + c1 + "\n",
                      "DA:" + n + "," + c2 + "\n"])
  {
    hide IsLine, Terminated;
    OneLine("FN:" + n + "," + f);
    OneLine("FNDA:" + c0 + "," + f);
    OneLine("DA:" + n + "," + c1);
    OneLine("DA:" + n + "," + c2);
  }

  /** On the tracefile of one function with two DA records of its line, the count is written
      into the FNDA record and into the first DA record, and everything else stays. */
  lemma OneFunctionsFile(n: string, f: string, c0: string, c1: string, c2: string, count: string)
    requires n != "" && '!' <= n[0] <= '~' && '!' <= n[|n| - 1] <= '~' && ',' !in n && ':' !in n && '\n' !in n
    requires f != "" && '!' <= f[0] <= '~' && '!' <= f[|f| - 1] <= '~' && ',' !in f && '\n' !in f
    requires ',' !in c0 && ',' !in c1 && ',' !in c2 && '\n' !in c0 && '\n' !in c1 && '\n' !in c2
    ensures
      var before := ["FN:" + n + "," + f + "\n", "FNDA:" + c0 + "," + f + "\n", "DA:" + n + "," + c1 + "\n",
                     "DA:" + n + "," + c2 + "\n"];
      var after := ["FN:" + n + "," + f + "\n", "FNDA:" + count + "," + f + "\n", "DA:" + n + "," + count + "\n",
                    "DA:" + n + "," + c2 + "\n"];
      Rewritten(before, f, count) == after && RewriteText(Concat(before), f, count) == Concat(after)
  {
    PlainNames(n);
    PlainNames(f);
    var before := ["FN:" + n + "," + f + "\n", "FNDA:" + c0 + "," + f + "\n", "DA:" + n + "," + c1 + "\n",
                   "DA:" + n + "," + c2 + "\n"];
    hide ReadLines, Concat, Rewritten, Recordable, Nameable, AreLines;
    OwnLines(n, f, c0, c1, c2);
    OwnRewritten(before, n, f, c0, c1, c2, count);
    OwnAreLines(n, f, c0, c1, c2);
    ReadWrite(before);
  }
}

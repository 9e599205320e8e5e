/** What whole runs of the script do. */
module ReconcilerLaws {
  import opened DatFile
  import opened Reconciler
  import opened ResultSearch
  import opened Seqs
  import opened TestNames
  import opened Text
  import opened Wrappers

  // ---------- Which tests are run ----------

  /** The tests of the commands that are not second runs, in order. */
  function FirstRuns(commands: seq<Command>): seq<string> {
    if commands == [] then []
    else
      var n := |commands| - 1;
      FirstRuns(commands[..n]) + if commands[n].retry then [] else [commands[n].test]
  }

  /** The names of the tests from `from` up to but not including `to`. */
  function Names(cfg: Config, from: nat, to: nat): (names: seq<string>)
    requires from <= to
    ensures |names| == to - from
  {
    seq(to - from, i requires 0 <= i < to - from => FullFunction(cfg.functionName, from + i))
  }

  lemma FirstRunsAdd(commands: seq<Command>, c: Command)
    ensures FirstRuns(commands + [c]) == FirstRuns(commands) + if c.retry then [] else [c.test]
  {
  }

  lemma {:induction false} EditsRunNothing(cfg: Config, s: State, pattern: string, n: nat)
    requires n <= |cfg.xmls|
    ensures AllEdited(cfg, s, pattern, n).commands == s.commands
  {
    hide HasTest;
    if n > 0 {
      EditsRunNothing(cfg, s, pattern, n - 1);
    }
  }

  lemma TestedRunsOnce(s: State, run: Runner, test: string)
    ensures FirstRuns(Tested(s, run, test).state.commands) == FirstRuns(s.commands) + [test]
  {
    hide TrueValueOf, RepairedLines, Split, FirstRuns;
    FirstRunsAdd(s.commands, Command(test, false));
    var once := s.commands + [Command(test, false)];
    FirstRunsAdd(once, Command(test, true));
    assert FirstRuns(once) + [] == FirstRuns(once);
  }

  /** The state in which test `index` has been edited for and run. */
  function AfterTest(cfg: Config, run: Runner, s: State, index: nat): Result {
    var pattern, test := Pattern(cfg.functionName, index), FullFunction(cfg.functionName, index);
    Tested(AllEdited(cfg, s, pattern, |cfg.xmls|), run, test)
  }

  lemma OneTest(cfg: Config, run: Runner, s: State, index: nat)
    requires Found(cfg, index)
    ensures index < Limit(cfg)
    ensures Reconciled(cfg, run, s, index) ==
      match AfterTest(cfg, run, s, index)
      case Crashed(s') => End(s', true, index)
      case Alive(s') => Reconciled(cfg, run, s', index + 1)
    ensures FirstRuns(AfterTest(cfg, run, s, index).state.commands)
         == FirstRuns(s.commands) + [FullFunction(cfg.functionName, index)]
  {
    FoundBound(cfg, index);
    hide Found, Limit, FirstRuns, AllEdited, Tested;
    var pattern := Pattern(cfg.functionName, index);
    EditsRunNothing(cfg, s, pattern, |cfg.xmls|);
    TestedRunsOnce(AllEdited(cfg, s, pattern, |cfg.xmls|), run, FullFunction(cfg.functionName, index));
  }

  /** The first index whose test the loop does not run to its end and past. */
  function RunUpTo(e: End): nat {
    if e.crashed then e.index + 1 else e.index
  }

  /** The loop runs each test of the gapless stretch of existing tests from `index` on
      exactly once in order, and ends at the first test that does not exist, or at the test
      whose repair crashes the script. */
  lemma {:induction false} RunsGaplessStretch(cfg: Config, run: Runner, s: State, index: nat)
    ensures var e := Reconciled(cfg, run, s, index);
      && index <= e.index && (forall i :: index <= i < e.index ==> Found(cfg, i))
      && e.crashed == Found(cfg, e.index)
      && FirstRuns(e.state.commands) == FirstRuns(s.commands) + Names(cfg, index, RunUpTo(e))
    decreases if index < Limit(cfg) then Limit(cfg) - index else 0
  {
    hide Found, FirstRuns, Limit, AfterTest, FullFunction;
    if !Found(cfg, index) {
      assert Reconciled(cfg, run, s, index) == End(s, false, index);
      assert FirstRuns(s.commands) + Names(cfg, index, index) == FirstRuns(s.commands);
    } else {
      OneTest(cfg, run, s, index);
      hide Reconciled;
      var test, after := FullFunction(cfg.functionName, index), AfterTest(cfg, run, s, index);
      if after.Crashed? {
        assert Names(cfg, index, index + 1) == [test];
      } else {
        RunsGaplessStretch(cfg, run, after.state, index + 1);
        var to := RunUpTo(Reconciled(cfg, run, s, index));
        assert Names(cfg, index, to) == [test] + Names(cfg, index + 1, to);
        Concat3(FirstRuns(s.commands), [test], Names(cfg, index + 1, to));
      }
    }
  }

  // ---------- How many tests there can be ----------

  /** A place in the XML files: file, line and column. */
  function Places(xs: seq<XmlFile>): set<(nat, nat, nat)> {
    set m: nat, k: nat, at: nat | m < |xs| && k < |xs[m].lines| && at <= |xs[m].lines[k]| :: (m, k, at)
  }

  ghost predicate PlaceOf(cfg: Config, p: (nat, nat, nat), i: nat) {
    && p in Places(cfg.xmls)
    && At(cfg.xmls[p.0].lines[p.1], p.2, Pattern(cfg.functionName, i))
  }

  lemma FoundPlace(cfg: Config, i: nat) returns (p: (nat, nat, nat))
    requires Found(cfg, i)
    ensures PlaceOf(cfg, p, i)
  {
    var pattern := Pattern(cfg.functionName, i);
    var m: nat :| m < |cfg.xmls| && HasTest(cfg.xmls[m], pattern);
    var k: nat :| k < |cfg.xmls[m].lines| && Contains(cfg.xmls[m].lines[k], pattern);
    var at: nat :| at <= |cfg.xmls[m].lines[k]| && At(cfg.xmls[m].lines[k], at, pattern);
    p := (m, k, at);
  }

  lemma {:induction false} DistinctPlaces(cfg: Config, k: nat) returns (places: set<(nat, nat, nat)>)
    requires forall i :: 1 <= i <= k ==> Found(cfg, i)
    ensures places <= Places(cfg.xmls) && |places| == k
    ensures forall p :: p in places ==> exists i: nat :: i <= k && PlaceOf(cfg, p, i)
  {
    if k == 0 {
      places := {};
    } else {
      hide Found, Places;
      var before := DistinctPlaces(cfg, k - 1);
      var p := FoundPlace(cfg, k);
      if p in before {
        var i: nat :| i <= k - 1 && PlaceOf(cfg, p, i);
        OnePatternAtPlace(cfg.xmls[p.0].lines[p.1], p.2, cfg.functionName, i, k);
        assert false;
      }
      places := before + {p};
    }
  }

  lemma SubsetSize<T>(a: set<T>, b: set<T>)
    requires a <= b
    ensures |a| <= |b|
  {
    assert b == a + (b - a);
  }

  /** Every test processed has a place of its own in the XML files, since no two indices
      are formatted alike; so no more tests are processed than there are places. */
  lemma NoMoreTestsThanPlaces(cfg: Config, run: Runner, s: State)
    ensures Reconciled(cfg, run, s, 1).index - 1 <= |Places(cfg.xmls)|
  {
    RunsGaplessStretch(cfg, run, s, 1);
    var places := DistinctPlaces(cfg, Reconciled(cfg, run, s, 1).index - 1);
    SubsetSize(places, Places(cfg.xmls));
  }

  // ---------- The edits of one test ----------

  /** The edit for a file that does not match, or has no number, changes nothing; that for the
      last matching one comes after all others. */
  lemma {:induction false} LastMatchEdited(cfg: Config, s: State, pattern: string, m: nat, n: nat)
    requires m < n <= |cfg.xmls| && HasTest(cfg.xmls[m], pattern)
    requires forall j :: m < j < n ==> !HasTest(cfg.xmls[j], pattern)
    ensures AllEdited(cfg, s, pattern, n) == FileEdited(cfg, AllEdited(cfg, s, pattern, m), cfg.xmls[m])
  {
    hide HasTest, FileEdited;
    if m + 1 < n {
      LastMatchEdited(cfg, s, pattern, m, n - 1);
    }
  }

  /** The edit for an XML file with number `id` makes that DAT file what the edit of its text
      is, keeps every other one and runs nothing; one without a number changes nothing. */
  lemma EditOfFile(cfg: Config, s: State, x: XmlFile, d: string)
    ensures var e := FileEdited(cfg, s, x);
      && e.commands == s.commands && (x.datId.None? ==> e == s)
      && (x.datId == Some(d) ==>
            (if d in e.dats then Some(e.dats[d]) else None)
            == Edited(if d in s.dats then Some(s.dats[d]) else None, x.ids, cfg.globalId, cfg.newValue))
      && (x.datId != Some(d) ==> (d in e.dats <==> d in s.dats) && (d in s.dats ==> e.dats[d] == s.dats[d]))
  {
    hide VarsAfter, Edited;
    if x.datId.Some? {
      EditKeepsFile(FileOf(s.dats, x.datId.value), x.ids, cfg.globalId, cfg.newValue);
    }
  }

  lemma EditKeepsFile(file: Option<string>, ids: Option<Ids>, globalId: string, value: string)
    ensures file.Some? ==> Edited(file, ids, globalId, value).Some?
  {
    hide Revalued, HasValue, ValueLine;
  }

  /** What the script's variables hold after the edit of a missing or an empty file and of one
      whose last line has no '%': the prefix stays that of an earlier test. */
  lemma UnmarkedVars(vars: Vars, id: string, front: string, line: string, newValue: string)
    requires front == "" || front[|front| - 1] == '\n'
    requires line != "" && '\n' !in line[..|line| - 1] && '%' !in line
    ensures VarsAfter(vars, id, None, newValue) == vars.(datId := Some(id))
    ensures VarsAfter(vars, id, Some(""), newValue) == vars.(datId := Some(id))
    ensures VarsAfter(vars, id, Some(front + line), newValue)
      == Vars(Some(id), Some(ReadLines(front) + [line]), Some(Strip(line)), vars.prefix)
  {
    TextAsLines(front, line);
    StripFree(line, '%');
    hide ReadLines, Strip, Split, LastLine;
  }

  /** After the edit of a file whose last line has a '%' they hold its edited lines, its key
      and its old last line. */
  lemma MarkedVars(vars: Vars, id: string, front: string, left: string, key: string, rest: string, newValue: string)
    requires front == "" || front[|front| - 1] == '\n'
    requires (forall c :: c in left ==> c in " \t\r") && (key == "" || '!' <= key[0] <= '~')
    requires '%' !in key && '\n' !in key && (rest == "" || '\n' !in rest[..|rest| - 1])
    ensures var marked := left + key + "%" + rest;
      VarsAfter(vars, id, Some(front + marked), newValue)
      == Vars(Some(id), Some(ReadLines(front) + [key + "%" + newValue + "\n"]), Some(Strip(marked)), Some(key))
  {
    assert BeforeLine(front);
    MarkedLine(left, key, rest);
    MarkedPrefix(left, key, rest);
    LineVars(vars, id, front, left + key + "%" + rest, key, newValue);
  }

  lemma LineVars(vars: Vars, id: string, front: string, line: string, key: string, newValue: string)
    requires BeforeLine(front) && IsLine(line) && '%' in Strip(line) && PrefixOf(line) == key
    ensures VarsAfter(vars, id, Some(front + line), newValue)
      == Vars(Some(id), Some(ReadLines(front) + [key + "%" + newValue + "\n"]), Some(Strip(line)), Some(key))
  {
    TextAsLines(front, line);
    hide ReadLines, Strip, LastLine, IsLine, BeforeLine;
    assert WithLast(ReadLines(front) + [line], ValueLine(key, newValue)) == ReadLines(front) + [ValueLine(key, newValue)];
  }

  // ---------- The repair ----------

  /** With every variable set, a failed run whose result gives a value has the file of the
      last edit rewritten: its lines with the last one replaced by the prefix and the value,
      and the test runs again. */
  lemma TestRepairs(s: State, run: Runner, test: string, id: string, kept: seq<string>, last: string,
                    lastLine: string, prefix: string)
    requires s.vars == Vars(Some(id), Some(kept + [last]), Some(lastLine), Some(prefix))
    requires !run(|s.commands|, test, s.dats).ok && RepairValue(s.vars, run(|s.commands|, test, s.dats)) != ""
    ensures var line := prefix + "%" + RepairValue(s.vars, run(|s.commands|, test, s.dats)) + "\n";
      Tested(s, run, test) == Alive(State(
        s.dats[id := Concat(kept) + line],
        Vars(Some(id), Some(kept + [line]), Some(lastLine), Some(prefix)),
        s.commands + [Command(test, false), Command(test, true)]))
  {
    var value := RepairValue(s.vars, run(|s.commands|, test, s.dats));
    var line := ValueLine(prefix, value);
    assert WithLast(kept + [last], line) == kept + [line];
    ConcatLast(kept, line);
    assert s.commands + [Command(test, false)] + [Command(test, true)]
        == s.commands + [Command(test, false), Command(test, true)];
    hide TrueValueOf, Split, Concat, WithLast;
  }

  /** What a repair does: it writes the file, or uses an unset variable. */
  datatype Repair = Wrote(text: string) | ScriptEnds

  const UNSET: Vars := Vars(None, None, None, None)

  /** The repair with the actual value `value` when the run of a test fails right after the
      edit of `file`. */
  function RepairedText(vars: Vars, id: string, file: Option<string>, newValue: string, value: string): Repair {
    var after := VarsAfter(vars, id, file, newValue);
    if after.lastLine.None? || after.datId.None? then ScriptEnds
    else match RepairedLines(after, value)
      case Some(lines) => Wrote(Concat(lines))
      case None => ScriptEnds
  }

  lemma RepairAfterValue(vars: Vars, id: string, file: Option<string>, newValue: string, value: string)
    requires HasValue(file)
    ensures RepairedText(vars, id, file, newValue, value) == Wrote(Revalued(file.value, value))
  {
    hide ReadLines, Strip, Split, Concat, ValueLine;
    var lines, prefix := ReadLines(file.value), KeyOf(file.value);
    assert WithLast(WithLast(lines, ValueLine(prefix, newValue)), ValueLine(prefix, value))
        == WithLast(lines, ValueLine(prefix, value));
  }

  lemma RepairWithoutValue(id: string, file: Option<string>, newValue: string, value: string)
    requires !HasValue(file)
    ensures RepairedText(UNSET, id, file, newValue, value) == ScriptEnds
  {
  }

  /** The repair leaves the file as one edit with the actual value would, whatever the
      variables held from earlier tests, exactly when the edit found a value in the last
      line.  Otherwise it uses lines or a prefix left over from another test; in the first
      test there are none, and the script ends. */
  lemma RepairIsEditExactly(id: string, file: Option<string>, ids: Option<Ids>, globalId: string,
                            newValue: string, value: string)
    ensures var edited := Edited(file, ids, globalId, value);
      (forall vars :: edited.Some? && RepairedText(vars, id, file, newValue, value) == Wrote(edited.value))
        <==> HasValue(file)
  {
    hide HasValue, RepairedText, Revalued;
    if HasValue(file) {
      HasValueText(file);
      forall vars ensures RepairedText(vars, id, file, newValue, value) == Wrote(Revalued(file.value, value)) {
        RepairAfterValue(vars, id, file, newValue, value);
      }
    } else {
      RepairWithoutValue(id, file, newValue, value);
    }
  }

  /** After the edit of an empty file the repair writes what an earlier test left over. */
  lemma StaleRepairFails()
    ensures var vars := Vars(Some("1"), Some(["0.1.2.3%0\n"]), Some("0.1.2.3%5"), Some("0.1.2.3"));
      && RepairedText(vars, "2", Some(""), "0", "7") == Wrote("0.1.2.3%7\n")
      && Edited(Some(""), Some(Ids("4", "5")), "6", "7") == Some("0.4.5.6%7\n")
  {
    var vars := Vars(Some("1"), Some(["0.1.2.3%0\n"]), Some("0.1.2.3%5"), Some("0.1.2.3"));
    assert ValueLine("0.1.2.3", "7") == "0.1.2.3%7\n";
    assert WithLast(vars.lines.value, "0.1.2.3%7\n") == ["0.1.2.3%7\n"];
    assert Concat(["0.1.2.3%7\n"]) == "0.1.2.3%7\n" + "" == "0.1.2.3%7\n";
    assert "" + ValueLine(Key(Ids("4", "5"), "6"), "7") == "0.4.5.6%7\n";
  }

  /** The only XML file with the pattern is the one at `m`. */
  ghost predicate OnlyMatch(cfg: Config, pattern: string, m: nat) {
    m < |cfg.xmls| && forall j :: 0 <= j < |cfg.xmls| ==> (HasTest(cfg.xmls[j], pattern) <==> j == m)
  }

  lemma {:induction false} OnlyMatchEdited(cfg: Config, s: State, pattern: string, m: nat, n: nat)
    requires OnlyMatch(cfg, pattern, m) && n <= |cfg.xmls|
    ensures AllEdited(cfg, s, pattern, n) == if m < n then FileEdited(cfg, s, cfg.xmls[m]) else s
  {
    hide HasTest, FileEdited;
    if n > 0 {
      OnlyMatchEdited(cfg, s, pattern, m, n - 1);
    }
  }

  function TextIn(dats: map<string, string>, id: string): string {
    if id in dats then dats[id] else ""
  }

  /** Why a failed run ends the script after the edit of the file of `x` from unset
      variables. */
  predicate NoRepairPossible(dats: map<string, string>, x: XmlFile, outcome: Outcome) {
    match x.datId
    case None => true
    case Some(id) =>
      var text := TextIn(dats, id);
      text == "" || (!HasValue(Some(text)) && GivesValue(outcome, id, text))
  }

  /** The result gives a value for the key in the last line of `text`. */
  predicate GivesValue(outcome: Outcome, id: string, text: string)
    requires text != ""
  {
    var value := TrueValueOf(ResultsFor(outcome, id), PrefixOf(LastLine(text)));
    value.Some? && value.value != ""
  }

  lemma UnsetRepair(s: State, id: string, file: Option<string>, newValue: string, test: string, outcome: Outcome)
    requires s.vars == VarsAfter(UNSET, id, file, newValue)
    ensures Repaired(s, test, outcome).Crashed? <==>
      file.None? || file.value == "" || (!HasValue(file) && GivesValue(outcome, id, file.value))
  {
  }

  /** From unset variables, the first test crashes the script exactly when its run fails
      and its file had no last line to take a key from, or had one without '%' and the
      result gives a value. */
  lemma FirstTestCrashes(cfg: Config, run: Runner, s: State, m: nat)
    requires s.vars == UNSET && OnlyMatch(cfg, Pattern(cfg.functionName, 1), m)
    ensures var edited := AllEdited(cfg, s, Pattern(cfg.functionName, 1), |cfg.xmls|);
      var outcome := run(|s.commands|, FullFunction(cfg.functionName, 1), edited.dats);
      AfterTest(cfg, run, s, 1).Crashed? <==> !outcome.ok && NoRepairPossible(s.dats, cfg.xmls[m], outcome)
  {
    var x := cfg.xmls[m];
    var edited, test := AllEdited(cfg, s, Pattern(cfg.functionName, 1), |cfg.xmls|), FullFunction(cfg.functionName, 1);
    OnlyMatchEdited(cfg, s, Pattern(cfg.functionName, 1), m, |cfg.xmls|);
    EditsRunNothing(cfg, s, Pattern(cfg.functionName, 1), |cfg.xmls|);
    var outcome := run(|s.commands|, test, edited.dats);
    var after := edited.(commands := edited.commands + [Command(test, false)]);
    assert x.datId.None? ==> edited.vars == UNSET;
    assert x.datId.Some? ==> edited.vars == VarsAfter(UNSET, x.datId.value, FileOf(s.dats, x.datId.value), cfg.newValue);
    hide AllEdited, FileEdited, OnlyMatch, Pattern, FullFunction, VarsAfter, GivesValue, HasValue, Split,
         TrueValueOf, RepairedLines;
    if x.datId.Some? {
      hide Repaired;
      UnsetRepair(after, x.datId.value, FileOf(s.dats, x.datId.value), cfg.newValue, test, outcome);
    }
  }

  // ---------- Once every variable is set ----------

  /** Every variable the repair uses is set. */
  predicate AllSet(vars: Vars) {
    && vars.datId.Some? && vars.lastLine.Some? && vars.prefix.Some?
    && vars.lines.Some? && vars.lines.value != []
  }

  /** An edit that finds a value sets them all, and no edit unsets one. */
  lemma EditSets(vars: Vars, id: string, file: Option<string>, newValue: string)
    requires AllSet(vars) || HasValue(file)
    ensures AllSet(VarsAfter(vars, id, file, newValue))
  {
    hide Strip, Split, ValueLine;
  }

  lemma {:induction false} EditsKeepSet(cfg: Config, s: State, pattern: string, n: nat)
    requires AllSet(s.vars) && n <= |cfg.xmls|
    ensures AllSet(AllEdited(cfg, s, pattern, n).vars)
  {
    hide HasTest, VarsAfter, Edited, WithEdit;
    if n > 0 {
      EditsKeepSet(cfg, s, pattern, n - 1);
      var before, x := AllEdited(cfg, s, pattern, n - 1), cfg.xmls[n - 1];
      if x.datId.Some? {
        EditSets(before.vars, x.datId.value, FileOf(before.dats, x.datId.value), cfg.newValue);
      }
    }
  }

  lemma TestKeepsSet(s: State, run: Runner, test: string)
    requires AllSet(s.vars)
    ensures Tested(s, run, test).Alive? && AllSet(Tested(s, run, test).state.vars)
  {
    hide TrueValueOf, Split, ValueLine, Concat;
  }

  /** From variables that are all set no run ends the script, whatever the XML files, the
      DAT files and the results are. */
  lemma {:induction false} NeverCrashesOnceSet(cfg: Config, run: Runner, s: State, index: nat)
    requires AllSet(s.vars)
    ensures !Reconciled(cfg, run, s, index).crashed
    decreases if index < Limit(cfg) then Limit(cfg) - index else 0
  {
    hide Found, Limit, FirstRuns, FullFunction, Tested, AllEdited, Pattern, AllSet;
    if Found(cfg, index) {
      OneTest(cfg, run, s, index);
      var pattern := Pattern(cfg.functionName, index);
      EditsKeepSet(cfg, s, pattern, |cfg.xmls|);
      TestKeepsSet(AllEdited(cfg, s, pattern, |cfg.xmls|), run, FullFunction(cfg.functionName, index));
      NeverCrashesOnceSet(cfg, run, AfterTest(cfg, run, s, index).state, index + 1);
    }
  }

  // ---------- Whole runs ----------

  /** The number of the DAT file of the XML file at `m`. */
  function DatId(cfg: Config, m: nat): Option<string> {
    if m < |cfg.xmls| then cfg.xmls[m].datId else None
  }

  /** Test `i` has one XML file, at `m`, whose DAT file `id` holds a value in its last line. */
  ghost predicate Tidy(cfg: Config, dats: map<string, string>, i: nat, m: nat, id: string) {
    && OnlyMatch(cfg, Pattern(cfg.functionName, i), m) && DatId(cfg, m) == Some(id)
    && id in dats && HasValue(Some(dats[id]))
  }

  /** The variables after the edit of a text that holds a value. */
  function ValueVars(id: string, text: string, newValue: string): Vars
    requires text != ""
  {
    Vars(Some(id), Some(WithLast(ReadLines(text), ValueLine(KeyOf(text), newValue))),
         Some(Strip(LastLine(text))), Some(KeyOf(text)))
  }

  lemma ValueEdited(cfg: Config, s: State, x: XmlFile, id: string)
    requires x.datId == Some(id) && id in s.dats && HasValue(Some(s.dats[id]))
    ensures FileEdited(cfg, s, x) ==
      State(s.dats[id := Revalued(s.dats[id], cfg.newValue)], ValueVars(id, s.dats[id], cfg.newValue), s.commands)
  {
  }

  lemma TidyEdit(cfg: Config, s: State, i: nat, m: nat, id: string)
    requires Tidy(cfg, s.dats, i, m, id)
    ensures AllEdited(cfg, s, Pattern(cfg.functionName, i), |cfg.xmls|) ==
      State(s.dats[id := Revalued(s.dats[id], cfg.newValue)], ValueVars(id, s.dats[id], cfg.newValue), s.commands)
  {
    assert m < |cfg.xmls| && cfg.xmls[m].datId == Some(id);
    OnlyMatchEdited(cfg, s, Pattern(cfg.functionName, i), m, |cfg.xmls|);
    hide *;
    ValueEdited(cfg, s, cfg.xmls[m], id);
  }

  /** The repair right after such an edit replaces the value in the text before it. */
  lemma ValueVarsRepair(id: string, text: string, newValue: string, value: string)
    requires text != ""
    ensures var lines := RepairedLines(ValueVars(id, text, newValue), value);
      lines.Some? && Concat(lines.value) == Revalued(text, value)
  {
    hide Strip, PrefixOf, Concat, ValueLine, ReadLines;
    var lines, key := ReadLines(text), KeyOf(text);
    assert WithLast(WithLast(lines, ValueLine(key, newValue)), ValueLine(key, value)) == WithLast(lines, ValueLine(key, value));
  }

  /** The value a test's file ends up with. */
  function Settled(outcome: Outcome, id: string, key: string, newValue: string): string {
    if outcome.ok then newValue
    else match TrueValueOf(ResultsFor(outcome, id), key)
      case Some(value) => if value == "" then newValue else value
      case None => newValue
  }

  lemma OverwriteTwice(dats: map<string, string>, id: string, a: string, b: string)
    ensures dats[id := a][id := b] == dats[id := b]
  {
  }

  lemma SameTextSameDats(dats: map<string, string>, id: string, text: string)
    requires id in dats && dats[id] == text
    ensures dats[id := text] == dats
  {
  }

  /** A file settles to the actual value exactly when its run failed and the result gives
      one. */
  lemma SettledExactly(outcome: Outcome, id: string, key: string, newValue: string)
    ensures Settled(outcome, id, key, newValue)
         == if !outcome.ok && Actual(outcome, id, key) != "" then Actual(outcome, id, key) else newValue
  {
    hide TrueValueOf;
  }

  lemma RepairSettles(s: State, test: string, outcome: Outcome, newValue: string, id: string, text: string)
    requires text != "" && id in s.dats && s.dats[id] == Revalued(text, newValue) && !outcome.ok
    requires s.vars == ValueVars(id, text, newValue)
    ensures Repaired(s, test, outcome).Alive?
    ensures Repaired(s, test, outcome).state.dats == s.dats[id := Revalued(text, Settled(outcome, id, KeyOf(text), newValue))]
  {
    assert KeyOf(text) == Split(s.vars.lastLine.value, '%')[0];
    assert s.vars.datId == Some(id) && s.vars.lastLine.Some?;
    hide Revalued, KeyOf, RepairedLines, TrueValueOf, ValueVars, Split, Concat;
    ValueVarsRepair(id, text, newValue, Settled(outcome, id, KeyOf(text), newValue));
    SameTextSameDats(s.dats, id, Revalued(text, newValue));
  }

  lemma TidyRepair(s: State, run: Runner, test: string, newValue: string, id: string, text: string)
    requires text != "" && id in s.dats && s.dats[id] == Revalued(text, newValue)
    requires s.vars == ValueVars(id, text, newValue)
    ensures var value := Settled(run(|s.commands|, test, s.dats), id, KeyOf(text), newValue);
      && Tested(s, run, test).Alive?
      && Tested(s, run, test).state.dats == s.dats[id := Revalued(text, value)]
  {
    hide Revalued, KeyOf, Repaired, ValueVars;
    var outcome := run(|s.commands|, test, s.dats);
    if outcome.ok {
      SameTextSameDats(s.dats, id, Revalued(text, newValue));
    } else {
      RepairSettles(s.(commands := s.commands + [Command(test, false)]), test, outcome, newValue, id, text);
    }
  }

  lemma ValueVarsSearch(id: string, text: string, newValue: string, outcome: Outcome)
    requires text != ""
    ensures RepairValue(ValueVars(id, text, newValue), outcome) == Actual(outcome, id, KeyOf(text))
  {
    hide Actual, Strip, Split, ReadLines, ValueLine;
  }

  /** A tidy test runs a second time exactly if its first run failed and the result gives a
      value. */
  lemma TidyTestRuns(cfg: Config, run: Runner, s: State, i: nat, m: nat, id: string)
    requires Tidy(cfg, s.dats, i, m, id)
    ensures var text, name := s.dats[id], FullFunction(cfg.functionName, i);
      var outcome := run(|s.commands|, name, s.dats[id := Revalued(text, cfg.newValue)]);
      AfterTest(cfg, run, s, i).Alive? ==>
        AfterTest(cfg, run, s, i).state.commands
          == s.commands + [Command(name, false)]
             + if !outcome.ok && Actual(outcome, id, KeyOf(text)) != "" then [Command(name, true)] else []
  {
    TidyEdit(cfg, s, i, m, id);
    assert s.dats[id] != "";
    hide AllEdited, OnlyMatch, Pattern, FullFunction, Revalued, KeyOf, ValueVars, Tested, HasValue, RepairValue, Actual;
    var text, name := s.dats[id], FullFunction(cfg.functionName, i);
    var edited := AllEdited(cfg, s, Pattern(cfg.functionName, i), |cfg.xmls|);
    TestAdds(edited, run, name);
    ValueVarsSearch(id, text, cfg.newValue, run(|s.commands|, name, edited.dats));
    assert s.commands + [Command(name, false)] + [Command(name, true)]
        == s.commands + [Command(name, false), Command(name, true)];
  }

  /** A tidy test never crashes the script; it settles its own DAT file and no other, and runs
      a second time exactly if its first run failed and the result gives a value. */
  lemma TidyTestSettles(cfg: Config, run: Runner, s: State, i: nat, m: nat, id: string)
    requires Tidy(cfg, s.dats, i, m, id)
    ensures var text, name := s.dats[id], FullFunction(cfg.functionName, i);
      var seen := s.dats[id := Revalued(text, cfg.newValue)];
      var outcome := run(|s.commands|, name, seen);
      && AfterTest(cfg, run, s, i).Alive?
      && AfterTest(cfg, run, s, i).state.dats
         == s.dats[id := Revalued(text, Settled(outcome, id, KeyOf(text), cfg.newValue))]
      && AfterTest(cfg, run, s, i).state.commands
         == s.commands + [Command(name, false)]
            + if !outcome.ok && Actual(outcome, id, KeyOf(text)) != "" then [Command(name, true)] else []
  {
    TidyTestRuns(cfg, run, s, i, m, id);
    TidyEdit(cfg, s, i, m, id);
    assert s.dats[id] != "";
    hide AllEdited, OnlyMatch, Pattern, FullFunction, Revalued, KeyOf, ValueVars, Tested, HasValue, Settled;
    var text := s.dats[id];
    var edited := AllEdited(cfg, s, Pattern(cfg.functionName, i), |cfg.xmls|);
    TidyRepair(edited, run, FullFunction(cfg.functionName, i), cfg.newValue, id, text);
    var outcome := run(|s.commands|, FullFunction(cfg.functionName, i), edited.dats);
    OverwriteTwice(s.dats, id, Revalued(text, cfg.newValue), Revalued(text, Settled(outcome, id, KeyOf(text), cfg.newValue)));
  }

  /** The tests from `index` to `last` are tidy, test `i` with the XML file at `owner(i)` and
      the DAT file `id(i)`, and no two share a DAT file. */
  ghost predicate AllTidy(cfg: Config, dats: map<string, string>, owner: nat -> nat, id: nat -> string,
                          index: nat, last: nat) {
    && (forall i: nat :: index <= i <= last ==> Tidy(cfg, dats, i, owner(i), id(i)))
    && (forall i: nat, j: nat :: index <= i < j <= last ==> id(i) != id(j))
  }

  /** The run of test `i` saw the files of the tests from `index` up to it as they are at the
      end, its own with the new value in it, and every other file as it was. */
  ghost predicate Saw(dats: map<string, string>, end: map<string, string>, id: nat -> string, newValue: string,
                      index: nat, i: nat, seen: map<string, string>) {
    && seen.Keys == dats.Keys
    && (forall j: nat :: index <= j < i ==> TextIn(seen, id(j)) == TextIn(end, id(j)))
    && TextIn(seen, id(i)) == Revalued(TextIn(dats, id(i)), newValue)
    && (forall d :: d in dats && (forall j: nat :: index <= j <= i ==> id(j) != d) ==> TextIn(seen, d) == dats[d])
  }

  /** The DAT file of test `i` ends as its old text with the value replaced once, by the
      value its first run, the command at some index `n`, settled: the new value if that run
      passed, else the actual value if its result has one. */
  ghost predicate SettledFrom(cfg: Config, run: Runner, s: State, e: State, id: nat -> string, index: nat, i: nat) {
    exists n: nat, seen: map<string, string> ::
      && |s.commands| <= n < |e.commands|
      && e.commands[n] == Command(FullFunction(cfg.functionName, i), false)
      && Saw(s.dats, e.dats, id, cfg.newValue, index, i, seen)
      && RunSettles(cfg, run(n, FullFunction(cfg.functionName, i), seen), id(i), TextIn(s.dats, id(i)), TextIn(e.dats, id(i)))
  }

  ghost predicate RunSettles(cfg: Config, outcome: Outcome, id: string, text: string, after: string) {
    after == Revalued(text, Settled(outcome, id, KeyOf(text), cfg.newValue))
  }

  /** Of the DAT files, those of the tests from `index` to `last` are settled by their own
      runs, and the others are untouched. */
  ghost predicate AllSettled(cfg: Config, run: Runner, s: State, e: State, id: nat -> string, index: nat, last: nat) {
    && e.dats.Keys == s.dats.Keys
    && (forall i: nat :: index <= i <= last ==> SettledFrom(cfg, run, s, e, id, index, i))
    && (forall d :: d in s.dats && (forall i: nat :: index <= i <= last ==> id(i) != d) ==> e.dats[d] == s.dats[d])
  }

  lemma TestAddsCommands(cfg: Config, run: Runner, s: State, index: nat)
    ensures var commands := AfterTest(cfg, run, s, index).state.commands;
      && s.commands < commands
      && commands[|s.commands|] == Command(FullFunction(cfg.functionName, index), false)
  {
    EditsRunNothing(cfg, s, Pattern(cfg.functionName, index), |cfg.xmls|);
    hide AllEdited, Pattern, FullFunction, TrueValueOf, RepairedLines, Split, Concat;
  }

  lemma {:induction false} RunAddsCommands(cfg: Config, run: Runner, s: State, index: nat)
    ensures s.commands <= Reconciled(cfg, run, s, index).state.commands
    decreases if index < Limit(cfg) then Limit(cfg) - index else 0
  {
    hide Found, Limit, FirstRuns, AfterTest, FullFunction;
    if Found(cfg, index) {
      OneTest(cfg, run, s, index);
      TestAddsCommands(cfg, run, s, index);
      if AfterTest(cfg, run, s, index).Alive? {
        RunAddsCommands(cfg, run, AfterTest(cfg, run, s, index).state, index + 1);
      }
    }
  }

  lemma TidyLater(cfg: Config, dats: map<string, string>, owner: nat -> nat, id: nat -> string,
                  index: nat, last: nat, text: string)
    requires index <= last && AllTidy(cfg, dats, owner, id, index, last)
    ensures AllTidy(cfg, dats[id(index) := text], owner, id, index + 1, last)
  {
    hide HasValue, OnlyMatch;
    forall i: nat | index + 1 <= i <= last ensures Tidy(cfg, dats[id(index) := text], i, owner(i), id(i)) {
      assert Tidy(cfg, dats, i, owner(i), id(i));
    }
  }

  /** Test `index` has turned `s` into `s'` by settling its DAT file. */
  ghost predicate OneSettled(cfg: Config, run: Runner, s: State, s': State, d: string, index: nat) {
    var name, seen := FullFunction(cfg.functionName, index), s.dats[d := Revalued(TextIn(s.dats, d), cfg.newValue)];
    && d in s.dats && s'.dats == s.dats[d := TextIn(s'.dats, d)]
    && RunSettles(cfg, run(|s.commands|, name, seen), d, s.dats[d], TextIn(s'.dats, d))
    && s.commands < s'.commands && s'.commands[|s.commands|] == Command(name, false)
  }

  lemma TidyTestSettled(cfg: Config, run: Runner, s: State, i: nat, m: nat, id: string)
    requires Tidy(cfg, s.dats, i, m, id)
    ensures AfterTest(cfg, run, s, i).Alive? && OneSettled(cfg, run, s, AfterTest(cfg, run, s, i).state, id, i)
  {
    TidyTestSettles(cfg, run, s, i, m, id);
    TestAddsCommands(cfg, run, s, i);
    hide OnlyMatch, HasValue, Pattern, FullFunction, Revalued, KeyOf, Settled, AfterTest;
  }

  /** Files that belong to none of the tests from `index + 1` on are as the first test left
      them. */
  lemma FirstSettled(cfg: Config, run: Runner, s: State, s': State, e: State, id: nat -> string, index: nat, last: nat)
    requires index <= last && OneSettled(cfg, run, s, s', id(index), index) && s'.commands <= e.commands
    requires forall j: nat :: index < j <= last ==> id(j) != id(index)
    requires AllSettled(cfg, run, s', e, id, index + 1, last)
    ensures SettledFrom(cfg, run, s, e, id, index, index)
  {
    hide SettledFrom, Revalued, RunSettles, FullFunction;
    var d, n := id(index), |s.commands|;
    var seen := s.dats[d := Revalued(TextIn(s.dats, d), cfg.newValue)];
    assert e.dats[d] == s'.dats[d];
    assert Saw(s.dats, e.dats, id, cfg.newValue, index, index, seen);
    assert e.commands[n] == s'.commands[n];
    SettledBy(cfg, run, s, e, id, index, index, n, seen);
  }

  lemma SettledBy(cfg: Config, run: Runner, s: State, e: State, id: nat -> string, index: nat, i: nat,
                  n: nat, seen: map<string, string>)
    requires |s.commands| <= n < |e.commands|
    requires e.commands[n] == Command(FullFunction(cfg.functionName, i), false)
    requires Saw(s.dats, e.dats, id, cfg.newValue, index, i, seen)
    requires RunSettles(cfg, run(n, FullFunction(cfg.functionName, i), seen), id(i), TextIn(s.dats, id(i)), TextIn(e.dats, id(i)))
    ensures SettledFrom(cfg, run, s, e, id, index, i)
  {
  }

  /** What a later test saw, told from before the first test. */
  lemma SawEarlier(dats: map<string, string>, dats': map<string, string>, end: map<string, string>, id: nat -> string,
                   newValue: string, index: nat, i: nat, seen: map<string, string>)
    requires index < i && id(index) in dats && dats' == dats[id(index) := TextIn(dats', id(index))]
    requires forall j: nat :: index < j <= i ==> id(j) != id(index)
    requires TextIn(end, id(index)) == TextIn(dats', id(index))
    requires Saw(dats', end, id, newValue, index + 1, i, seen)
    ensures Saw(dats, end, id, newValue, index, i, seen)
  {
    hide Revalued;
    assert dats'.Keys == dats.Keys;
    assert id(index) in dats';
    assert forall j: nat :: index + 1 <= j <= i ==> id(j) != id(index);
    assert TextIn(seen, id(index)) == TextIn(end, id(index));
    forall d | d in dats && (forall j: nat :: index <= j <= i ==> id(j) != d) ensures TextIn(seen, d) == dats[d] {
      assert d != id(index) && d in dats' && dats'[d] == dats[d];
    }
  }

  lemma LaterSettled(cfg: Config, run: Runner, s: State, s': State, e: State, id: nat -> string,
                     index: nat, last: nat, i: nat)
    requires index < i <= last && OneSettled(cfg, run, s, s', id(index), index)
    requires forall j: nat :: index < j <= last ==> id(j) != id(index)
    requires AllSettled(cfg, run, s', e, id, index + 1, last)
    ensures SettledFrom(cfg, run, s, e, id, index, i)
  {
    assert SettledFrom(cfg, run, s', e, id, index + 1, i);
    var n: nat, seen: map<string, string> :|
      && |s'.commands| <= n < |e.commands|
      && e.commands[n] == Command(FullFunction(cfg.functionName, i), false)
      && Saw(s'.dats, e.dats, id, cfg.newValue, index + 1, i, seen)
      && RunSettles(cfg, run(n, FullFunction(cfg.functionName, i), seen), id(i), TextIn(s'.dats, id(i)), TextIn(e.dats, id(i)));
    assert TextIn(e.dats, id(index)) == TextIn(s'.dats, id(index));
    assert TextIn(s'.dats, id(i)) == TextIn(s.dats, id(i));
    hide Saw, RunSettles, Revalued, SettledFrom, FullFunction;
    SawEarlier(s.dats, s'.dats, e.dats, id, cfg.newValue, index, i, seen);
    SettledBy(cfg, run, s, e, id, index, i, n, seen);
  }

  lemma SettledTogether(cfg: Config, run: Runner, s: State, s': State, e: State, id: nat -> string, index: nat, last: nat)
    requires index <= last && OneSettled(cfg, run, s, s', id(index), index) && s'.commands <= e.commands
    requires forall j: nat :: index < j <= last ==> id(j) != id(index)
    requires AllSettled(cfg, run, s', e, id, index + 1, last)
    ensures AllSettled(cfg, run, s, e, id, index, last)
  {
    assert s'.dats.Keys == s.dats.Keys;
    hide SettledFrom, RunSettles, FullFunction, Revalued;
    forall i: nat | index <= i <= last ensures SettledFrom(cfg, run, s, e, id, index, i) {
      if i == index {
        FirstSettled(cfg, run, s, s', e, id, index, last);
      } else {
        LaterSettled(cfg, run, s, s', e, id, index, last, i);
      }
    }
    forall d | d in s.dats && (forall i: nat :: index <= i <= last ==> id(i) != d) ensures e.dats[d] == s.dats[d] {
      assert d != id(index);
    }
  }

  /** Reconciling tidy tests never crashes: it processes all of them and ends; every test's
      DAT file is its old text revalued once by what its own run settled; and every other
      DAT file is untouched. */
  lemma {:induction false} TidyTestsSettle(cfg: Config, run: Runner, s: State, owner: nat -> nat, id: nat -> string,
                                           index: nat, last: nat)
    requires index <= last + 1 && !Found(cfg, last + 1) && AllTidy(cfg, s.dats, owner, id, index, last)
    ensures var e := Reconciled(cfg, run, s, index);
      !e.crashed && e.index == last + 1 && AllSettled(cfg, run, s, e.state, id, index, last)
    decreases last + 1 - index
  {
    if index <= last {
      assert Tidy(cfg, s.dats, index, owner(index), id(index));
      assert forall j: nat :: index < j <= last ==> id(j) != id(index);
      TidyFound(cfg, s.dats, index, owner(index), id(index));
      TidyTestSettled(cfg, run, s, index, owner(index), id(index));
      OneTest(cfg, run, s, index);
      var s' := AfterTest(cfg, run, s, index).state;
      SettledDats(cfg, run, s, s', id(index), index);
      hide Reconciled, Found, OnlyMatch, HasValue, SettledFrom, AfterTest, Revalued, AllTidy, AllSettled,
           FirstRuns, Settled, KeyOf, FullFunction, OneSettled;
      TidyLater(cfg, s.dats, owner, id, index, last, TextIn(s'.dats, id(index)));
      TidyTestsSettle(cfg, run, s', owner, id, index + 1, last);
      RunAddsCommands(cfg, run, s', index + 1);
      SettledTogether(cfg, run, s, s', Reconciled(cfg, run, s, index).state, id, index, last);
    }
  }

  lemma SettledDats(cfg: Config, run: Runner, s: State, s': State, d: string, index: nat)
    requires OneSettled(cfg, run, s, s', d, index)
    ensures s'.dats == s.dats[d := TextIn(s'.dats, d)]
  {
  }

  /** A whole run over tidy tests, told without the script's variables and its search for XML
      files: each test runs on its file with the new value; if that run fails and its result
      gives a value, the file gets that value and the test runs again. */
  function TidyRun(cfg: Config, run: Runner, id: nat -> string, dats: map<string, string>, commands: seq<Command>,
                   index: nat, last: nat): (map<string, string>, seq<Command>)
    decreases last + 1 - index
  {
    if index > last then (dats, commands)
    else
      var d, name := id(index), FullFunction(cfg.functionName, index);
      var text := TextIn(dats, d);
      var outcome := run(|commands|, name, dats[d := Revalued(text, cfg.newValue)]);
      var actual := if outcome.ok then "" else Actual(outcome, d, KeyOf(text));
      if actual == "" then
        TidyRun(cfg, run, id, dats[d := Revalued(text, cfg.newValue)], commands + [Command(name, false)], index + 1, last)
      else
        TidyRun(cfg, run, id, dats[d := Revalued(text, actual)],
                commands + [Command(name, false), Command(name, true)], index + 1, last)
  }

  lemma TidyRunStep(cfg: Config, run: Runner, s: State, id: nat -> string, m: nat, index: nat, last: nat)
    requires index <= last && Tidy(cfg, s.dats, index, m, id(index))
    ensures AfterTest(cfg, run, s, index).Alive?
    ensures var s' := AfterTest(cfg, run, s, index).state;
      && TidyRun(cfg, run, id, s.dats, s.commands, index, last)
         == TidyRun(cfg, run, id, s'.dats, s'.commands, index + 1, last)
      && s'.dats == s.dats[id(index) := TextIn(s'.dats, id(index))]
  {
    var d, name := id(index), FullFunction(cfg.functionName, index);
    var text := s.dats[d];
    var outcome := run(|s.commands|, name, s.dats[d := Revalued(text, cfg.newValue)]);
    TidyTestSettles(cfg, run, s, index, m, d);
    SettledExactly(outcome, d, KeyOf(text), cfg.newValue);
    assert s.commands + [Command(name, false)] + [] == s.commands + [Command(name, false)];
    assert s.commands + [Command(name, false)] + [Command(name, true)]
        == s.commands + [Command(name, false), Command(name, true)];
    hide AfterTest, OnlyMatch, HasValue, Pattern, FullFunction, Revalued, KeyOf, Settled, Actual;
  }

  /** Over tidy tests the script leaves exactly the files and has run exactly the commands
      that this simple run says. */
  lemma {:induction false} TidyTestsRun(cfg: Config, run: Runner, s: State, owner: nat -> nat, id: nat -> string,
                                        index: nat, last: nat)
    requires index <= last + 1 && !Found(cfg, last + 1) && AllTidy(cfg, s.dats, owner, id, index, last)
    ensures var e := Reconciled(cfg, run, s, index);
      (e.state.dats, e.state.commands) == TidyRun(cfg, run, id, s.dats, s.commands, index, last)
    decreases last + 1 - index
  {
    if index <= last {
      assert Tidy(cfg, s.dats, index, owner(index), id(index));
      TidyFound(cfg, s.dats, index, owner(index), id(index));
      TidyRunStep(cfg, run, s, id, owner(index), index, last);
      OneTest(cfg, run, s, index);
      var s' := AfterTest(cfg, run, s, index).state;
      hide Reconciled, Found, OnlyMatch, HasValue, AfterTest, Revalued, AllTidy, FirstRuns, KeyOf, FullFunction,
           TidyRun, Actual;
      TidyLater(cfg, s.dats, owner, id, index, last, TextIn(s'.dats, id(index)));
      TidyTestsRun(cfg, run, s', owner, id, index + 1, last);
    }
  }

  lemma TidyFound(cfg: Config, dats: map<string, string>, i: nat, m: nat, id: string)
    requires Tidy(cfg, dats, i, m, id)
    ensures Found(cfg, i)
  {
  }
}

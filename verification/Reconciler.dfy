/** The script that sets the expected value of every numbered test, runs the tests and
    repairs the files of those that fail, in one test directory. */
module Reconciler {
  import opened DatFile
  import opened ResultSearch
  import opened TestNames
  import opened Text
  import opened Wrappers

  /** An XML file of the directory: its lines, the number its name ends in, and the unit
      and subprogram numbers found in it. */
  datatype XmlFile = XmlFile(lines: seq<string>, datId: Option<string>, ids: Option<Ids>)

  datatype Config = Config(functionName: string, newValue: string, globalId: string, xmls: seq<XmlFile>)

  /** What a run of a test reports, and the result files that can be parsed after it. */
  datatype Outcome = Outcome(ok: bool, results: map<string, seq<CommandData>>)

  /** A test run, given how many runs there were before and the DAT files it sees. */
  type Runner = (nat, string, map<string, string>) -> Outcome

  datatype Command = Command(test: string, retry: bool)

  /** The script's variables that outlive one test; None before the first assignment. */
  datatype Vars = Vars(datId: Option<string>, lines: Option<seq<string>>, lastLine: Option<string>, prefix: Option<string>)

  /** The DAT files by number, the variables, and the commands run. */
  datatype State = State(dats: map<string, string>, vars: Vars, commands: seq<Command>)

  /** A step's result; using an unset variable ends the script. */
  datatype Result = Alive(state: State) | Crashed(state: State)

  // ---------- One test ----------

  function FileOf(dats: map<string, string>, id: string): Option<string> {
    if id in dats then Some(dats[id]) else None
  }

  /** The variables after the edit of the file `file` with number `id`. */
  function VarsAfter(vars: Vars, id: string, file: Option<string>, newValue: string): Vars {
    if file.None? || file.value == "" then vars.(datId := Some(id))
    else
      var lines, last := ReadLines(file.value), Strip(LastLine(file.value));
      if '%' !in last then vars.(datId := Some(id), lines := Some(lines), lastLine := Some(last))
      else
        var prefix := Split(last, '%')[0];
        Vars(Some(id), Some(WithLast(lines, ValueLine(prefix, newValue))), Some(last), Some(prefix))
  }

  function WithEdit(dats: map<string, string>, id: string, file: Option<string>): map<string, string> {
    match file
    case Some(text) => dats[id := text]
    case None => dats
  }

  /** The edit for one matching XML file. */
  function FileEdited(cfg: Config, s: State, x: XmlFile): State {
    match x.datId
    case None => s
    case Some(id) =>
      var file := FileOf(s.dats, id);
      s.(dats := WithEdit(s.dats, id, Edited(file, x.ids, cfg.globalId, cfg.newValue)),
         vars := VarsAfter(s.vars, id, file, cfg.newValue))
  }

  predicate HasTest(x: XmlFile, pattern: string) {
    exists k :: 0 <= k < |x.lines| && Contains(x.lines[k], pattern)
  }

  predicate Found(cfg: Config, index: nat) {
    exists m :: 0 <= m < |cfg.xmls| && HasTest(cfg.xmls[m], Pattern(cfg.functionName, index))
  }

  /** The edits for the first `n` XML files. */
  function AllEdited(cfg: Config, s: State, pattern: string, n: nat): State
    requires n <= |cfg.xmls|
  {
    if n == 0 then s
    else
      var before := AllEdited(cfg, s, pattern, n - 1);
      if HasTest(cfg.xmls[n - 1], pattern) then FileEdited(cfg, before, cfg.xmls[n - 1]) else before
  }

  function ResultsFor(outcome: Outcome, id: string): Option<seq<CommandData>> {
    if id in outcome.results then Some(outcome.results[id]) else None
  }

  /** The repair after a failed run, and the second run if there is one. */
  function Repaired(s: State, test: string, outcome: Outcome): Result {
    if s.vars.lastLine.None? || s.vars.datId.None? then Crashed(s)
    else
      var id := s.vars.datId.value;
      match TrueValueOf(ResultsFor(outcome, id), Split(s.vars.lastLine.value, '%')[0])
      case None => Alive(s)
      case Some(value) =>
        if value == "" then Alive(s)
        else match RepairedLines(s.vars, value)
          case None => Crashed(s)
          case Some(lines) =>
            Alive(State(s.dats[id := Concat(lines)], s.vars.(lines := Some(lines)), s.commands + [Command(test, true)]))
  }

  /** The lines the repair writes; none if the variables it uses are not set. */
  function RepairedLines(vars: Vars, value: string): Option<seq<string>> {
    if vars.prefix.None? || vars.lines.None? || vars.lines.value == [] then None
    else Some(WithLast(vars.lines.value, ValueLine(vars.prefix.value, value)))
  }

  /** The run of a test and the repair if it fails. */
  function Tested(s: State, run: Runner, test: string): Result {
    var outcome := run(|s.commands|, test, s.dats);
    var s' := s.(commands := s.commands + [Command(test, false)]);
    if outcome.ok then Alive(s') else Repaired(s', test, outcome)
  }

  // ---------- The numbered loop ----------

  /** How the loop ends: its state, whether the script crashed, and the last index. */
  datatype End = End(state: State, crashed: bool, index: nat)

  function Longest(xs: seq<XmlFile>): nat {
    if xs == [] then 0 else Max(LongestLine(xs[0].lines), Longest(xs[1..]))
  }

  function LongestLine(lines: seq<string>): nat {
    if lines == [] then 0 else Max(|lines[0]|, LongestLine(lines[1..]))
  }

  function Max(a: nat, b: nat): nat {
    if a < b then b else a
  }

  lemma {:induction false} LongestLineBounds(lines: seq<string>, k: nat)
    requires k < |lines|
    ensures |lines[k]| <= LongestLine(lines)
  {
    if k > 0 {
      LongestLineBounds(lines[1..], k - 1);
    }
  }

  lemma {:induction false} LongestBounds(xs: seq<XmlFile>, m: nat, k: nat)
    requires m < |xs| && k < |xs[m].lines|
    ensures |xs[m].lines[k]| <= Longest(xs)
  {
    if m == 0 {
      LongestLineBounds(xs[0].lines, k);
    } else {
      LongestBounds(xs[1..], m - 1, k);
    }
  }

  /** No index this large has a pattern short enough for any line. */
  function Limit(cfg: Config): nat {
    Pow10(Longest(cfg.xmls))
  }

  lemma FoundBound(cfg: Config, index: nat)
    requires Found(cfg, index)
    ensures index < Limit(cfg)
  {
    var pattern := Pattern(cfg.functionName, index);
    var m :| 0 <= m < |cfg.xmls| && HasTest(cfg.xmls[m], pattern);
    var k :| 0 <= k < |cfg.xmls[m].lines| && Contains(cfg.xmls[m].lines[k], pattern);
    ContainsBound(cfg.xmls[m].lines[k], cfg.functionName, index);
    LongestBounds(cfg.xmls, m, k);
    Pow10Grows(|cfg.xmls[m].lines[k]|, Longest(cfg.xmls));
  }

  /** The whole loop from an index on. */
  function Reconciled(cfg: Config, run: Runner, s: State, index: nat): End
    decreases if index < Limit(cfg) then Limit(cfg) - index else 0
  {
    if !Found(cfg, index) then End(s, false, index)
    else
      FoundBound(cfg, index);
      match Tested(AllEdited(cfg, s, Pattern(cfg.functionName, index), |cfg.xmls|), run, FullFunction(cfg.functionName, index))
      case Crashed(s') => End(s', true, index)
      case Alive(s') => Reconciled(cfg, run, s', index + 1)
  }

  /** Without a match no file is edited. */
  lemma {:induction false} NoMatchNoEdit(cfg: Config, s: State, pattern: string, n: nat)
    requires n <= |cfg.xmls| && forall m :: 0 <= m < n ==> !HasTest(cfg.xmls[m], pattern)
    ensures AllEdited(cfg, s, pattern, n) == s
  {
    if n > 0 {
      NoMatchNoEdit(cfg, s, pattern, n - 1);
    }
  }

  // ---------- What is found ----------

  /** A pattern is in some XML file exactly if a line there is a text, the pattern and a text. */
  lemma MatchExactly(cfg: Config, pattern: string)
    ensures (exists m :: 0 <= m < |cfg.xmls| && HasTest(cfg.xmls[m], pattern)) <==>
      exists m: nat, k: nat, a: string, b: string ::
        m < |cfg.xmls| && k < |cfg.xmls[m].lines| && cfg.xmls[m].lines[k] == a + pattern + b
  {
    if m: nat :| m < |cfg.xmls| && HasTest(cfg.xmls[m], pattern) {
      var k: nat :| k < |cfg.xmls[m].lines| && Contains(cfg.xmls[m].lines[k], pattern);
      ContainsExactly(cfg.xmls[m].lines[k], pattern);
    }
    if m: nat, k: nat, a: string, b: string :|
      m < |cfg.xmls| && k < |cfg.xmls[m].lines| && cfg.xmls[m].lines[k] == a + pattern + b
    {
      ContainsBetween(a, pattern, b);
      assert HasTest(cfg.xmls[m], pattern);
    }
  }

  /** A test is found exactly if a line of an XML file is a text, the test's name element and
      a text, wherever that line and that place in it are. */
  lemma FoundExactly(cfg: Config, index: nat)
    ensures Found(cfg, index) <==>
      exists m: nat, k: nat, a: string, b: string ::
        m < |cfg.xmls| && k < |cfg.xmls[m].lines|
        && cfg.xmls[m].lines[k] == a + "<name>" + cfg.functionName + "." + NumberStr(index) + "</name>" + b
  {
    var pattern := Pattern(cfg.functionName, index);
    MatchExactly(cfg, pattern);
    hide HasTest, NumberStr;
    if m: nat, k: nat, a: string, b: string :|
      m < |cfg.xmls| && k < |cfg.xmls[m].lines| && cfg.xmls[m].lines[k] == a + pattern + b
    {
      PatternBetween(a, cfg.functionName, index, b);
    }
    if m: nat, k: nat, a: string, b: string :|
      m < |cfg.xmls| && k < |cfg.xmls[m].lines|
      && cfg.xmls[m].lines[k] == a + "<name>" + cfg.functionName + "." + NumberStr(index) + "</name>" + b
    {
      PatternBetween(a, cfg.functionName, index, b);
    }
  }

  lemma PatternBetween(a: string, f: string, index: nat, b: string)
    ensures a + "<name>" + f + "." + NumberStr(index) + "</name>" + b == a + Pattern(f, index) + b
  {
    hide NumberStr;
  }

  // ---------- What one test adds ----------

  /** The actual value that a result gives for the key of a DAT file, empty if none. */
  function Actual(outcome: Outcome, id: string, key: string): string {
    match TrueValueOf(ResultsFor(outcome, id), key)
    case Some(value) => value
    case None => ""
  }

  /** The actual value a failed run is repaired with, empty if it is not. */
  function RepairValue(vars: Vars, outcome: Outcome): string {
    if vars.lastLine.None? || vars.datId.None? then ""
    else Actual(outcome, vars.datId.value, Split(vars.lastLine.value, '%')[0])
  }

  /** A test adds its first run to the commands, and its second run if and only if the first
      failed and the result gives a value; the DAT files change only then. */
  lemma TestAdds(s: State, run: Runner, test: string)
    ensures var outcome, r := run(|s.commands|, test, s.dats), Tested(s, run, test);
      && (r.Crashed? ==> r.state == s.(commands := s.commands + [Command(test, false)]))
      && (r.Alive? && !outcome.ok && RepairValue(s.vars, outcome) != "" ==>
            r.state.commands == s.commands + [Command(test, false), Command(test, true)])
      && (r.Alive? && (outcome.ok || RepairValue(s.vars, outcome) == "") ==>
            r.state == s.(commands := s.commands + [Command(test, false)]))
  {
    hide TrueValueOf, RepairedLines, Split, Concat;
    assert s.commands + [Command(test, false)] + [Command(test, true)]
        == s.commands + [Command(test, false), Command(test, true)];
  }

  /** The value for a key is the text, less blanks around it, in the last record of the
      results that has the key as its command; a result that is missing gives none. */
  lemma ActualOf(outcome: Outcome, id: string, key: string, before: seq<CommandData>, left: string, s: string, right: string)
    requires s != "" && '!' <= s[0] <= '~' && '!' <= s[|s| - 1] <= '~'
    requires forall x :: x in left + right ==> x in " \t\n\r"
    ensures ResultsFor(outcome, id) == Some(before + [CommandData(Some(key), Some(Some(left + s + right)))]) ==>
      Actual(outcome, id, key) == s
    ensures id in outcome.results ==> ResultsFor(outcome, id) == Some(outcome.results[id])
    ensures id !in outcome.results ==> Actual(outcome, id, key) == ""
  {
    OneMoreRecord(before, CommandData(Some(key), Some(Some(left + s + right))), key, left, s, right);
    hide TrueValue;
  }

  // ---------- The script ----------

  class Script {
    const cfg: Config
    const run: Runner
    var dats: map<string, string>
    var vars: Vars
    var commands: seq<Command>

    constructor (cfg: Config, run: Runner, dats: map<string, string>, vars: Vars)
      ensures this.cfg == cfg && this.run == run && Now() == State(dats, vars, [])
    {
      this.cfg, this.run, this.dats, this.vars, this.commands := cfg, run, dats, vars, [];
    }

    function Now(): State
      reads this
    {
      State(dats, vars, commands)
    }

    /** The edit of the DAT file that belongs to a matching XML file. */
    method EditDat(xml: XmlFile)
      modifies this
      ensures Now() == FileEdited(cfg, old(Now()), xml)
    {
      hide Strip, Split, ReadLines, Concat, ValueLine, Key;
      if xml.datId.None? {
        return;
      }
      var datId := xml.datId.value;
      vars := vars.(datId := Some(datId));
      if datId !in dats {
        if xml.ids.Some? {
          var newLine := ValueLine(Key(xml.ids.value, cfg.globalId), cfg.newValue);
          assert "" + newLine == newLine;
          dats := dats[datId := newLine];
        }
        return;
      }
      if dats[datId] == "" {
        if xml.ids.Some? {
          var newLine := ValueLine(Key(xml.ids.value, cfg.globalId), cfg.newValue);
          assert "" + newLine == newLine;
          dats := dats[datId := newLine];
        }
        return;
      }
      var lines := ReadLines(dats[datId]);
      var lastLine := Strip(lines[|lines| - 1]);
      if '%' !in lastLine {
        vars := vars.(lines := Some(lines), lastLine := Some(lastLine));
        if xml.ids.Some? {
          var newLine := ValueLine(Key(xml.ids.value, cfg.globalId), cfg.newValue);
          dats := dats[datId := dats[datId] + newLine];
        }
      } else {
        var prefix := Split(lastLine, '%')[0];
        lines := lines[|lines| - 1 := ValueLine(prefix, cfg.newValue)];
        vars := vars.(lines := Some(lines), lastLine := Some(lastLine), prefix := Some(prefix));
        dats := dats[datId := Concat(lines)];
      }
    }

    /** The search of every XML file for the test; each file is edited for at most once. */
    method EditMatches(pattern: string) returns (found: bool)
      modifies this
      ensures Now() == AllEdited(cfg, old(Now()), pattern, |cfg.xmls|)
      ensures found <==> exists m :: 0 <= m < |cfg.xmls| && HasTest(cfg.xmls[m], pattern)
      ensures found <==> exists m: nat, k: nat, a: string, b: string ::
        m < |cfg.xmls| && k < |cfg.xmls[m].lines| && cfg.xmls[m].lines[k] == a + pattern + b
    {
      MatchExactly(cfg, pattern);
      found := false;
      for n := 0 to |cfg.xmls|
        invariant Now() == AllEdited(cfg, old(Now()), pattern, n)
        invariant found <==> exists m :: 0 <= m < n && HasTest(cfg.xmls[m], pattern)
      {
        hide FileEdited, Contains;
        var xml := cfg.xmls[n];
        label before:
        ghost var foundBefore := found;
        var k := 0;
        while k < |xml.lines|
          invariant 0 <= k <= |xml.lines| && Now() == old@before(Now()) && found == foundBefore
          invariant forall i :: 0 <= i < k ==> !Contains(xml.lines[i], pattern)
        {
          if Contains(xml.lines[k], pattern) {
            found := true;
            EditDat(xml);
            break;
          }
          k := k + 1;
        }
      }
    }

    /** The run of a test, and the repair of its file if the run fails. */
    method RunTest(test: string) returns (crashed: bool)
      modifies this
      ensures (if crashed then Crashed(Now()) else Alive(Now())) == Tested(old(Now()), run, test)
      ensures var outcome := run(|old(commands)|, test, old(dats));
        !crashed && !outcome.ok && RepairValue(old(vars), outcome) != "" ==>
          commands == old(commands) + [Command(test, false), Command(test, true)]
      ensures var outcome := run(|old(commands)|, test, old(dats));
        !crashed && (outcome.ok || RepairValue(old(vars), outcome) == "") ==>
          commands == old(commands) + [Command(test, false)] && dats == old(dats)
    {
      TestAdds(Now(), run, test);
      crashed := false;
      var outcome := run(|commands|, test, dats);
      commands := commands + [Command(test, false)];
      if !outcome.ok {
        if vars.lastLine.None? || vars.datId.None? {
          return true;
        }
        var harnessCommandValue := Split(vars.lastLine.value, '%')[0];
        var datId := vars.datId.value;
        var trueValue := GetTrueValueFromXml(ResultsFor(outcome, datId), harnessCommandValue);
        if trueValue.Some? && trueValue.value != "" {
          if vars.prefix.None? || vars.lines.None? || vars.lines.value == [] {
            return true;
          }
          var lines := vars.lines.value;
          lines := lines[|lines| - 1 := ValueLine(vars.prefix.value, trueValue.value)];
          vars := vars.(lines := Some(lines));
          dats := dats[datId := Concat(lines)];
          commands := commands + [Command(test, true)];
        }
      }
    }

    /** The numbered loop. */
    method Reconcile() returns (crashed: bool, index: nat)
      modifies this
      ensures End(Now(), crashed, index) == Reconciled(cfg, run, old(Now()), 1)
    {
      hide AllEdited, Tested, Found, Pattern, FullFunction, Limit;
      index := 1;
      crashed := false;
      while true
        invariant index >= 1
        invariant Reconciled(cfg, run, old(Now()), 1) == Reconciled(cfg, run, Now(), index)
        decreases if index < Limit(cfg) then Limit(cfg) - index else 0
      {
        label before:
        var found := EditMatches(Pattern(cfg.functionName, index));
        FoundMeaning(cfg, index);
        if !found {
          NoMatchNoEdit(cfg, old@before(Now()), Pattern(cfg.functionName, index), |cfg.xmls|);
          return;
        }
        FoundBound(cfg, index);
        crashed := RunTest(FullFunction(cfg.functionName, index));
        if crashed {
          return;
        }
        index := index + 1;
      }
    }
  }

  lemma FoundMeaning(cfg: Config, index: nat)
    ensures Found(cfg, index) <==> exists m :: 0 <= m < |cfg.xmls| && HasTest(cfg.xmls[m], Pattern(cfg.functionName, index))
  {
  }
}

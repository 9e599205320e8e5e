/** The edit of a DAT file's last line to an expected value. */
module DatFile {
  import opened Seqs
  import opened Text
  import opened Wrappers

  /** The unit and subprogram numbers of a test's XML, when both are found. */
  datatype Ids = Ids(unit: string, subprogram: string)

  /** The key a new line begins with. */
  function Key(ids: Ids, globalId: string): string {
    "0." + ids.unit + "." + ids.subprogram + "." + globalId
  }

  function ValueLine(key: string, value: string): string {
    key + "%" + value + "\n"
  }

  /** The part of a line before its first '%', outer white space removed. */
  function PrefixOf(line: string): string {
    Split(Strip(line), '%')[0]
  }

  function LastLine(text: string): string
    requires text != ""
  {
    var lines := ReadLines(text);
    lines[|lines| - 1]
  }

  /** The lines with the last one replaced. */
  function WithLast(lines: seq<string>, line: string): seq<string>
    requires lines != []
  {
    lines[|lines| - 1 := line]
  }

  /** The last line already holds a value. */
  predicate HasValue(file: Option<string>) {
    file.Some? && file.value != "" && '%' in Strip(LastLine(file.value))
  }

  /** What the last line of a text has before its '%'. */
  function KeyOf(text: string): string {
    if text == "" then "" else PrefixOf(LastLine(text))
  }

  /** The text `text` of a DAT file with the last line's value replaced. */
  function Revalued(text: string, value: string): string {
    if text == "" then text
    else Concat(WithLast(ReadLines(text), ValueLine(KeyOf(text), value)))
  }

  /** The file after the edit: a missing or empty file gets one line, a last line without
      '%' gets the line appended to the file's text, and one with '%' is replaced. */
  function Edited(file: Option<string>, ids: Option<Ids>, globalId: string, value: string): Option<string> {
    if HasValue(file) then Some(Revalued(file.value, value))
    else match ids
      case Some(i) => Some((if file.Some? then file.value else "") + ValueLine(Key(i, globalId), value))
      case None => file
  }

  /** Whether the edit writes the file. */
  predicate Writes(file: Option<string>, ids: Option<Ids>) {
    HasValue(file) || ids.Some?
  }

  /** Numbers and index as the XML files give them: no '%' and no line end. */
  predicate PlainKey(ids: Option<Ids>, globalId: string) {
    ids.Some? ==> '%' !in Key(ids.value, globalId) && '\n' !in Key(ids.value, globalId)
  }

  // ---------- The shape of an edited file ----------

  /** The lines an edit leaves alone, whatever the value. */
  function Kept(file: Option<string>): seq<string> {
    if file.None? || file.value == "" then []
    else
      var lines := ReadLines(file.value);
      if !HasValue(file) && Terminated(LastLine(file.value)) then lines else lines[..|lines| - 1]
  }

  /** What the edited last line begins with, whatever the value. */
  function KeyAfter(file: Option<string>, ids: Option<Ids>, globalId: string): string
    requires Writes(file, ids)
  {
    if HasValue(file) then PrefixOf(LastLine(file.value))
    else if file.None? || file.value == "" || Terminated(LastLine(file.value)) then Key(ids.value, globalId)
    else LastLine(file.value) + Key(ids.value, globalId)
  }

  lemma {:induction false} ConcatAppend(a: seq<string>, b: seq<string>)
    ensures Concat(a + b) == Concat(a) + Concat(b)
  {
    if a == [] {
      assert a + b == b;
    } else {
      ConcatAppend(a[1..], b);
      assert (a + b)[1..] == a[1..] + b;
      Concat3(a[0], Concat(a[1..]), Concat(b));
    }
  }

  lemma ConcatLast(lines: seq<string>, last: string)
    ensures Concat(lines + [last]) == Concat(lines) + last
  {
    ConcatAppend(lines, [last]);
    assert [last][1..] == [];
    assert Concat([last]) == last + "" == last;
  }

  lemma TextOfLast(text: string)
    requires text != ""
    ensures var lines := ReadLines(text);
      text == Concat(lines[..|lines| - 1]) + LastLine(text) && AreLines(lines) && IsLine(LastLine(text))
  {
    var lines := ReadLines(text);
    WriteRead(text);
    hide ReadLines, IsLine;
    assert lines == lines[..|lines| - 1] + [lines[|lines| - 1]];
    ConcatLast(lines[..|lines| - 1], lines[|lines| - 1]);
  }

  lemma KeptAreTerminated(file: Option<string>)
    ensures forall k :: 0 <= k < |Kept(file)| ==> IsLine(Kept(file)[k]) && Terminated(Kept(file)[k])
  {
    if file.Some? {
      WriteRead(file.value);
    }
    hide ReadLines, IsLine, Strip;
  }

  lemma ValueLineGlue(a: string, key: string, value: string)
    ensures ValueLine(a + key, value) == a + ValueLine(key, value)
  {
  }

  /** The text before an edit: the kept lines and, if it is replaced or lengthened, the
      last line. */
  lemma TextOfKept(text: string)
    requires text != ""
    ensures text == Concat(Kept(Some(text))) + if !HasValue(Some(text)) && Terminated(LastLine(text)) then "" else LastLine(text)
  {
    TextOfLast(text);
    WriteRead(text);
    hide ReadLines, IsLine, Strip, Terminated;
    assert text + "" == text;
  }

  lemma ReplacedShape(text: string, ids: Option<Ids>, globalId: string, value: string)
    requires HasValue(Some(text))
    ensures Edited(Some(text), ids, globalId, value)
         == Some(Concat(Kept(Some(text))) + ValueLine(PrefixOf(LastLine(text)), value))
  {
    var lines := ReadLines(text);
    var line := ValueLine(PrefixOf(lines[|lines| - 1]), value);
    hide ReadLines, Strip, PrefixOf, ValueLine;
    assert WithLast(lines, line) == lines[..|lines| - 1] + [line];
    ConcatLast(lines[..|lines| - 1], line);
  }

  lemma AppendedShape(text: string, ids: Ids, globalId: string, value: string)
    requires text != "" && !HasValue(Some(text))
    ensures Edited(Some(text), Some(ids), globalId, value)
         == Some(Concat(Kept(Some(text))) + ValueLine(KeyAfter(Some(text), Some(ids), globalId), value))
  {
    TextOfKept(text);
    hide ReadLines, LastLine, HasValue, Kept, Terminated, Key, ValueLine;
    var line := ValueLine(Key(ids, globalId), value);
    assert Concat(Kept(Some(text))) + "" == Concat(Kept(Some(text)));
    ValueLineGlue(LastLine(text), Key(ids, globalId), value);
    Concat3(Concat(Kept(Some(text))), LastLine(text), line);
  }

  /** The edited file is the kept lines and one value line; only the value in it differs
      between two edits. */
  lemma EditedShape(file: Option<string>, ids: Option<Ids>, globalId: string, value: string)
    requires Writes(file, ids)
    ensures Edited(file, ids, globalId, value)
         == Some(Concat(Kept(file)) + ValueLine(KeyAfter(file, ids, globalId), value))
  {
    if file.None? || file.value == "" {
      var line := ValueLine(KeyAfter(file, ids, globalId), value);
      assert "" + line == line;
    } else if HasValue(file) {
      hide Edited, Kept, ValueLine, PrefixOf, ReadLines;
      ReplacedShape(file.value, ids, globalId, value);
    } else {
      hide Edited, Kept, ValueLine, KeyAfter, HasValue;
      AppendedShape(file.value, ids.value, globalId, value);
    }
  }

  lemma PrefixPlain(line: string)
    requires IsLine(line)
    ensures '%' !in PrefixOf(line) && '\n' !in PrefixOf(line)
  {
    hide Strip, Split;
    StripDropsLineEnd(line);
    PartsFree(Strip(line), '%');
    FirstPartIsPrefix(Strip(line), '%');
  }

  lemma UnmarkedPlain(line: string)
    requires IsLine(line) && '%' !in Strip(line)
    ensures '%' !in line && (!Terminated(line) ==> '\n' !in line)
  {
    hide Strip;
    if '%' in line {
      StripKeepsVisible(line, '%');
    }
    assert line == line[..|line| - 1] + [line[|line| - 1]];
  }

  /** An edited last line begins with a key without '%' and line end. */
  lemma KeyAfterPlain(file: Option<string>, ids: Option<Ids>, globalId: string)
    requires Writes(file, ids) && PlainKey(ids, globalId)
    ensures '%' !in KeyAfter(file, ids, globalId) && '\n' !in KeyAfter(file, ids, globalId)
  {
    hide ReadLines, Strip, Key, PrefixOf, IsLine, Concat;
    if file.Some? && file.value != "" {
      TextOfLast(file.value);
      if HasValue(file) {
        PrefixPlain(LastLine(file.value));
      } else {
        UnmarkedPlain(LastLine(file.value));
      }
    }
  }

  lemma VisiblePercent()
    ensures !IsSpace('%')
  {
  }

  /** The key an edit finds in a line with a '%'. */
  lemma PrefixBefore(key: string, rest: string)
    requires '%' !in key
    ensures var line := key + "%" + rest;
      '%' in Strip(line) && PrefixOf(line) == LStrip(key)
  {
    var line, mark := key + "%" + rest, ['%'];
    VisiblePercent();
    assert line == (key + mark) + rest;
    LStripMeans(key);
    hide LStrip, RStrip, Split, IsSpace;
    LStripBefore(key, '%');
    StripVisible(key + mark, rest);
    var front := LStrip(key) + mark;
    assert front[|front| - 1] == '%';
    RStripKeeps(front, rest);
    assert Strip(line)[|LStrip(key)|] == '%';
    assert '%' !in LStrip(key);
    FirstPart(Strip(line), LStrip(key), '%');
  }

  /** The key a second edit finds in a value line. */
  lemma PrefixOfValueLine(key: string, value: string)
    requires '%' !in key
    ensures '%' in Strip(ValueLine(key, value)) && PrefixOf(ValueLine(key, value)) == LStrip(key)
  {
    PrefixBefore(key, value + "\n");
    hide PrefixOf, Strip, LStrip;
    assert ValueLine(key, value) == key + "%" + (value + "\n");
  }

  lemma AddLine(kept: seq<string>, line: string)
    requires forall k :: 0 <= k < |kept| ==> IsLine(kept[k]) && Terminated(kept[k])
    requires IsLine(line)
    ensures ReadLines(Concat(kept + [line])) == kept + [line]
  {
    hide IsLine, Terminated, Concat, ReadLines;
    var lines := kept + [line];
    assert forall k :: 0 <= k < |kept| ==> lines[k] == kept[k];
    assert AreLines(lines);
    hide AreLines;
    ReadWrite(lines);
  }

  /** Editing a file whose last line holds a value replaces that line. */
  lemma SecondEdit(kept: seq<string>, line: string, ids: Option<Ids>, globalId: string, value: string)
    requires ReadLines(Concat(kept + [line])) == kept + [line] && '%' in Strip(line)
    ensures Edited(Some(Concat(kept + [line])), ids, globalId, value)
         == Some(Concat(kept) + ValueLine(PrefixOf(line), value))
  {
    var text := Concat(kept + [line]);
    assert ReadLines("") == [];
    assert text != "";
    assert LastLine(text) == line;
    hide ReadLines, Strip, PrefixOf, Concat, ValueLine;
    ReplacedShape(text, ids, globalId, value);
    assert (kept + [line])[..|kept + [line]| - 1] == kept;
  }

  lemma AgainOnLines(kept: seq<string>, key: string, ids: Option<Ids>, globalId: string, v1: string, v2: string)
    requires forall k :: 0 <= k < |kept| ==> IsLine(kept[k]) && Terminated(kept[k])
    requires '%' !in key && '\n' !in key && '\n' !in v1
    ensures Edited(Some(Concat(kept) + ValueLine(key, v1)), ids, globalId, v2)
         == Some(Concat(kept) + ValueLine(LStrip(key), v2))
  {
    var line := ValueLine(key, v1);
    assert line[..|line| - 1] == key + "%" + v1;
    assert IsLine(line);
    hide IsLine, Terminated, LStrip, PrefixOf, Strip, ReadLines, Edited, Concat, ValueLine;
    PrefixOfValueLine(key, v1);
    ConcatLast(kept, line);
    AddLine(kept, line);
    SecondEdit(kept, line, ids, globalId, v2);
  }

  // ---------- The edit, in terms of the text ----------

  /** What stands before the last line. */
  predicate BeforeLine(front: string) {
    front == "" || front[|front| - 1] == '\n'
  }

  lemma TerminatedLines(front: string)
    requires BeforeLine(front)
    ensures forall k :: 0 <= k < |ReadLines(front)| ==> IsLine(ReadLines(front)[k]) && Terminated(ReadLines(front)[k])
  {
    if front != "" {
      TextOfLast(front);
      hide ReadLines, Concat;
      assert LastLine(front)[|LastLine(front)| - 1] == front[|front| - 1];
    }
  }

  /** A text is the lines before its last line, and that line. */
  lemma TextAsLines(front: string, line: string)
    requires BeforeLine(front) && IsLine(line)
    ensures ReadLines(front + line) == ReadLines(front) + [line] && front + line == Concat(ReadLines(front) + [line])
    ensures front + line != "" && LastLine(front + line) == line && Concat(ReadLines(front)) == front
  {
    TerminatedLines(front);
    WriteRead(front);
    hide ReadLines, Concat, IsLine, Terminated, BeforeLine;
    AddLine(ReadLines(front), line);
    ConcatLast(ReadLines(front), line);
    assert front + line != "" by { LineNotEmpty(line); }
  }

  lemma LineNotEmpty(line: string)
    requires IsLine(line)
    ensures line != ""
  {
  }

  /** A last line with a '%' is replaced by its text before the '%', less the white space in
      front, and the value; everything before it stays. */
  lemma EditReplaces(front: string, left: string, key: string, rest: string,
                     ids: Option<Ids>, globalId: string, value: string)
    requires front == "" || front[|front| - 1] == '\n'
    requires (forall c :: c in left ==> c in " \t\r") && (key == "" || '!' <= key[0] <= '~')
    requires '%' !in key && '\n' !in key && (rest == "" || '\n' !in rest[..|rest| - 1])
    ensures Edited(Some(front + (left + key + "%" + rest)), ids, globalId, value) == Some(front + key + "%" + value + "\n")
    ensures HasValue(Some(front + (left + key + "%" + rest))) && KeyOf(front + (left + key + "%" + rest)) == key
  {
    assert BeforeLine(front);
    hide *;
    MarkedLine(left, key, rest);
    MarkedPrefix(left, key, rest);
    LineReplaced(front, left + key + "%" + rest, key, ids, globalId, value);
  }

  lemma LineReplaced(front: string, line: string, key: string, ids: Option<Ids>, globalId: string, value: string)
    requires BeforeLine(front) && IsLine(line) && '%' in Strip(line) && PrefixOf(line) == key
    ensures Edited(Some(front + line), ids, globalId, value) == Some(front + key + "%" + value + "\n")
    ensures HasValue(Some(front + line)) && KeyOf(front + line) == key
  {
    assert front + ValueLine(key, value) == front + key + "%" + value + "\n";
    TextAsLines(front, line);
    hide Strip, PrefixOf, ReadLines, LastLine, Edited, ValueLine, Concat;
    SecondEdit(ReadLines(front), line, ids, globalId, value);
  }

  lemma MarkedLine(left: string, key: string, rest: string)
    requires (forall c :: c in left ==> c in " \t\r") && '\n' !in key && (rest == "" || '\n' !in rest[..|rest| - 1])
    ensures IsLine(left + key + "%" + rest)
  {
    var line := left + key + "%" + rest;
    assert line != "";
    assert '\n' !in left;
    if rest != "" {
      assert line[..|line| - 1] == left + key + "%" + rest[..|rest| - 1];
    } else {
      assert line[..|line| - 1] == left + key;
    }
  }

  lemma MarkedPrefix(left: string, key: string, rest: string)
    requires (forall c :: c in left ==> c in " \t\r") && (key == "" || '!' <= key[0] <= '~') && '%' !in key
    ensures var line := left + key + "%" + rest;
      '%' in Strip(line) && PrefixOf(line) == key
  {
    assert '%' !in left;
    forall i | 0 <= i < |left| ensures IsSpace(left[i]) {
      assert left[i] in " \t\r" && left[i] in " \t\n\r";
      WhiteCharacters(left[i]);
    }
    if key != "" {
      WhiteCharacters(key[0]);
    }
    hide Strip, PrefixOf, IsSpace;
    LStripWhite(left, key);
    LStripFixed(key);
    PrefixBefore(left + key, rest);
    assert (left + key) + "%" + rest == left + key + "%" + rest;
  }

  /** To a last line without a '%' the new line is appended, and a missing or empty file gets
      it; without the numbers for it the file stays. */
  lemma EditAppends(front: string, line: string, ids: Ids, globalId: string, value: string)
    requires front == "" || front[|front| - 1] == '\n'
    requires line != "" && '\n' !in line[..|line| - 1] && '%' !in line
    ensures var added := "0." + ids.unit + "." + ids.subprogram + "." + globalId + "%" + value + "\n";
      && Edited(Some(front + line), Some(ids), globalId, value) == Some(front + line + added)
      && Edited(Some(""), Some(ids), globalId, value) == Some(added)
      && Edited(None, Some(ids), globalId, value) == Some(added)
    ensures Edited(Some(front + line), None, globalId, value) == Some(front + line)
    ensures Edited(Some(""), None, globalId, value) == Some("") && Edited(None, None, globalId, value) == None
  {
    TextAsLines(front, line);
    StripFree(line, '%');
    hide ReadLines, Strip, LastLine;
    var added := ValueLine(Key(ids, globalId), value);
    assert added == "0." + ids.unit + "." + ids.subprogram + "." + globalId + "%" + value + "\n";
    assert "" + added == added;
  }

  /** A second edit keeps the same lines and finds the key the first one left. */
  lemma EditedAgain(file: Option<string>, ids: Option<Ids>, globalId: string, v1: string, v2: string)
    requires Writes(file, ids) && PlainKey(ids, globalId) && '\n' !in v1
    ensures Edited(Edited(file, ids, globalId, v1), ids, globalId, v2)
         == Some(Concat(Kept(file)) + ValueLine(LStrip(KeyAfter(file, ids, globalId)), v2))
  {
    hide *;
    EditedShape(file, ids, globalId, v1);
    KeyAfterPlain(file, ids, globalId);
    KeptAreTerminated(file);
    AgainOnLines(Kept(file), KeyAfter(file, ids, globalId), ids, globalId, v1, v2);
  }

  // ---------- Last write wins ----------

  /** The append glues the new line to an unterminated last line that begins with white
      space, which the next edit strips. */
  predicate GluesIndented(file: Option<string>) {
    && file.Some? && file.value != "" && !HasValue(file)
    && var last := LastLine(file.value);
    !Terminated(last) && last != "" && IsSpace(last[0])
  }

  ghost predicate EditLastWins(file: Option<string>, ids: Option<Ids>, globalId: string, v1: string, v2: string) {
    Edited(Edited(file, ids, globalId, v1), ids, globalId, v2) == Edited(file, ids, globalId, v2)
  }

  lemma PrefixIsVisible(line: string)
    ensures PrefixOf(line) == "" || !IsSpace(PrefixOf(line)[0])
  {
    StripEnds(line);
    FirstPartIsPrefix(Strip(line), '%');
    hide Split, Strip, IsSpace;
    assert PrefixOf(line) <= Strip(line);
  }

  lemma GluedKeyStays(text: string, key: string)
    requires text != ""
    ensures LastLine(text) != ""
    ensures LStrip(LastLine(text) + key) == LastLine(text) + key <==> !IsSpace(LastLine(text)[0])
  {
    hide LStrip, IsSpace, ReadLines, LastLine;
    TextOfLast(text);
    LStripFixed(LastLine(text) + key);
  }

  lemma KeyStays(ids: Ids, globalId: string)
    ensures LStrip(Key(ids, globalId)) == Key(ids, globalId)
  {
  }

  lemma KeyStaysUnlessGlued(file: Option<string>, ids: Option<Ids>, globalId: string)
    requires Writes(file, ids)
    ensures LStrip(KeyAfter(file, ids, globalId)) == KeyAfter(file, ids, globalId) <==> !GluesIndented(file)
  {
    hide LStrip, Key, PrefixOf, LastLine, Terminated, IsSpace, HasValue;
    if HasValue(file) {
      assert file.Some? && file.value != "" by { HasValueText(file); }
      PrefixIsVisible(LastLine(file.value));
      LStripFixed(PrefixOf(LastLine(file.value)));
    } else if file.Some? && file.value != "" && !Terminated(LastLine(file.value)) {
      GluedKeyStays(file.value, Key(ids.value, globalId));
    } else {
      KeyStays(ids.value, globalId);
    }
  }

  lemma HasValueText(file: Option<string>)
    requires HasValue(file)
    ensures file.Some? && file.value != ""
  {
  }

  lemma TextLineEnds(text: string)
    requires text != ""
    ensures LineEnds(text) <= LineEnds(Concat(Kept(Some(text)))) + 1
  {
    assert LineEnds("") == 0;
    hide *;
    TextOfKept(text);
    TextOfLast(text);
    var kept := Concat(Kept(Some(text)));
    LineEndsAre(LastLine(text));
    LineEndsConcat(kept, LastLine(text));
    assert kept + "" == kept;
  }

  /** An edit never leaves fewer line ends. */
  lemma EditKeepsLineEnds(file: Option<string>, ids: Option<Ids>, globalId: string, value: string)
    requires file.Some?
    ensures Edited(file, ids, globalId, value).Some?
    ensures LineEnds(file.value) <= LineEnds(Edited(file, ids, globalId, value).value)
  {
    if Writes(file, ids) {
      assert LineEnds("") == 0;
      hide Edited, Kept, KeyAfter, Writes, LineEnds, Concat;
      EditedShape(file, ids, globalId, value);
      ValueLineEnds(KeyAfter(file, ids, globalId), value);
      LineEndsConcat(Concat(Kept(file)), ValueLine(KeyAfter(file, ids, globalId), value));
      if file.value != "" {
        TextLineEnds(file.value);
      }
    }
  }

  lemma ValueLineEnds(key: string, value: string)
    ensures LineEnds(ValueLine(key, value)) == LineEnds(key) + LineEnds(value) + 1
  {
  }

  lemma ValueOfTwoLines(file: Option<string>, ids: Option<Ids>, globalId: string, v1: string)
    requires Writes(file, ids) && '\n' in v1
    ensures !EditLastWins(file, ids, globalId, v1, "")
  {
    var once := Edited(file, ids, globalId, v1);
    var key, kept := KeyAfter(file, ids, globalId), Concat(Kept(file));
    EditedShape(file, ids, globalId, v1);
    EditedShape(file, ids, globalId, "");
    EditKeepsLineEnds(once, ids, globalId, "");
    LineEndsAre(v1);
    assert LineEnds("") == 0;
    ValueLineEnds(key, v1);
    ValueLineEnds(key, "");
    LineEndsConcat(kept, ValueLine(key, v1));
    LineEndsConcat(kept, ValueLine(key, ""));
    hide Edited, KeyAfter, Kept, LineEnds, ValueLine;
  }

  /** For a file, the second of two edits alone counts, whatever the second value, exactly
      when nothing is written, or the first value is on one line and is not glued to an
      indented last line. */
  lemma EditLastWinsExactly(file: Option<string>, ids: Option<Ids>, globalId: string, v1: string)
    requires PlainKey(ids, globalId)
    ensures (forall v2 :: EditLastWins(file, ids, globalId, v1, v2)) <==>
      !Writes(file, ids) || ('\n' !in v1 && !GluesIndented(file))
  {
    if !Writes(file, ids) {
    } else if '\n' in v1 {
      ValueOfTwoLines(file, ids, globalId, v1);
    } else {
      KeyStaysUnlessGlued(file, ids, globalId);
      forall v2 ensures EditLastWins(file, ids, globalId, v1, v2) <==> !GluesIndented(file) {
        EditedAgain(file, ids, globalId, v1, v2);
        EditedShape(file, ids, globalId, v2);
        hide Edited, Kept, KeyAfter, LStrip, GluesIndented;
        ValueLinesDiffer(Concat(Kept(file)), LStrip(KeyAfter(file, ids, globalId)), KeyAfter(file, ids, globalId), v2);
      }
      assert EditLastWins(file, ids, globalId, v1, "") <==> !GluesIndented(file);
    }
  }

  lemma ValueLinesDiffer(kept: string, a: string, b: string, value: string)
    requires |a| <= |b|
    ensures kept + ValueLine(a, value) == kept + ValueLine(b, value) <==> a == b
  {
    if kept + ValueLine(a, value) == kept + ValueLine(b, value) {
      assert |a| == |b|;
      assert a == (kept + ValueLine(a, value))[|kept|..|kept| + |a|];
      assert b == (kept + ValueLine(b, value))[|kept|..|kept| + |b|];
    }
  }

  /** An indented last line that holds no '%' and is not terminated loses in the second
      edit the indentation that a single edit keeps. */
  lemma GluedIndentFails(line: string, ids: Ids, globalId: string, v1: string, v2: string)
    requires line != "" && IsSpace(line[0]) && '\n' !in line && '%' !in line
    requires PlainKey(Some(ids), globalId) && '\n' !in v1
    ensures !EditLastWins(Some(line), Some(ids), globalId, v1, v2)
  {
    ReadUnterminated(line);
    assert line + "" == line;
    assert ReadLines(line) == [line];
    StripFree(line, '%');
    assert GluesIndented(Some(line));
    hide ReadLines, Strip, LStrip, HasValue, LastLine, GluesIndented, Edited, Kept, KeyAfter;
    EditedAgain(Some(line), Some(ids), globalId, v1, v2);
    EditedShape(Some(line), Some(ids), globalId, v2);
    KeyStaysUnlessGlued(Some(line), Some(ids), globalId);
    ValueLinesDiffer(Concat(Kept(Some(line))), LStrip(KeyAfter(Some(line), Some(ids), globalId)),
                     KeyAfter(Some(line), Some(ids), globalId), v2);
  }

  /** Such a file is a blank and a letter. */
  lemma EditTwiceFails()
    ensures !EditLastWins(Some(" x"), Some(Ids("1", "2")), "3", "a", "b")
  {
    hide EditLastWins;
    assert Key(Ids("1", "2"), "3") == "0.1.2.3";
    GluedIndentFails(" x", Ids("1", "2"), "3", "a", "b");
  }
}

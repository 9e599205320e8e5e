/** The Python string and file operations the two scripts use. */
module Text {
  import opened Seqs

  /** The characters str.strip removes: those for which str.isspace holds. */
  predicate IsSpace(c: char) {
    var u := c as int;
    || 0x09 <= u <= 0x0d || 0x1c <= u <= 0x20 || u == 0x85 || u == 0xa0 || u == 0x1680
    || 0x2000 <= u <= 0x200a || u == 0x2028 || u == 0x2029 || u == 0x202f || u == 0x205f || u == 0x3000
  }

  function LStrip(s: string): (r: string)
    ensures |r| <= |s|
  {
    if s != "" && IsSpace(s[0]) then LStrip(s[1..]) else s
  }

  function RStrip(s: string): (r: string)
    ensures |r| <= |s|
  {
    if s != "" && IsSpace(s[|s| - 1]) then RStrip(s[..|s| - 1]) else s
  }

  /** str.strip */
  function Strip(s: string): string {
    RStrip(LStrip(s))
  }

  /** The index of the first `c`, or the length. */
  function IndexOf(s: string, c: char): (i: nat)
    ensures i <= |s|
  {
    if s == "" || s[0] == c then 0 else 1 + IndexOf(s[1..], c)
  }

  lemma {:induction false} IndexOfMeans(s: string, c: char)
    ensures c !in s[..IndexOf(s, c)] && (IndexOf(s, c) < |s| ==> s[IndexOf(s, c)] == c)
    ensures c in s <==> IndexOf(s, c) < |s|
  {
    if s != "" && s[0] != c {
      IndexOfMeans(s[1..], c);
      var i := IndexOf(s, c);
      assert s[..i] == [s[0]] + s[1..][..i - 1];
      assert s == [s[0]] + s[1..];
    }
  }

  /** What is left is the end of the text, and begins with a visible character if any. */
  lemma {:induction false} LStripMeans(s: string)
    ensures LStrip(s) == s[|s| - |LStrip(s)|..]
    ensures LStrip(s) != "" ==> !IsSpace(LStrip(s)[0])
  {
    if s != "" && IsSpace(s[0]) {
      LStripMeans(s[1..]);
    }
  }

  /** What is left is a beginning of the text, and ends with a visible character if any. */
  lemma {:induction false} RStripMeans(s: string)
    ensures RStrip(s) <= s
    ensures RStrip(s) != "" ==> !IsSpace(RStrip(s)[|RStrip(s)| - 1])
    decreases |s|
  {
    if s != "" && IsSpace(s[|s| - 1]) {
      RStripMeans(s[..|s| - 1]);
    }
  }

  /** str.split on one character */
  function Split(s: string, c: char): (parts: seq<string>)
    ensures |parts| >= 1
    decreases |s|
  {
    var i := IndexOf(s, c);
    if i == |s| then [s] else [s[..i]] + Split(s[i + 1..], c)
  }

  /** The text a list of lines makes (writelines). */
  function Concat(lines: seq<string>): string {
    if lines == [] then "" else lines[0] + Concat(lines[1..])
  }

  /** The lines of a text, each with its line end (readlines). */
  function ReadLines(text: string): (lines: seq<string>)
    ensures text != "" ==> |lines| >= 1
    decreases |text|
  {
    if text == "" then []
    else
      var i := IndexOf(text, '\n');
      if i == |text| then [text] else [text[..i + 1]] + ReadLines(text[i + 1..])
  }

  // ---------- Split ----------

  lemma IndexOfPrefix(a: string, b: string, c: char)
    requires c !in a
    ensures IndexOf(a + b, c) == |a| + IndexOf(b, c)
  {
    if a == "" {
      assert a + b == b;
    } else {
      assert (a + b)[1..] == a[1..] + b;
      IndexOfPrefix(a[1..], b, c);
    }
  }

  /** A text without the separator is one part. */
  lemma SplitWhole(s: string, c: char)
    requires c !in s
    ensures Split(s, c) == [s]
  {
    assert s + "" == s;
    IndexOfPrefix(s, "", c);
  }

  lemma SplitFirst(a: string, b: string, c: char)
    requires c !in a
    ensures Split(a + [c] + b, c) == [a] + Split(b, c)
  {
    assert a + [c] + b == a + ([c] + b);
    IndexOfPrefix(a, [c] + b, c);
    assert (a + [c] + b)[..|a|] == a && (a + [c] + b)[|a| + 1..] == b;
  }

  /** Splitting at a separator splits both sides. */
  lemma {:induction false} SplitAppend(a: string, b: string, c: char)
    ensures Split(a + [c] + b, c) == Split(a, c) + Split(b, c)
    decreases |a|
  {
    IndexOfMeans(a, c);
    var i := IndexOf(a, c);
    if i == |a| {
      assert a[..|a|] == a;
      SplitFirst(a, b, c);
    } else {
      var front, rest := a[..i], a[i + 1..];
      assert a == front + [c] + rest;
      assert a + [c] + b == front + [c] + (rest + [c] + b);
      hide Split;
      SplitFirst(front, rest + [c] + b, c);
      SplitFirst(front, rest, c);
      SplitAppend(rest, b, c);
      Concat3([front], Split(rest, c), Split(b, c));
    }
  }

  function Join(parts: seq<string>, c: char): string {
    if parts == [] then "" else if |parts| == 1 then parts[0] else parts[0] + [c] + Join(parts[1..], c)
  }

  lemma SplitUnfold(s: string, c: char)
    ensures c !in s ==> Split(s, c) == [s]
    ensures c in s ==>
      var i := IndexOf(s, c);
      && i < |s| && s == s[..i] + [c] + s[i + 1..] && c !in s[..i]
      && Split(s, c) == [s[..i]] + Split(s[i + 1..], c)
  {
    IndexOfMeans(s, c);
    hide IndexOf;
    assert c !in s ==> s[..|s|] == s;
  }

  /** The parts joined by the separator are the text. */
  lemma {:induction false} JoinSplit(s: string, c: char)
    ensures Join(Split(s, c), c) == s
    decreases |s|
  {
    SplitUnfold(s, c);
    hide Split;
    if c in s {
      var i := IndexOf(s, c);
      JoinSplit(s[i + 1..], c);
      assert ([s[..i]] + Split(s[i + 1..], c))[1..] == Split(s[i + 1..], c);
    }
  }

  /** No part holds the separator. */
  lemma {:induction false} PartsFree(s: string, c: char)
    ensures forall k :: 0 <= k < |Split(s, c)| ==> c !in Split(s, c)[k]
    ensures |Split(s, c)| == 1 <==> c !in s
    decreases |s|
  {
    SplitUnfold(s, c);
    hide Split;
    if c in s {
      PartsFree(s[IndexOf(s, c) + 1..], c);
    }
  }

  /** A prefix without the separator begins the first part. */
  lemma SplitKeepsPrefix(s: string, p: string, c: char)
    requires p <= s && c !in p
    ensures p <= Split(s, c)[0]
  {
    assert s == p + s[|p|..];
    IndexOfPrefix(p, s[|p|..], c);
  }

  // ---------- Strip ----------

  lemma LStripAppend(s: string, c: char)
    requires IsSpace(c)
    ensures LStrip(s + [c]) == if LStrip(s) == "" then "" else LStrip(s) + [c]
  {
    if s == "" {
      assert [c][1..] == "";
      assert LStrip([c]) == LStrip("");
    } else if IsSpace(s[0]) {
      assert (s + [c])[1..] == s[1..] + [c];
      LStripAppend(s[1..], c);
    }
  }

  /** A white character at the end does not matter to strip. */
  lemma StripAppend(s: string, c: char)
    requires IsSpace(c)
    ensures Strip(s + [c]) == Strip(s)
  {
    LStripAppend(s, c);
    if LStrip(s) != "" {
      assert (LStrip(s) + [c])[..|LStrip(s)|] == LStrip(s);
    }
  }

  lemma StripEnds(s: string)
    ensures var r := Strip(s); r != "" ==> !IsSpace(r[0]) && !IsSpace(r[|r| - 1])
    ensures Strip(Strip(s)) == Strip(s)
  {
    var l, r := LStrip(s), Strip(s);
    LStripMeans(s);
    RStripMeans(l);
    LStripFixed(r);
    hide LStrip, IsSpace;
    assert r != "" ==> r[0] == l[0];
  }

  lemma LStripFixed(s: string)
    ensures LStrip(s) == s <==> s == "" || !IsSpace(s[0])
  {
  }

  /** Stripping brings no new characters. */
  lemma StripFree(s: string, c: char)
    requires c !in s
    ensures c !in Strip(s)
  {
    LStripMeans(s);
    RStripMeans(LStrip(s));
    hide LStrip, RStrip;
    assert c !in LStrip(s);
  }

  /** Stripping trims nothing from the right of a text that ends in a visible character
      and nothing from the left of one that begins with one. */
  lemma {:induction false} StripVisible(s: string, t: string)
    requires s != "" && !IsSpace(s[|s| - 1])
    ensures LStrip(s + t) == LStrip(s) + t
  {
    hide IsSpace;
    if IsSpace(s[0]) {
      assert (s + t)[1..] == s[1..] + t;
      StripVisible(s[1..], t);
    }
  }

  /** White space stays only in front of a visible character. */
  lemma {:induction false} LStripBefore(a: string, c: char)
    requires !IsSpace(c)
    ensures LStrip(a + [c]) == LStrip(a) + [c]
  {
    if a != "" && IsSpace(a[0]) {
      assert (a + [c])[1..] == a[1..] + [c];
      LStripBefore(a[1..], c);
    }
  }

  /** Stripping from the right stops at a visible character. */
  lemma {:induction false} RStripKeeps(s: string, t: string)
    requires s != "" && !IsSpace(s[|s| - 1])
    ensures s <= RStrip(s + t)
    decreases |t|
  {
    if t == "" {
      assert s + t == s;
    } else if IsSpace(t[|t| - 1]) {
      assert (s + t)[..|s + t| - 1] == s + t[..|t| - 1];
      RStripKeeps(s, t[..|t| - 1]);
    } else {
      assert RStrip(s + t) == s + t;
    }
  }

  /** Stripping removes no visible character. */
  lemma StripKeepsVisible(s: string, c: char)
    requires !IsSpace(c) && c in s
    ensures c in Strip(s)
  {
    LStripKeepsVisible(s, c);
    RStripKeepsVisible(LStrip(s), c);
  }

  lemma {:induction false} LStripKeepsVisible(s: string, c: char)
    requires !IsSpace(c) && c in s
    ensures c in LStrip(s)
  {
    if IsSpace(s[0]) {
      LStripKeepsVisible(s[1..], c);
    }
  }

  lemma {:induction false} RStripKeepsVisible(s: string, c: char)
    requires !IsSpace(c) && c in s
    ensures c in RStrip(s)
    decreases |s|
  {
    if IsSpace(s[|s| - 1]) {
      assert s == s[..|s| - 1] + [s[|s| - 1]];
      RStripKeepsVisible(s[..|s| - 1], c);
    }
  }

  /** What stands before the first separator is the first part. */
  lemma FirstPart(s: string, a: string, c: char)
    requires a + [c] <= s && c !in a
    ensures Split(s, c)[0] == a
  {
    var rest := s[|a| + 1..];
    assert s == a + [c] + rest;
    SplitFirst(a, rest, c);
  }

  lemma FirstPartIsPrefix(s: string, c: char)
    ensures Split(s, c)[0] <= s
  {
  }

  /** A text with a line end at most at its end has none once stripped. */
  lemma StripDropsLineEnd(s: string)
    requires s != "" ==> '\n' !in s[..|s| - 1]
    ensures '\n' !in Strip(s)
  {
    var l, r := LStrip(s), Strip(s);
    StripEnds(s);
    LStripMeans(s);
    RStripMeans(l);
    hide LStrip, RStrip;
    forall i | 0 <= i < |r| ensures r[i] != '\n' {
      assert s[|s| - |l| + i] == l[i] == r[i];
      if i < |l| - 1 {
        assert s[..|s| - 1][|s| - |l| + i] == r[i];
      }
    }
  }

  predicate AllSpace(s: string) {
    forall i :: 0 <= i < |s| ==> IsSpace(s[i])
  }

  /** Stripping takes white space, and only that, off both ends, and all of it. */
  lemma StripMeaning(s: string) returns (left: string, right: string)
    ensures s == left + Strip(s) + right && AllSpace(left) && AllSpace(right)
    ensures Strip(s) != "" ==> !IsSpace(Strip(s)[0]) && !IsSpace(Strip(s)[|Strip(s)| - 1])
  {
    StripEnds(s);
    left := LStripMeaning(s);
    right := RStripMeaning(LStrip(s));
    hide LStrip, RStrip, IsSpace;
  }

  lemma {:induction false} LStripMeaning(s: string) returns (left: string)
    ensures s == left + LStrip(s) && AllSpace(left)
  {
    if s != "" && IsSpace(s[0]) {
      left := LStripMeaning(s[1..]);
      left := [s[0]] + left;
    } else {
      left := "";
    }
  }

  lemma {:induction false} RStripMeaning(s: string) returns (right: string)
    ensures s == RStrip(s) + right && AllSpace(right)
    decreases |s|
  {
    if s != "" && IsSpace(s[|s| - 1]) {
      right := RStripMeaning(s[..|s| - 1]);
      right := right + [s[|s| - 1]];
      assert s == s[..|s| - 1] + [s[|s| - 1]];
    } else {
      right := "";
    }
  }

  /** Which characters are white: of ASCII the blank, 9 to 13 and 28 to 31; every other one up
      to '~' is visible, letters, digits and punctuation alike. */
  lemma WhiteCharacters(c: char)
    ensures var white := {9, 10, 11, 12, 13, 28, 29, 30, 31, 32, 133, 160, 5760, 8192, 8193, 8194, 8195, 8196, 8197,
                          8198, 8199, 8200, 8201, 8202, 8232, 8233, 8239, 8287, 12288};
      IsSpace(c) <==> c as int in white
    ensures '!' <= c <= '~' ==> !IsSpace(c)
    ensures c in " \t\n\r" ==> IsSpace(c)
  {
  }

  lemma {:induction false} LStripWhite(left: string, s: string)
    requires AllSpace(left)
    ensures LStrip(left + s) == LStrip(s)
  {
    hide IsSpace;
    if left == "" {
      assert left + s == s;
    } else {
      assert (left + s)[1..] == left[1..] + s;
      LStripWhite(left[1..], s);
    }
  }

  lemma {:induction false} RStripWhite(s: string, right: string)
    requires AllSpace(right)
    ensures RStrip(s + right) == RStrip(s)
    decreases |right|
  {
    hide IsSpace;
    if right == "" {
      assert s + right == s;
    } else {
      assert (s + right)[..|s + right| - 1] == s + right[..|right| - 1];
      RStripWhite(s, right[..|right| - 1]);
    }
  }

  lemma StripAround(left: string, s: string, right: string)
    requires s != "" && !IsSpace(s[0]) && !IsSpace(s[|s| - 1]) && AllSpace(left) && AllSpace(right)
    ensures Strip(left + s + right) == s
  {
    hide IsSpace;
    assert left + s + right == left + (s + right);
    LStripWhite(left, s + right);
    RStripWhite(s, right);
  }

  /** Strip gives exactly the text whose ends are characters from '!' to '~', whatever
      blanks, tabs and line ends stand around it. */
  lemma StripsToVisible(left: string, s: string, right: string)
    requires s != "" && '!' <= s[0] <= '~' && '!' <= s[|s| - 1] <= '~'
    requires forall c :: c in left + right ==> c in " \t\n\r"
    ensures Strip(left + s + right) == s
  {
    WhiteCharacters(s[0]);
    WhiteCharacters(s[|s| - 1]);
    forall i | 0 <= i < |left| ensures IsSpace(left[i]) {
      assert left[i] in left + right;
      WhiteCharacters(left[i]);
    }
    forall i | 0 <= i < |right| ensures IsSpace(right[i]) {
      assert right[i] in left + right;
      WhiteCharacters(right[i]);
    }
    hide IsSpace, Strip;
    StripAround(left, s, right);
  }

  lemma StripsToNothing(s: string)
    requires forall c :: c in s ==> c in " \t\n\r"
    ensures Strip(s) == ""
  {
    forall i | 0 <= i < |s| ensures IsSpace(s[i]) {
      WhiteCharacters(s[i]);
    }
    hide IsSpace;
    assert s + "" == s;
    LStripWhite(s, "");
  }

  // ---------- Line ends ----------

  function LineEnds(s: string): nat {
    multiset(s)['\n']
  }

  lemma LineEndsConcat(a: string, b: string)
    ensures LineEnds(a + b) == LineEnds(a) + LineEnds(b)
  {
  }

  lemma LineEndsAre(s: string)
    ensures LineEnds(s) > 0 <==> '\n' in s
    ensures IsLine(s) ==> LineEnds(s) <= 1
  {
    if IsLine(s) {
      assert s == s[..|s| - 1] + [s[|s| - 1]];
      LineEndsConcat(s[..|s| - 1], [s[|s| - 1]]);
    }
  }

  // ---------- Lines ----------

  /** A line as readlines gives it: nonempty, with a line end at most at its end. */
  predicate IsLine(line: string) {
    line != "" && '\n' !in line[..|line| - 1]
  }

  predicate Terminated(line: string) {
    line != "" && line[|line| - 1] == '\n'
  }

  /** Lines as readlines gives them: all but the last are terminated. */
  predicate AreLines(lines: seq<string>) {
    && (forall k :: 0 <= k < |lines| ==> IsLine(lines[k]))
    && (forall k :: 0 <= k < |lines| - 1 ==> Terminated(lines[k]))
  }

  lemma CutIsLine(text: string, i: nat)
    requires i < |text| && '\n' !in text[..i] && text[i] == '\n'
    ensures text == text[..i + 1] + text[i + 1..] && IsLine(text[..i + 1]) && Terminated(text[..i + 1])
  {
  }

  lemma ReadUnfold(text: string)
    requires '\n' in text
    ensures
      var i := IndexOf(text, '\n');
      && i < |text| && text == text[..i + 1] + text[i + 1..]
      && IsLine(text[..i + 1]) && Terminated(text[..i + 1])
      && ReadLines(text) == [text[..i + 1]] + ReadLines(text[i + 1..])
  {
    hide IndexOf, IsLine, Terminated;
    IndexOfMeans(text, '\n');
    CutIsLine(text, IndexOf(text, '\n'));
  }

  /** Round trip: writing the lines of a text gives the text back. */
  lemma {:induction false} WriteRead(text: string)
    ensures Concat(ReadLines(text)) == text
    ensures AreLines(ReadLines(text))
    decreases |text|
  {
    if text != "" {
      if '\n' !in text {
        assert text + "" == text;
        ReadUnterminated(text);
        hide ReadLines;
      } else {
        hide IsLine, Terminated, ReadLines;
        ReadUnfold(text);
        var rest := text[IndexOf(text, '\n') + 1..];
        WriteRead(rest);
        assert ReadLines(text)[1..] == ReadLines(rest);
      }
    }
  }

  lemma FirstAndRest(lines: seq<string>)
    requires AreLines(lines) && lines != []
    ensures AreLines(lines[1..])
    ensures Terminated(lines[0]) ==> '\n' !in lines[0][..|lines[0]| - 1] && lines[0] == lines[0][..|lines[0]| - 1] + "\n"
    ensures !Terminated(lines[0]) ==> lines == [lines[0]] && lines[0] != "" && '\n' !in lines[0]
  {
  }

  /** Round trip: reading written lines gives the lines back. */
  lemma {:induction false} ReadWrite(lines: seq<string>)
    requires AreLines(lines)
    ensures ReadLines(Concat(lines)) == lines
  {
    if lines != [] {
      var line, rest := lines[0], lines[1..];
      FirstAndRest(lines);
      ReadWrite(rest);
      hide ReadLines, AreLines;
      if Terminated(line) {
        ReadFirst(line[..|line| - 1], Concat(rest));
        assert lines == [line] + rest;
      } else {
        ReadUnterminated(line);
      }
    }
  }

  lemma ReadFirst(body: string, rest: string)
    requires '\n' !in body
    ensures ReadLines(body + "\n" + rest) == [body + "\n"] + ReadLines(rest)
  {
    var text := body + "\n" + rest;
    assert text == body + ("\n" + rest);
    IndexOfPrefix(body, "\n" + rest, '\n');
    assert text[..|body| + 1] == body + "\n" && text[|body| + 1..] == rest;
  }

  lemma ReadUnterminated(line: string)
    requires line != "" && '\n' !in line
    ensures ReadLines(line + "") == [line]
  {
    IndexOfPrefix(line, "", '\n');
    assert line + "" == line;
  }
}

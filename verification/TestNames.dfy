/** The numbered test names and the pattern by which a test is found. */
module TestNames {
  import opened Text

  function Digit(k: nat): char
    requires k < 10
  {
    ('0' as int + k) as char
  }

  function Digits(n: nat): (s: string)
    ensures |s| > 0
  {
    if n < 10 then [Digit(n)] else Digits(n / 10) + [Digit(n % 10)]
  }

  /** The index with at least three digits. */
  function NumberStr(index: nat): (s: string)
    ensures |s| >= 3
  {
    var s := Digits(index);
    if |s| == 1 then "00" + s else if |s| == 2 then "0" + s else s
  }

  function FullFunction(functionName: string, index: nat): string {
    functionName + "." + NumberStr(index)
  }

  function Pattern(functionName: string, index: nat): string {
    "<name>" + FullFunction(functionName, index) + "</name>"
  }

  /** The pattern stands in the line at `at`. */
  predicate At(line: string, at: nat, pattern: string) {
    at + |pattern| <= |line| && line[at..at + |pattern|] == pattern
  }

  /** Python's `pattern in line` */
  predicate Contains(line: string, pattern: string) {
    exists at :: 0 <= at <= |line| && At(line, at, pattern)
  }

  /** A line contains a pattern exactly if it is a text, the pattern and a text. */
  lemma ContainsExactly(line: string, pattern: string)
    ensures Contains(line, pattern) <==> exists a: string, b: string :: line == a + pattern + b
  {
    if Contains(line, pattern) {
      var at :| 0 <= at <= |line| && At(line, at, pattern);
      assert line == line[..at] + pattern + line[at + |pattern|..];
    }
    if a: string, b: string :| line == a + pattern + b {
      ContainsBetween(a, pattern, b);
    }
  }

  lemma ContainsBetween(a: string, pattern: string, b: string)
    ensures Contains(a + pattern + b, pattern)
  {
    var line := a + pattern + b;
    assert line[|a|..|a| + |pattern|] == pattern;
    assert At(line, |a|, pattern);
  }

  /** The names and patterns of some indices. */
  lemma SomePatterns()
    ensures Pattern("f", 1) == "<name>f.001</name>" && FullFunction("f", 1) == "f.001"
    ensures NumberStr(42) == "042" && NumberStr(6789) == "6789"
  {
    assert Digits(1) == "1";
    assert Digits(42) == "42";
    assert Digits(6789) == "6789";
    hide Digits;
  }

  // ---------- Formatting is injective ----------

  /** The number a decimal text stands for. */
  function Value(s: string): int {
    if s == "" then 0 else 10 * Value(s[..|s| - 1]) + (s[|s| - 1] as int - '0' as int)
  }

  function Pow10(k: nat): (p: nat)
    ensures p > 0
  {
    if k == 0 then 1 else 10 * Pow10(k - 1)
  }

  lemma {:induction false} ValueOfDigits(n: nat)
    ensures Value(Digits(n)) == n && n < Pow10(|Digits(n)|)
    ensures forall c :: c in Digits(n) ==> '0' <= c <= '9'
  {
    if n < 10 {
      assert Digits(n)[..0] == "";
    } else {
      ValueOfDigits(n / 10);
      assert Digits(n)[..|Digits(n)| - 1] == Digits(n / 10);
    }
  }

  lemma {:induction false} LeadingZero(s: string)
    ensures Value("0" + s) == Value(s)
  {
    if s == "" {
      assert "0"[..0] == "";
    } else {
      assert ("0" + s)[..|s|] == "0" + s[..|s| - 1];
      LeadingZero(s[..|s| - 1]);
    }
  }

  /** Round trip: the formatted index reads back as the index; it is all digits, and an
      index is below the power of ten its length allows. */
  lemma ValueOfNumberStr(index: nat)
    ensures Value(NumberStr(index)) == index && index < Pow10(|NumberStr(index)|)
    ensures forall c :: c in NumberStr(index) ==> '0' <= c <= '9'
  {
    ValueOfDigits(index);
    var s := Digits(index);
    LeadingZero(s);
    LeadingZero("0" + s);
    assert "00" + s == "0" + ("0" + s);
  }

  /** Padding goes to three digits and no further. */
  lemma {:induction false} DigitsWidth(n: nat, k: nat)
    requires k >= 1 && n < Pow10(k) && (k == 1 || Pow10(k - 1) <= n)
    ensures |Digits(n)| == k && (n > 0 ==> Digits(n)[0] != '0')
    decreases k
  {
    if k > 1 {
      assert n >= 10 && n / 10 < Pow10(k - 1);
      assert k > 2 ==> Pow10(k - 2) <= n / 10;
      DigitsWidth(n / 10, k - 1);
    }
  }

  lemma NumberStrWidth(index: nat, k: nat)
    requires k >= 1 && index < Pow10(k) && (k == 1 || Pow10(k - 1) <= index)
    ensures |NumberStr(index)| == if k < 3 then 3 else k
    ensures k >= 3 ==> NumberStr(index)[0] != '0'
  {
    DigitsWidth(index, k);
  }

  /** A text before a '<' that it does not hold is determined by what follows. */
  lemma UpToBracket(t: string, a: string)
    requires a + "<" <= t && '<' !in a
    ensures a == t[..IndexOf(t, '<')]
  {
    var rest := t[|a| + 1..];
    assert t == a + ("<" + rest);
    IndexOfPrefix(a, "<" + rest, '<');
  }

  lemma NumberAt(line: string, at: nat, f: string, i: nat)
    requires At(line, at, Pattern(f, i))
    ensures var start := at + |"<name>" + f + "."|;
      start <= |line| && NumberStr(i) + "<" <= line[start..]
  {
    var head, s := "<name>" + f + ".", NumberStr(i);
    var p := Pattern(f, i);
    hide NumberStr;
    assert p == head + (s + "</name>");
    assert "</name>" == "<" + "/name>";
    assert s + "</name>" == (s + "<") + "/name>";
    assert line[at..at + |p|][|head|..] == s + "</name>";
    assert line[at + |head|..][..|p| - |head|] == line[at..at + |p|][|head|..];
    assert s + "<" == (s + "</name>")[..|s| + 1];
  }

  /** At one place of a line the pattern of at most one test can stand. */
  lemma OnePatternAtPlace(line: string, at: nat, f: string, i: nat, j: nat)
    requires At(line, at, Pattern(f, i)) && At(line, at, Pattern(f, j))
    ensures i == j
  {
    NumberAt(line, at, f, i);
    NumberAt(line, at, f, j);
    ValueOfNumberStr(i);
    ValueOfNumberStr(j);
    var t := line[at + |"<name>" + f + "."|..];
    UpToBracket(t, NumberStr(i));
    UpToBracket(t, NumberStr(j));
  }

  /** A line too short for an index's digits does not contain its pattern. */
  lemma ContainsBound(line: string, f: string, i: nat)
    requires Contains(line, Pattern(f, i))
    ensures i < Pow10(|line|)
  {
    ValueOfNumberStr(i);
    Pow10Grows(|NumberStr(i)|, |line|);
  }

  lemma {:induction false} Pow10Grows(j: nat, k: nat)
    requires j <= k
    ensures Pow10(j) <= Pow10(k)
    decreases k
  {
    if j < k {
      Pow10Grows(j, k - 1);
    }
  }
}

/** The search of a test result for the value the harness actually saw. */
module ResultSearch {
  import opened Text
  import opened Wrappers

  /** A command record of the result, in document order: the text of its harness command,
      if it has one, and its actual-value element, if any, with that element's text. */
  datatype CommandData = CommandData(harness: Option<string>, actual: Option<Option<string>>)

  /** A record the search stops at. */
  predicate StopsSearch(c: CommandData, key: string) {
    c.harness == Some(key) && c.actual.Some?
  }

  /** The value the search returns; an empty element ends it with none, because its text
      cannot be stripped. */
  function TrueValue(commands: seq<CommandData>, key: string): Option<string>
    decreases |commands|
  {
    if commands == [] then None
    else
      var last := commands[|commands| - 1];
      if !StopsSearch(last, key) then TrueValue(commands[..|commands| - 1], key)
      else match last.actual.value
        case Some(text) => Some(Strip(text))
        case None => None
  }

  /** A result file that is missing or does not parse gives no value. */
  function TrueValueOf(results: Option<seq<CommandData>>, key: string): Option<string> {
    match results
    case Some(commands) => TrueValue(commands, key)
    case None => None
  }

  /** The reversed loop with its early returns. */
  method GetTrueValueFromXml(results: Option<seq<CommandData>>, harnessCommandValue: string)
    returns (value: Option<string>)
    ensures value == TrueValueOf(results, harnessCommandValue)
  {
    if results.None? {
      return None;
    }
    var commandElems := results.value;
    var i := |commandElems|;
    assert commandElems[..i] == commandElems;
    while i > 0
      invariant 0 <= i <= |commandElems|
      invariant TrueValue(commandElems, harnessCommandValue) == TrueValue(commandElems[..i], harnessCommandValue)
    {
      i := i - 1;
      var commandElem := commandElems[i];
      assert commandElems[..i + 1][..i] == commandElems[..i];
      if commandElem.harness == Some(harnessCommandValue) {
        match commandElem.actual {
          case Some(element) =>
            match element {
              case Some(text) => return Some(Strip(text));
              case None => return None;
            }
          case None =>
        }
      }
    }
    value := None;
  }

  /** The record at `i` is the last one that stops the search. */
  ghost predicate LastStop(commands: seq<CommandData>, key: string, i: nat) {
    && i < |commands| && StopsSearch(commands[i], key)
    && forall j :: i < j < |commands| ==> !StopsSearch(commands[j], key)
  }

  lemma {:induction false} FindLastStop(commands: seq<CommandData>, key: string) returns (last: Option<nat>)
    ensures last.None? ==> TrueValue(commands, key).None? && forall i :: 0 <= i < |commands| ==> !StopsSearch(commands[i], key)
    ensures last.Some? ==> LastStop(commands, key, last.value)
    ensures last.Some? ==> TrueValue(commands, key) == Returned(commands[last.value].actual.value)
    decreases |commands|
  {
    if commands == [] {
      return None;
    }
    var n := |commands| - 1;
    if StopsSearch(commands[n], key) {
      return Some(n);
    }
    last := FindLastStop(commands[..n], key);
  }

  /** What the search makes of the text of an actual-value element. */
  function Returned(text: Option<string>): Option<string> {
    match text
    case Some(t) => Some(Strip(t))
    case None => None
  }

  /** The search returns the stripped text of the last record in document order that has
      the key and an actual-value element, even if that is nothing and an earlier one's is
      not; it returns nothing if there is no such record. */
  lemma {:induction false} TrueValueIsLast(commands: seq<CommandData>, key: string, i: nat)
    ensures LastStop(commands, key, i) ==> TrueValue(commands, key) == Returned(commands[i].actual.value)
    ensures (forall j :: 0 <= j < |commands| ==> !StopsSearch(commands[j], key)) ==> TrueValue(commands, key).None?
  {
    var last := FindLastStop(commands, key);
    hide TrueValue, Returned;
    if LastStop(commands, key, i) {
      assert last.Some?;
      assert i == last.value;
    }
  }

  /** It returns nothing exactly when there is no such record or the last one's element is
      empty. */
  lemma {:induction false} NoTrueValue(commands: seq<CommandData>, key: string)
    ensures TrueValue(commands, key).None? <==>
      || (forall j :: 0 <= j < |commands| ==> !StopsSearch(commands[j], key))
      || exists i: nat :: LastStop(commands, key, i) && commands[i].actual == Some(None)
  {
    var last := FindLastStop(commands, key);
    hide TrueValue;
    if last.Some? {
      forall i: nat | LastStop(commands, key, i) ensures i == last.value {
      }
    }
  }

  /** What one more record does to the search: with the key and a text between blanks, that
      text is the value; with the key and an empty element there is none; with another key,
      no command or no element, the search goes on in the records before. */
  lemma OneMoreRecord(commands: seq<CommandData>, c: CommandData, key: string, left: string, s: string, right: string)
    requires s != "" && '!' <= s[0] <= '~' && '!' <= s[|s| - 1] <= '~'
    requires forall x :: x in left + right ==> x in " \t\n\r"
    ensures c == CommandData(Some(key), Some(Some(left + s + right))) ==> TrueValue(commands + [c], key) == Some(s)
    ensures c == CommandData(Some(key), Some(Some(left))) ==> TrueValue(commands + [c], key) == Some("")
    ensures c == CommandData(Some(key), Some(None)) ==> TrueValue(commands + [c], key).None?
    ensures c.harness != Some(key) || c.actual.None? ==> TrueValue(commands + [c], key) == TrueValue(commands, key)
    ensures TrueValue([], key).None?
  {
    StripsToVisible(left, s, right);
    forall x | x in left ensures x in " \t\n\r" {
      assert x in left + right;
    }
    StripsToNothing(left);
    hide Strip;
    assert (commands + [c])[..|commands + [c]| - 1] == commands;
  }

  /** An empty element in a later record hides the value of an earlier one. */
  lemma {:induction false} EmptyElementHides()
    ensures TrueValue([CommandData(Some("k"), Some(Some("1"))), CommandData(Some("k"), Some(None))], "k").None?
  {
  }
}

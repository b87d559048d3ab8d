/**
 * `get_line_at_index(text, index, separator)` (src/utils/get_line_at_index.py):
 * the piece of `text.split(separator)` whose span, counted together with
 * the separator that follows it, covers character `index`.
 */
module LineAtIndex {
  import opened Wrappers
  import opened Strings

  /** `str.split` refuses an empty separator. */
  datatype LineError = ValueError

  /**
   * The loop of `get_line_at_index` from offset `pos` on: the first line
   * whose end, plus `k` separator characters, lies past `index`.
   */
  function LineFrom(lines: seq<String>, k: nat, index: int, pos: int): Option<String>
    decreases |lines|
  {
    if |lines| == 0 then None
    else if pos + |lines[0]| + k > index then Some(lines[0])
    else LineFrom(lines[1..], k, index, pos + |lines[0]| + k)
  }

  /** Where line `j` starts when every line is followed by `k` separator characters. */
  function Start(lines: seq<String>, k: nat, j: nat): nat
    requires j <= |lines|
  {
    if j == 0 then 0 else |lines[0]| + k + Start(lines[1..], k, j - 1)
  }

  /** The length of all lines, each with a separator after it. */
  function Total(lines: seq<String>, k: nat): nat {
    if |lines| == 0 then 0 else |lines[0]| + k + Total(lines[1..], k)
  }

  /** `get_line_at_index(text, index, separator)`. */
  method GetLineAtIndex(text: String, index: int, separator: String) returns (r: Result<Option<String>, LineError>)
    ensures r.Failure? <==> |separator| == 0
    ensures r.Success? ==> r.value == LineFrom(Split(text, separator), |separator|, index, 0)
    ensures r.Success? && r.value.Some? ==> r.value.value in Split(text, separator)
  {
    if |separator| == 0 {
      return Failure(ValueError);
    }
    var lines := Split(text, separator);
    var currentPos := 0;
    var i := 0;
    while i < |lines|
      invariant 0 <= i <= |lines|
      invariant LineFrom(lines, |separator|, index, 0) == LineFrom(lines[i..], |separator|, index, currentPos)
    {
      var line := lines[i];
      assert lines[i..][1..] == lines[i + 1..];
      if currentPos + |line| + |separator| > index {
        return Success(Some(line));
      }
      currentPos := currentPos + |line| + |separator|;
      i := i + 1;
    }
    return Success(None);
  }

  /** The answer, when there is one, is one of the lines. */
  lemma {:induction false} LineFromIsALine(lines: seq<String>, k: nat, index: int, pos: int)
    ensures LineFrom(lines, k, index, pos).Some? ==> LineFrom(lines, k, index, pos).value in lines
    decreases |lines|
  {
    if |lines| > 0 && pos + |lines[0]| + k <= index {
      LineFromIsALine(lines[1..], k, index, pos + |lines[0]| + k);
    }
  }

  /**
   * Line `j` is the answer for every index from its start up to, but not
   * including, the end of the separator after it, so an index inside a
   * separator maps to the line before it.
   */
  lemma {:induction false} LineCoveringIndex(lines: seq<String>, k: nat, index: int, pos: int, j: nat)
    requires j < |lines|
    requires pos + Start(lines, k, j) <= index < pos + Start(lines, k, j) + |lines[j]| + k
    ensures LineFrom(lines, k, index, pos) == Some(lines[j])
    decreases j
  {
    if j > 0 {
      LineCoveringIndex(lines[1..], k, index, pos + |lines[0]| + k, j - 1);
    }
  }

  /** A negative index falls in the first line. */
  lemma NegativeIndexFirstLine(lines: seq<String>, k: nat, index: int)
    requires |lines| > 0 && index < 0
    ensures LineFrom(lines, k, index, 0) == Some(lines[0])
  {
  }

  /** There is no answer exactly when the index lies at or past the total length. */
  lemma {:induction false} NoLineWhenPastEnd(lines: seq<String>, k: nat, index: int, pos: int)
    requires |lines| >= 1
    ensures LineFrom(lines, k, index, pos).None? <==> index >= pos + Total(lines, k)
    decreases |lines|
  {
    if |lines| > 1 {
      NoLineWhenPastEnd(lines[1..], k, index, pos + |lines[0]| + k);
    }
  }

  /** The pieces of a split, each with one separator after it, are the text plus one separator. */
  lemma {:induction false} TotalOfJoin(parts: seq<String>, sep: String)
    requires |parts| >= 1
    ensures Total(parts, |sep|) == |Join(parts, sep)| + |sep|
    decreases |parts|
  {
    if |parts| > 1 {
      TotalOfJoin(parts[1..], sep);
    } else {
      assert parts[1..] == [];
    }
  }

  /** `get_line_at_index` gives None exactly when `index >= len(text) + len(separator)`. */
  lemma NoneExactlyPastText(text: String, index: int, separator: String)
    requires |separator| > 0
    ensures LineFrom(Split(text, separator), |separator|, index, 0).None? <==> index >= |text| + |separator|
  {
    NoLineWhenPastEnd(Split(text, separator), |separator|, index, 0);
    TotalOfJoin(Split(text, separator), separator);
    JoinSplit(text, separator);
  }

  /** `"something ; another thing".split(" ; ")`. */
  lemma SplitSample(text: String, sep: String)
    requires text == "something ; another thing" && sep == " ; "
    ensures Split(text, sep) == ["something", "another thing"]
  {
    var a, b := "something", "another thing";
    assert text == a + sep + b;
    assert sep[0] !in a;
    assert sep[1] !in b;
    LacksCharNotContains(b, sep, 1);
    SplitTwo(a, sep, b);
  }

  /** The examples at the bottom of the source file. */
  lemma SourceExamples(text: String, sep: String)
    requires text == "something ; another thing" && sep == " ; "
    ensures LineFrom(Split(text, sep), |sep|, 0, 0) == Some("something")
    ensures LineFrom(Split(text, sep), |sep|, 8, 0) == Some("something")
    ensures LineFrom(Split(text, sep), |sep|, 12, 0) == Some("another thing")
    ensures LineFrom(Split(text, sep), |sep|, 20, 0) == Some("another thing")
  {
    SplitSample(text, sep);
    var lines := Split(text, sep);
    assert Start(lines, 3, 1) == 12 by {
      assert Start(lines[1..], 3, 0) == 0;
    }
    LineCoveringIndex(lines, 3, 0, 0, 0);
    LineCoveringIndex(lines, 3, 8, 0, 0);
    LineCoveringIndex(lines, 3, 12, 0, 1);
    LineCoveringIndex(lines, 3, 20, 0, 1);
  }
}

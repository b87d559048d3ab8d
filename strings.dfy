/**
 * Python string primitives used throughout the repository: `lower`,
 * `title`, `strip`, `startswith`, `in` (substring), `split`, `join` and
 * `replace`.  Case mapping and white space are modelled on ASCII only.
 */
module Strings {
  import opened Wrappers

  type String = seq<char>

  // ---------------------------------------------------------------------
  // Characters

  predicate IsUpper(c: char) { 'A' <= c <= 'Z' }
  predicate IsLower(c: char) { 'a' <= c <= 'z' }
  predicate IsLetter(c: char) { IsUpper(c) || IsLower(c) }
  predicate IsDigit(c: char) { '0' <= c <= '9' }

  /** The ASCII characters for which Python's `str.isspace` holds (`strip`, `\s`). */
  const PyWhitespace: set<char> :=
    {' ', '\t', '\n', '\r', '\U{B}', '\U{C}', '\U{1C}', '\U{1D}', '\U{1E}', '\U{1F}'}

  /** The ASCII characters JavaScript's `String.prototype.trim` removes. */
  const JsWhitespace: set<char> := {' ', '\t', '\n', '\r', '\U{B}', '\U{C}'}

  function LowerChar(c: char): char {
    if IsUpper(c) then (c as int - 'A' as int + 'a' as int) as char else c
  }

  function UpperChar(c: char): char {
    if IsLower(c) then (c as int - 'a' as int + 'A' as int) as char else c
  }

  // ---------------------------------------------------------------------
  // Case mapping

  /** Python `s.lower()`. */
  function Lower(s: String): (r: String)
    ensures |r| == |s|
    ensures forall i :: 0 <= i < |s| ==> r[i] == LowerChar(s[i])
  {
    seq(|s|, i requires 0 <= i < |s| => LowerChar(s[i]))
  }

  /** A string that `lower` leaves unchanged has no upper-case letter. */
  predicate IsLowerCase(s: String) {
    forall i :: 0 <= i < |s| ==> !IsUpper(s[i])
  }

  /**
   * Python `s.title()`: a letter that follows a letter is lower-cased,
   * every other letter is upper-cased; other characters are unchanged.
   */
  function Title(s: String): (r: String)
    ensures |r| == |s|
  {
    seq(|s|, i requires 0 <= i < |s| =>
      if i > 0 && IsLetter(s[i - 1]) then LowerChar(s[i]) else UpperChar(s[i]))
  }

  lemma LowerOfLowerCase(s: String)
    requires IsLowerCase(s)
    ensures Lower(s) == s
  {
  }

  lemma LowerIsLowerCase(s: String)
    ensures IsLowerCase(Lower(s))
  {
  }

  /** Title-casing only changes the case of letters. */
  lemma LowerTitle(s: String)
    ensures Lower(Title(s)) == Lower(s)
  {
    var a, b := Lower(Title(s)), Lower(s);
    assert |a| == |b|;
    forall i | 0 <= i < |s| ensures a[i] == b[i] {
      var c := s[i];
      assert LowerChar(UpperChar(c)) == LowerChar(c);
      assert LowerChar(LowerChar(c)) == LowerChar(c);
    }
  }

  // ---------------------------------------------------------------------
  // Stripping

  function TrimLeft(s: String, cs: set<char>): (r: String)
    ensures |r| <= |s| && r == s[|s| - |r|..]
    ensures |r| > 0 ==> r[0] !in cs
    ensures forall i :: 0 <= i < |s| - |r| ==> s[i] in cs
  {
    if |s| > 0 && s[0] in cs then TrimLeft(s[1..], cs) else s
  }

  function TrimRight(s: String, cs: set<char>): (r: String)
    ensures |r| <= |s| && r == s[..|r|]
    ensures |r| > 0 ==> r[|r| - 1] !in cs
    ensures forall i :: |r| <= i < |s| ==> s[i] in cs
  {
    if |s| > 0 && s[|s| - 1] in cs then TrimRight(s[..|s| - 1], cs) else s
  }

  /** Python `s.strip(chars)`: drops leading and trailing characters of `cs`. */
  function StripChars(s: String, cs: set<char>): (r: String)
    ensures |r| > 0 ==> r[0] !in cs && r[|r| - 1] !in cs
  {
    TrimRight(TrimLeft(s, cs), cs)
  }

  /** Python `s.strip()`. */
  function Strip(s: String): String {
    StripChars(s, PyWhitespace)
  }

  /** The key normalisation `s.strip().lower()` used for every MeSH lookup. */
  function Normalize(s: String): String {
    Lower(Strip(s))
  }

  /** Normalising twice is normalising once. */
  lemma {:induction false} NormalizeIdempotent(s: String)
    ensures Normalize(Normalize(s)) == Normalize(s)
  {
    var x := Strip(s);
    var y := Lower(x);
    assert |y| > 0 ==> y[0] == LowerChar(x[0]) && y[|y| - 1] == LowerChar(x[|x| - 1]);
    TrimNoop(y, PyWhitespace);
    LowerIsLowerCase(x);
    LowerOfLowerCase(y);
  }

  /** A string with no character of `cs` at either end is already stripped. */
  lemma {:induction false} TrimNoop(s: String, cs: set<char>)
    requires |s| > 0 ==> s[0] !in cs && s[|s| - 1] !in cs
    ensures StripChars(s, cs) == s
  {
    assert TrimLeft(s, cs) == s;
    assert TrimRight(s, cs) == s;
  }

  lemma StripCharsIdempotent(s: String, cs: set<char>)
    ensures StripChars(StripChars(s, cs), cs) == StripChars(s, cs)
  {
    var r := StripChars(s, cs);
    if |r| > 0 {
      assert TrimLeft(r, cs) == r;
      assert TrimRight(r, cs) == r;
    }
  }

  // ---------------------------------------------------------------------
  // Prefixes and substrings

  /** Python `s.startswith(p)`. */
  predicate StartsWith(s: String, p: String) {
    |p| <= |s| && s[..|p|] == p
  }

  predicate OccursAt(s: String, sub: String, i: int) {
    0 <= i && i + |sub| <= |s| && s[i..i + |sub|] == sub
  }

  /** Python `sub in s`. */
  predicate Contains(s: String, sub: String) {
    exists i | 0 <= i <= |s| :: OccursAt(s, sub, i)
  }

  /** Leftmost occurrence of `sub` in `s` at or after `from`. */
  function FindFrom(s: String, sub: String, from: nat): (r: Option<nat>)
    ensures r.Some? ==> from <= r.value && OccursAt(s, sub, r.value)
    ensures r.Some? ==> forall j :: from <= j < r.value ==> !OccursAt(s, sub, j)
    ensures r.None? ==> forall j :: from <= j ==> !OccursAt(s, sub, j)
    decreases |s| - from
  {
    if from + |sub| > |s| then None
    else if s[from..from + |sub|] == sub then Some(from)
    else FindFrom(s, sub, from + 1)
  }

  /** Python `s.find(sub)`, with `None` for -1. */
  function Find(s: String, sub: String): (r: Option<nat>)
    ensures r.Some? ==> OccursAt(s, sub, r.value) && forall j :: 0 <= j < r.value ==> !OccursAt(s, sub, j)
    ensures r.None? <==> !Contains(s, sub)
  {
    FindFrom(s, sub, 0)
  }

  /** A one-character needle occurs exactly where that character stands. */
  lemma OccursAtChar(s: String, c: char, i: int)
    ensures OccursAt(s, [c], i) <==> 0 <= i < |s| && s[i] == c
  {
    if 0 <= i < |s| {
      assert s[i..i + 1] == [s[i]];
    }
  }

  lemma ContainsChar(s: String, c: char)
    ensures Contains(s, [c]) <==> c in s
  {
    if c in s {
      var i :| 0 <= i < |s| && s[i] == c;
      OccursAtChar(s, c, i);
    }
    if Contains(s, [c]) {
      var i :| OccursAt(s, [c], i);
      OccursAtChar(s, c, i);
    }
  }

  // ---------------------------------------------------------------------
  // Split, join and replace

  /** Python `s.split(sep)` for a non-empty separator. */
  function Split(s: String, sep: String): (r: seq<String>)
    requires |sep| > 0
    ensures |r| >= 1
    decreases |s|
  {
    match Find(s, sep)
    case None => [s]
    case Some(i) => [s[..i]] + Split(s[i + |sep|..], sep)
  }

  /** Python `sep.join(parts)`. */
  function Join(parts: seq<String>, sep: String): String
    decreases |parts|
  {
    if |parts| == 0 then []
    else if |parts| == 1 then parts[0]
    else parts[0] + sep + Join(parts[1..], sep)
  }

  /** Python `s.replace(from, to)` for a non-empty `from`. */
  function Replace(s: String, from: String, to: String): String
    requires |from| > 0
  {
    Join(Split(s, from), to)
  }

  lemma JoinCons(p: String, rest: seq<String>, sep: String)
    requires |rest| >= 1
    ensures Join([p] + rest, sep) == p + sep + Join(rest, sep)
  {
    assert ([p] + rest)[1..] == rest;
  }

  /** Joining three strings. */
  lemma JoinThree(a: String, b: String, c: String, sep: String)
    ensures Join([a, b, c], sep) == a + sep + b + sep + c
  {
    JoinCons(b, [c], sep);
    JoinCons(a, [b, c], sep);
  }

  /** Joining five strings. */
  lemma JoinFive(a: String, b: String, c: String, d: String, e: String, sep: String)
    ensures Join([a, b, c, d, e], sep) == a + sep + b + sep + c + sep + d + sep + e
  {
    JoinThree(c, d, e, sep);
    JoinCons(b, [c, d, e], sep);
    JoinCons(a, [b, c, d, e], sep);
  }

  /** Splitting and joining with the same separator gives the input back. */
  lemma {:induction false} JoinSplit(s: String, sep: String)
    requires |sep| > 0
    ensures Join(Split(s, sep), sep) == s
    decreases |s|
  {
    var f := Find(s, sep);
    if f.Some? {
      var i := f.value;
      var rest := s[i + |sep|..];
      SplitFound(s, sep);
      JoinSplit(rest, sep);
      JoinCons(s[..i], Split(rest, sep), sep);
      AroundOccurrence(s, sep, i);
    }
  }

  /** Where the first separator is found, the split is the text before it, then the split of the rest. */
  lemma SplitFound(s: String, sep: String)
    requires |sep| > 0 && Find(s, sep).Some?
    ensures var i := Find(s, sep).value;
      i + |sep| <= |s| && Split(s, sep) == [s[..i]] + Split(s[i + |sep|..], sep)
  {
  }

  /** A text is what precedes an occurrence, the occurrence, and what follows it. */
  lemma AroundOccurrence(s: String, sub: String, i: nat)
    requires OccursAt(s, sub, i)
    ensures s == s[..i] + sub + s[i + |sub|..]
  {
    assert s == s[..i] + s[i..i + |sub|] + s[i + |sub|..];
  }

  /** A text missing one character of `sub` does not contain `sub`. */
  lemma LacksCharNotContains(s: String, sub: String, k: nat)
    requires k < |sub| && sub[k] !in s
    ensures !Contains(s, sub)
  {
    forall i | 0 <= i <= |s| ensures !OccursAt(s, sub, i) {
      if i + |sub| <= |s| {
        assert s[i..i + |sub|][k] == s[i + k];
      }
    }
  }

  /** The join of the first `k` pieces, followed by the rest, is the whole join. */
  lemma {:induction false} JoinPrefix(parts: seq<String>, sep: String, k: nat)
    requires 1 <= k <= |parts|
    ensures Join(parts, sep) ==
      Join(parts[..k], sep) + (if k < |parts| then sep + Join(parts[k..], sep) else [])
    decreases k
  {
    if k == 1 {
      assert parts[..1] == [parts[0]];
      if |parts| > 1 {
        assert parts[1..] == parts[k..];
      }
    } else {
      var rest := parts[1..];
      JoinPrefix(rest, sep, k - 1);
      assert parts[..k][1..] == rest[..k - 1];
      assert rest[k - 1..] == parts[k..];
    }
  }

  /** A text without the separator splits into itself alone. */
  lemma SplitNoSep(s: String, sep: String)
    requires |sep| > 0 && !Contains(s, sep)
    ensures Split(s, sep) == [s]
  {
  }

  /** `(a + sep + b).split(sep)` starts with `a` when `a` lacks the separator's first character. */
  lemma SplitFirst(a: String, sep: String, b: String)
    requires |sep| > 0 && sep[0] !in a
    ensures Split(a + sep + b, sep) == [a] + Split(b, sep)
  {
    var s := a + sep + b;
    assert OccursAt(s, sep, |a|) by {
      assert s[|a|..|a| + |sep|] == sep;
    }
    forall j | 0 <= j < |a| ensures !OccursAt(s, sep, j) {
      assert s[j] == a[j];
      if j + |sep| <= |s| {
        assert s[j..j + |sep|][0] == a[j];
      }
    }
    assert Find(s, sep) == Some(|a|);
    assert s[..|a|] == a && s[|a| + |sep|..] == b;
  }

  /** `(a + sep + b).split(sep)` is `[a, b]` when moreover `b` lacks the separator. */
  lemma SplitTwo(a: String, sep: String, b: String)
    requires |sep| > 0 && sep[0] !in a && !Contains(b, sep)
    ensures Split(a + sep + b, sep) == [a, b]
  {
    SplitFirst(a, sep, b);
    SplitNoSep(b, sep);
  }

  /** What occurs in a suffix occurs in the whole text. */
  lemma {:induction false} ContainsInSuffix(s: String, k: nat, p: String)
    requires k <= |s| && Contains(s[k..], p)
    ensures Contains(s, p)
  {
    var rest := s[k..];
    var j :| 0 <= j <= |rest| && OccursAt(rest, p, j);
    assert s[k + j..k + j + |p|] == rest[j..j + |p|];
    assert OccursAt(s, p, k + j);
  }

  /** Every piece of a split occurs in the text. */
  lemma {:induction false} SplitPiecesOccur(s: String, sep: String)
    requires |sep| > 0
    ensures forall p :: p in Split(s, sep) ==> Contains(s, p)
    decreases |s|
  {
    var f := Find(s, sep);
    if f.Some? {
      var i := f.value;
      var rest := s[i + |sep|..];
      assert Split(s, sep) == [s[..i]] + Split(rest, sep);
      SplitPiecesOccur(rest, sep);
      assert OccursAt(s, s[..i], 0);
      forall p | p in Split(rest, sep) ensures Contains(s, p) {
        ContainsInSuffix(s, i + |sep|, p);
      }
    } else {
      assert OccursAt(s, s, 0);
    }
  }

  /** No piece of a split contains the separator. */
  lemma {:induction false} SplitPiecesLackSep(s: String, sep: String)
    requires |sep| > 0
    ensures forall p :: p in Split(s, sep) ==> !Contains(p, sep)
    decreases |s|
  {
    var f := Find(s, sep);
    if f.Some? {
      var i := f.value;
      var rest := s[i + |sep|..];
      SplitFound(s, sep);
      SplitPiecesLackSep(rest, sep);
      BeforeFirstLacks(s, sep, i);
    }
  }

  /** The text before the first occurrence does not contain the separator. */
  lemma BeforeFirstLacks(s: String, sep: String, i: nat)
    requires |sep| > 0 && i <= |s| && forall j :: 0 <= j < i ==> !OccursAt(s, sep, j)
    ensures !Contains(s[..i], sep)
  {
    var head := s[..i];
    forall j | 0 <= j <= |head| ensures !OccursAt(head, sep, j) {
      if j + |sep| <= |head| {
        assert j < i && !OccursAt(s, sep, j);
        assert head[j..j + |sep|] == s[j..j + |sep|];
      }
    }
  }

  /** Splitting on a character that does not occur gives the whole string. */
  lemma SplitAbsentChar(s: String, c: char)
    requires c !in s
    ensures Split(s, [c]) == [s]
  {
    ContainsChar(s, c);
  }

  /** Joining pieces free of a character and splitting on it again is the identity. */
  lemma {:induction false} SplitJoinChar(parts: seq<String>, c: char)
    requires |parts| >= 1
    requires forall p :: p in parts ==> c !in p
    ensures Split(Join(parts, [c]), [c]) == parts
    decreases |parts|
  {
    if |parts| == 1 {
      SplitAbsentChar(parts[0], c);
    } else {
      var p, rest := parts[0], parts[1..];
      var tail := Join(rest, [c]);
      var s := Join(parts, [c]);
      assert s == p + [c] + tail;
      assert p in parts;
      forall j | 0 <= j < |p| ensures !OccursAt(s, [c], j) {
        OccursAtChar(s, c, j);
        assert s[j] == p[j];
      }
      OccursAtChar(s, c, |p|);
      assert Find(s, [c]) == Some(|p|);
      assert s[..|p|] == p;
      assert s[|p| + 1..] == tail;
      assert forall q :: q in rest ==> q in parts;
      SplitJoinChar(rest, c);
      assert parts == [p] + rest;
    }
  }

  /** Replaces every occurrence of character `a` by `b`, character by character. */
  function MapChar(s: String, a: char, b: char): (r: String)
    ensures |r| == |s|
    ensures forall i :: 0 <= i < |s| ==> r[i] == (if s[i] == a then b else s[i])
  {
    seq(|s|, i requires 0 <= i < |s| => if s[i] == a then b else s[i])
  }

  /** `replace` with one-character arguments is a character map. */
  lemma {:induction false} ReplaceChar(s: String, a: char, b: char)
    ensures Replace(s, [a], [b]) == MapChar(s, a, b)
    decreases |s|
  {
    match Find(s, [a])
    case None =>
      ContainsChar(s, a);
      assert MapChar(s, a, b) == s;
    case Some(i) =>
      var rest := s[i + 1..];
      OccursAtChar(s, a, i);
      forall j | 0 <= j < i ensures s[j] != a {
        OccursAtChar(s, a, j);
      }
      ReplaceChar(rest, a, b);
      JoinCons(s[..i], Split(rest, [a]), [b]);
      assert MapChar(s[..i], a, b) == s[..i];
      assert MapChar(s, a, b) == s[..i] + [b] + MapChar(rest, a, b);
  }

  /** Joining pieces that all lack a character gives a string lacking it too. */
  lemma {:induction false} JoinLacksChar(parts: seq<String>, sep: String, c: char)
    requires forall p :: p in parts ==> c !in p
    requires c !in sep
    ensures c !in Join(parts, sep)
    decreases |parts|
  {
    if |parts| > 1 {
      assert forall p :: p in parts[1..] ==> p in parts;
      JoinLacksChar(parts[1..], sep, c);
    }
  }
}

/**
 * The pieces of Python's `re` engine that the age parsers rely on, for
 * the patterns they use: a leftmost search over start positions, greedy
 * runs of a character class, alternation (first alternative that fits)
 * and the decimal tokens `\d+` and `\d+\.?\d*` with their `float` value.
 */
module Scan {
  import opened Wrappers
  import opened Strings

  /**
   * `re.search`: the leftmost start position in `[from, n)` at which the
   * pattern `m` matches, with what it captured there.
   */
  function Search<T>(n: nat, from: nat, m: nat -> Option<T>): (r: Option<(nat, T)>)
    ensures r.Some? ==> from <= r.value.0 < n && m(r.value.0) == Some(r.value.1)
    ensures r.Some? ==> forall j :: from <= j < r.value.0 ==> m(j).None?
    ensures r.None? <==> forall j :: from <= j < n ==> m(j).None?
    decreases n - from
  {
    if from >= n then None
    else match m(from)
      case Some(v) => Some((from, v))
      case None => Search(n, from + 1, m)
  }

  /** Positions before `p` that do not match can be skipped. */
  lemma {:induction false} SearchFrom<T>(n: nat, from: nat, p: nat, m: nat -> Option<T>)
    requires from <= p
    requires forall j :: from <= j < p ==> m(j).None?
    ensures Search(n, from, m) == Search(n, p, m)
    decreases p - from
  {
    if from < p && from < n {
      SearchFrom(n, from + 1, p, m);
    }
  }

  /** End of the greedy run of characters of `cs` that starts at `i` (`[cs]*`). */
  function RunEnd(s: String, i: nat, cs: set<char>): (r: nat)
    requires i <= |s|
    ensures i <= r <= |s|
    ensures forall k :: i <= k < r ==> s[k] in cs
    ensures r < |s| ==> s[r] !in cs
    decreases |s| - i
  {
    if i < |s| && s[i] in cs then RunEnd(s, i + 1, cs) else i
  }

  /** End of the greedy run of decimal digits that starts at `i` (`\d*`). */
  function DigitsEnd(s: String, i: nat): (r: nat)
    requires i <= |s|
    ensures i <= r <= |s|
    ensures forall k :: i <= k < r ==> IsDigit(s[k])
    ensures r < |s| ==> !IsDigit(s[r])
    decreases |s| - i
  {
    if i < |s| && IsDigit(s[i]) then DigitsEnd(s, i + 1) else i
  }

  /** A run is determined by where it stops. */
  lemma RunEndAt(s: String, i: nat, j: nat, cs: set<char>)
    requires i <= j <= |s|
    requires forall k :: i <= k < j ==> s[k] in cs
    requires j == |s| || s[j] !in cs
    ensures RunEnd(s, i, cs) == j
  {
  }

  lemma DigitsEndAt(s: String, i: nat, j: nat)
    requires i <= j <= |s|
    requires forall k :: i <= k < j ==> IsDigit(s[k])
    requires j == |s| || !IsDigit(s[j])
    ensures DigitsEnd(s, i) == j
  {
  }

  predicate AllDigits(d: String) {
    forall k :: 0 <= k < |d| ==> IsDigit(d[k])
  }

  function DigitValue(c: char): nat
    requires IsDigit(c)
  {
    c as int - '0' as int
  }

  /** `int(d)` for a string of decimal digits. */
  function NatValue(d: String): nat
    requires AllDigits(d)
  {
    if |d| == 0 then 0 else NatValue(d[..|d| - 1]) * 10 + DigitValue(d[|d| - 1])
  }

  /** The value of the digits `d` written after a decimal point. */
  function FracValue(d: String): real
    requires AllDigits(d)
  {
    if |d| == 0 then 0.0 else (DigitValue(d[0]) as real + FracValue(d[1..])) / 10.0
  }

  /** A fractional part lies in `[0, 1)`. */
  lemma {:induction false} FracBelowOne(d: String)
    requires AllDigits(d)
    ensures 0.0 <= FracValue(d) < 1.0
  {
    if |d| > 0 {
      FracBelowOne(d[1..]);
    }
  }

  /** End of `\d+\.?\d*` matched greedily at a digit. */
  function NumberEnd(s: String, i: nat): (r: nat)
    requires i < |s| && IsDigit(s[i])
    ensures i < r <= |s|
  {
    var e := DigitsEnd(s, i);
    if e < |s| && s[e] == '.' then DigitsEnd(s, e + 1) else e
  }

  /** `float` of the token `\d+\.?\d*` that starts at `i`. */
  function NumberValue(s: String, i: nat): real
    requires i < |s| && IsDigit(s[i])
  {
    var e := DigitsEnd(s, i);
    NatValue(s[i..e]) as real
      + if e < |s| && s[e] == '.' then FracValue(s[e + 1..DigitsEnd(s, e + 1)]) else 0.0
  }

  /** A stretch of digit characters, taken as a string. */
  lemma DigitSlice(s: String, i: nat, j: nat)
    requires i <= j <= |s|
    requires forall k :: i <= k < j ==> IsDigit(s[k])
    ensures AllDigits(s[i..j])
  {
    var d := s[i..j];
    forall k | 0 <= k < |d| ensures IsDigit(d[k]) {
      assert d[k] == s[i + k];
    }
  }

  /** A run of digits not followed by a point is an integer token with the value of its digits. */
  lemma IntegerToken(s: String, i: nat, j: nat)
    requires i < j <= |s|
    requires forall k :: i <= k < j ==> IsDigit(s[k])
    requires j == |s| || (!IsDigit(s[j]) && s[j] != '.')
    ensures AllDigits(s[i..j]) && NumberEnd(s, i) == j
    ensures NumberValue(s, i) == NatValue(s[i..j]) as real
  {
    DigitsEndAt(s, i, j);
    DigitSlice(s, i, j);
  }

  /**
   * The greedy token is the longest match of `\d+\.?\d*`: it is digits,
   * optionally a point and more digits, and it cannot be extended.
   */
  lemma {:induction false} NumberTokenMaximal(s: String, i: nat)
    requires i < |s| && IsDigit(s[i])
    ensures var r := NumberEnd(s, i); var e := DigitsEnd(s, i);
      AllDigits(s[i..e]) && i < e <= r
      && (r > e ==> s[e] == '.' && AllDigits(s[e + 1..r]))
      && (r < |s| ==> !IsDigit(s[r]) && (r == e ==> s[r] != '.'))
  {
    var e := DigitsEnd(s, i);
    DigitSlice(s, i, e);
    if e < |s| && s[e] == '.' {
      DigitSlice(s, e + 1, DigitsEnd(s, e + 1));
    }
  }

  /** The value of a token lies between its integer part and the next integer. */
  lemma {:induction false} NumberValueBounds(s: String, i: nat)
    requires i < |s| && IsDigit(s[i])
    ensures AllDigits(s[i..DigitsEnd(s, i)])
    ensures NatValue(s[i..DigitsEnd(s, i)]) as real <= NumberValue(s, i)
    ensures NumberValue(s, i) < NatValue(s[i..DigitsEnd(s, i)]) as real + 1.0
  {
    var e := DigitsEnd(s, i);
    DigitSlice(s, i, e);
    var a := NatValue(s[i..e]) as real;
    if e < |s| && s[e] == '.' {
      var r := DigitsEnd(s, e + 1);
      DigitSlice(s, e + 1, r);
      var f := FracValue(s[e + 1..r]);
      FracBelowOne(s[e + 1..r]);
      assert NumberValue(s, i) == a + f;
    } else {
      assert NumberValue(s, i) == a;
    }
  }

  /** The first of `alts` that occurs in `s` at `i` (regex alternation `a|b|...`). */
  function AltAt(s: String, i: nat, alts: seq<String>): (r: Option<String>)
    ensures r.Some? ==> r.value in alts && OccursAt(s, r.value, i)
    ensures r.None? <==> forall k :: 0 <= k < |alts| ==> !OccursAt(s, alts[k], i)
  {
    if |alts| == 0 then None
    else if OccursAt(s, alts[0], i) then Some(alts[0])
    else AltAt(s, i, alts[1..])
  }

  /** Alternation only looks forward: a prefix before the position does not matter. */
  lemma {:induction false} AltAtShift(a: String, t: String, alts: seq<String>)
    ensures AltAt(a + t, |a|, alts) == AltAt(t, 0, alts)
    decreases |alts|
  {
    if |alts| > 0 {
      var x := alts[0];
      if |x| <= |t| {
        assert (a + t)[|a|..|a| + |x|] == t[0..|x|];
      }
      AltAtShift(a, t, alts[1..]);
    }
  }

  /** The same, at a position computed elsewhere. */
  lemma AltAtShiftAt(a: String, t: String, i: nat, alts: seq<String>)
    requires i == |a|
    ensures AltAt(a + t, i, alts) == AltAt(t, 0, alts)
  {
    AltAtShift(a, t, alts);
  }

  /** No alternative fits where none of them starts with the character found. */
  lemma AltAtNoFirstChar(s: String, i: nat, alts: seq<String>)
    requires i < |s| && forall a :: a in alts ==> |a| > 0 && a[0] != s[i]
    ensures AltAt(s, i, alts).None?
  {
    forall k | 0 <= k < |alts| ensures !OccursAt(s, alts[k], i) {
      assert alts[k] in alts;
    }
  }

  /** An earlier alternative wins over a later one. */
  lemma {:induction false} AltAtFirst(s: String, i: nat, alts: seq<String>, k: nat)
    requires k < |alts| && OccursAt(s, alts[k], i)
    requires forall j :: 0 <= j < k ==> !OccursAt(s, alts[j], i)
    ensures AltAt(s, i, alts) == Some(alts[k])
    decreases k
  {
    if k > 0 {
      AltAtFirst(s, i, alts[1..], k - 1);
    }
  }
}

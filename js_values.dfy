/**
 * The JavaScript primitives the two front-end scripts use on their list of
 * PubMed ids: `String.prototype.trim` and `split`, `Number(x)` on decimal
 * literals, `Array.prototype.includes` (SameValueZero), `indexOf` (strict
 * equality), `findIndex`, `filter`, and the `removeItemOnce` helper both
 * scripts define.
 */
module JsValues {
  import opened Wrappers
  import opened Strings
  import opened Seqs
  import AgeExtraction
  import Scan

  /** The values that reach the id list: a number, `NaN`, or `null`. */
  datatype JsValue = Num(v: real) | NaN | Null

  /** `s.trim()`. */
  function Trim(s: String): String {
    StripChars(s, JsWhitespace)
  }

  /** `s.split(sep)`: an empty separator splits into single characters. */
  function JsSplit(s: String, sep: String): (r: seq<String>)
    ensures |sep| > 0 ==> r == Split(s, sep)
    ensures |sep| == 0 ==> |r| == |s| && forall i :: 0 <= i < |s| ==> r[i] == [s[i]]
  {
    if |sep| == 0 then seq(|s|, i requires 0 <= i < |s| => [s[i]]) else Split(s, sep)
  }

  /**
   * `Number(x)`: blank text is 0, a decimal literal (optional sign, digits
   * with an optional point) its value, anything else `NaN`.
   */
  function NumberOf(x: String): (r: JsValue)
    ensures r != Null
  {
    var t := Trim(x);
    if |t| == 0 then Num(0.0)
    else match AgeExtraction.ParseFloat(t)
      case Some(v) => Num(v)
      case None => NaN
  }

  /** `Number(d)` of a single digit is its value. */
  lemma NumberOfDigit(t: String)
    requires |t| == 1 && IsDigit(t[0])
    ensures NumberOf(t) == Num(Scan.DigitValue(t[0]) as real)
  {
    SingleDigitFloat(t);
    TrimNoop(t, JsWhitespace);
  }

  lemma SingleDigitFloat(t: String)
    requires |t| == 1 && IsDigit(t[0])
    ensures AgeExtraction.ParseFloat(t) == Some(Scan.DigitValue(t[0]) as real)
  {
    AgeExtraction.ParseFloatInteger(t);
    SingleDigitValue(t);
  }

  lemma SingleDigitValue(t: String)
    requires |t| == 1 && IsDigit(t[0])
    ensures Scan.NatValue(t) == Scan.DigitValue(t[0])
  {
    assert t[..0] == [];
  }

  /** A single character that is no digit, sign or white space is `NaN`. */
  lemma NumberOfLetter(t: String)
    requires |t| == 1 && !IsDigit(t[0]) && t[0] !in JsWhitespace && t[0] != '+' && t[0] != '-'
    ensures NumberOf(t) == NaN
  {
    assert Trim(t) == t by {
      TrimNoop(t, JsWhitespace);
    }
  }

  /** `a === b`: `NaN` is not equal to itself. */
  predicate StrictEquals(a: JsValue, b: JsValue) {
    a == b && !a.NaN?
  }

  /** `arr.includes(x)` (SameValueZero, under which `NaN` equals itself). */
  predicate Includes(arr: seq<JsValue>, x: JsValue) {
    x in arr
  }

  /** `xs.map((x) => Number(x))`. */
  function Numbers(xs: seq<String>): (r: seq<JsValue>)
    ensures |r| == |xs| && forall i :: 0 <= i < |xs| ==> r[i] == NumberOf(xs[i])
  {
    seq(|xs|, i requires 0 <= i < |xs| => NumberOf(xs[i]))
  }

  /** `xs.findIndex(Number.isNaN)`: the first index of a `NaN`, or -1. */
  function FindNaN(xs: seq<JsValue>): (r: int)
    ensures -1 <= r < |xs|
    ensures r == -1 <==> NaN !in xs
    ensures r >= 0 ==> xs[r] == NaN && NaN !in xs[..r]
    decreases |xs|
  {
    if |xs| == 0 then -1
    else if xs[0] == NaN then 0
    else
      var k := FindNaN(xs[1..]);
      assert xs == [xs[0]] + xs[1..];
      if k == -1 then -1 else
        assert xs[..k + 1] == [xs[0]] + xs[1..][..k];
        k + 1
  }

  /** `arr.indexOf(value)`: the first index strictly equal to `value`, or -1. */
  function IndexOf(arr: seq<JsValue>, value: JsValue): (r: int)
    ensures -1 <= r < |arr|
    ensures r == -1 <==> forall k :: 0 <= k < |arr| ==> !StrictEquals(arr[k], value)
    ensures r >= 0 ==> StrictEquals(arr[r], value) && forall k :: 0 <= k < r ==> !StrictEquals(arr[k], value)
    decreases |arr|
  {
    if |arr| == 0 then -1
    else if StrictEquals(arr[0], value) then 0
    else
      var k := IndexOf(arr[1..], value);
      if k == -1 then -1 else k + 1
  }

  /** `removeItemOnce(arr, value)` on the contents of `arr`. */
  function RemovedOnce(arr: seq<JsValue>, value: JsValue): seq<JsValue> {
    var index := IndexOf(arr, value);
    if index > -1 then arr[..index] + arr[index + 1..] else arr
  }

  /**
   * A value strictly equal to an element loses its first occurrence and
   * nothing else; otherwise (absent, or `NaN`) the array is unchanged.
   */
  lemma RemovedOnceSpec(arr: seq<JsValue>, value: JsValue)
    ensures value in arr && !value.NaN? ==>
      exists i :: 0 <= i < |arr| && arr[i] == value && value !in arr[..i]
        && RemovedOnce(arr, value) == arr[..i] + arr[i + 1..]
    ensures !(value in arr && !value.NaN?) ==> RemovedOnce(arr, value) == arr
    ensures value in arr && !value.NaN? ==>
      multiset(RemovedOnce(arr, value)) == multiset(arr) - multiset{value}
  {
    var i := IndexOf(arr, value);
    if value in arr && !value.NaN? {
      assert i >= 0;
      assert value !in arr[..i];
      assert arr == arr[..i] + [arr[i]] + arr[i + 1..];
    }
  }

  /** `ids.filter((x) => !listed.includes(x))`: the ids not yet listed, in order. */
  function NotListed(listed: seq<JsValue>, ids: seq<JsValue>): (r: seq<JsValue>)
    ensures |r| <= |ids|
    decreases |ids|
  {
    if |ids| == 0 then []
    else if Includes(listed, ids[0]) then NotListed(listed, ids[1..])
    else [ids[0]] + NotListed(listed, ids[1..])
  }

  /**
   * The filter keeps exactly the ids that are not listed, in their order,
   * each as many times as the batch holds it.
   */
  lemma {:induction false} NotListedSpec(listed: seq<JsValue>, ids: seq<JsValue>, x: JsValue)
    ensures x in NotListed(listed, ids) <==> x in ids && x !in listed
    ensures x !in listed ==> multiset(NotListed(listed, ids))[x] == multiset(ids)[x]
    ensures x in listed ==> multiset(NotListed(listed, ids))[x] == 0
    ensures IsSubsequence(NotListed(listed, ids), ids)
    decreases |ids|
  {
    if |ids| > 0 {
      NotListedSpec(listed, ids[1..], x);
      assert ids == [ids[0]] + ids[1..];
      var r := NotListed(listed, ids);
      if !Includes(listed, ids[0]) {
        assert r[0] == ids[0] && r[1..] == NotListed(listed, ids[1..]);
      }
    }
  }

  /** The elements of a sequence are pairwise distinct. */
  predicate Distinct(xs: seq<JsValue>) {
    forall i, j :: 0 <= i < j < |xs| ==> xs[i] != xs[j]
  }

  /** Appending the unlisted ids of a distinct batch to a distinct list keeps it distinct. */
  lemma AppendNotListedDistinct(listed: seq<JsValue>, ids: seq<JsValue>)
    requires Distinct(listed) && Distinct(ids)
    ensures Distinct(listed + NotListed(listed, ids))
  {
    var added := NotListed(listed, ids);
    var all := listed + added;
    forall x | x in added ensures x !in listed && multiset(added)[x] <= 1 {
      NotListedSpec(listed, ids, x);
      DistinctCount(ids, x);
    }
    forall i, j | 0 <= i < j < |all| ensures all[i] != all[j] {
      if j >= |listed| {
        var y := all[j];
        assert y == added[j - |listed|] && y in added;
        if i >= |listed| {
          assert added[i - |listed|] in added;
          CountOnce(added, i - |listed|, j - |listed|);
        }
      }
    }
  }

  /** A distinct sequence holds each value at most once. */
  lemma {:induction false} DistinctCount(xs: seq<JsValue>, x: JsValue)
    requires Distinct(xs)
    ensures multiset(xs)[x] <= 1
    decreases |xs|
  {
    if |xs| > 0 {
      assert xs == [xs[0]] + xs[1..];
      DistinctCount(xs[1..], x);
      if xs[0] == x {
        assert x !in xs[1..];
      }
    }
  }

  /** A value held at most once is not at two positions. */
  lemma CountOnce(xs: seq<JsValue>, i: nat, j: nat)
    requires i < j < |xs| && multiset(xs)[xs[i]] <= 1
    ensures xs[i] != xs[j]
  {
    assert xs == xs[..i] + [xs[i]] + xs[i + 1..j] + [xs[j]] + xs[j + 1..];
  }
}

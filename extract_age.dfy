/**
 * Age extraction from free text (src/parsing/age/extract_age.py): a plain
 * number, a range `a-b unit`, `N+`, `>N`, `<N` or `N unit`, tried in that
 * order on the lower-cased, stripped text, with the unit converted to
 * years on request.
 */
module AgeExtraction {
  import opened Wrappers
  import opened Strings
  import opened Scan

  /** `INF_AGE` and `MIN_AGE`: the open ends of `N+`, `>N` and `<N`. */
  const InfAge: real := 130.0
  const MinAge: real := 0.0

  const YearUnits: seq<String> := ["year", "years", "yr", "yrs", "y"]
  const MonthUnits: seq<String> := ["month", "months", "mo", "mos"]
  const WeekUnits: seq<String> := ["week", "weeks", "wks", "wk", "w"]
  const DayUnits: seq<String> := ["day", "days", "d"]

  /** The alternatives of the unit group `(year|yr|month|mo|week|wk|w|day|d)`, in order. */
  const RegexUnits: seq<String> := ["year", "yr", "month", "mo", "week", "wk", "w", "day", "d"]

  /** A float, or a pair of floats for a range. */
  datatype Age = Value(x: real) | Range(lo: real, hi: real)

  predicate NonNegative(a: Age) {
    match a
    case Value(x) => x >= 0.0
    case Range(lo, hi) => lo >= 0.0 && hi >= 0.0
  }

  // ---------------------------------------------------------------------
  // normalize_to_years

  /** `normalize_to_years(value, unit)`: None for a unit it does not know. */
  function NormalizeToYears(value: real, unit: String): (r: Option<real>)
    ensures r.None? <==> Lower(unit) !in YearUnits + MonthUnits + WeekUnits + DayUnits
  {
    var u := Lower(unit);
    if u in YearUnits then Some(value)
    else if u in MonthUnits then Some(value / 12.0)
    else if u in WeekUnits then Some(value / 52.0)
    else if u in DayUnits then Some(value / 365.0)
    else None
  }

  /** The years in one unit: 1, 1/12, 1/52 or 1/365. */
  lemma {:induction false} NormalizeScales(value: real, unit: String)
    requires NormalizeToYears(value, unit).Some?
    ensures NormalizeToYears(1.0, unit).Some?
    ensures var f := NormalizeToYears(1.0, unit).value;
      f in {1.0, 1.0 / 12.0, 1.0 / 52.0, 1.0 / 365.0}
      && NormalizeToYears(value, unit) == Some(value * f)
  {
    var u := Lower(unit);
    if u in YearUnits {
    } else if u in MonthUnits {
      assert value / 12.0 == value * (1.0 / 12.0);
    } else if u in WeekUnits {
      assert value / 52.0 == value * (1.0 / 52.0);
    } else {
      assert u in DayUnits;
      assert value / 365.0 == value * (1.0 / 365.0);
    }
  }

  /** The unit is compared in lower case. */
  lemma {:induction false} NormalizeIgnoresCase(value: real, unit: String)
    ensures NormalizeToYears(value, unit) == NormalizeToYears(value, Lower(unit))
  {
    LowerIsLowerCase(unit);
    LowerOfLowerCase(Lower(unit));
  }

  /** Normalisation keeps the order of ages and never turns a non-negative age negative. */
  lemma {:induction false} NormalizeMonotone(v: real, w: real, unit: String)
    requires v <= w && NormalizeToYears(v, unit).Some?
    ensures NormalizeToYears(w, unit).Some?
    ensures NormalizeToYears(v, unit).value <= NormalizeToYears(w, unit).value
    ensures v >= 0.0 ==> NormalizeToYears(v, unit).value >= 0.0
  {
  }

  /** Every unit the regexes can capture is one `normalize_to_years` knows. */
  lemma CapturedUnitsHandled(unit: String)
    requires unit in RegexUnits
    ensures forall v :: NormalizeToYears(v, unit).Some?
  {
    LowerOfLowerCase(unit);
  }

  // ---------------------------------------------------------------------
  // is_number (decimal notation only)

  /** `float(t)` for an unsigned decimal: `digits`, `digits.`, `digits.digits` or `.digits`. */
  function ParseUnsigned(t: String): (r: Option<real>)
    ensures r.Some? ==> r.value >= 0.0 && exists k :: 0 <= k < |t| && IsDigit(t[k])
  {
    var e := DigitsEnd(t, 0);
    if e == |t| && e > 0 then
      DigitSlice(t, 0, e);
      Some(NatValue(t) as real)
    else if e < |t| && t[e] == '.' && DigitsEnd(t, e + 1) == |t| && (e > 0 || e + 1 < |t|) then
      DigitSlice(t, 0, e);
      DigitSlice(t, e + 1, |t|);
      FracBelowOne(t[e + 1..]);
      assert e > 0 ==> IsDigit(t[0]);
      assert e == 0 ==> IsDigit(t[1]);
      Some(NatValue(t[..e]) as real + FracValue(t[e + 1..]))
    else None
  }

  /** `float(t)` on decimal notation with an optional sign; None where it raises. */
  function ParseFloat(t: String): (r: Option<real>)
    ensures r.Some? ==> exists k :: 0 <= k < |t| && IsDigit(t[k])
  {
    if |t| > 0 && (t[0] == '+' || t[0] == '-') then
      match ParseUnsigned(t[1..])
      case None => None
      case Some(v) =>
        assert exists k :: 0 <= k < |t[1..]| && IsDigit(t[1..][k]);
        Some(if t[0] == '-' then -v else v)
    else ParseUnsigned(t)
  }

  /** `is_number(t)`. */
  predicate IsNumber(t: String) {
    ParseFloat(t).Some?
  }

  /** Text with a space after its first character is no number. */
  lemma {:induction false} NotNumberAtSpace(t: String, k: nat)
    requires 0 < k < |t| && t[k] == ' '
    ensures !IsNumber(t)
  {
    UnsignedAtSpace(t, k);
    if t[0] == '+' || t[0] == '-' {
      assert t[1..][k - 1] == ' ';
      UnsignedAtSpace(t[1..], k - 1);
    }
  }

  lemma {:induction false} UnsignedAtSpace(t: String, k: nat)
    requires k < |t| && t[k] == ' '
    ensures ParseUnsigned(t).None?
  {
  }

  /** A string of digits is the integer it spells. */
  lemma {:induction false} ParseFloatInteger(t: String)
    requires |t| > 0 && AllDigits(t)
    ensures ParseFloat(t) == Some(NatValue(t) as real)
  {
    assert IsDigit(t[0]);
  }

  /** A minus sign negates, a plus sign changes nothing. */
  lemma {:induction false} ParseFloatSign(t: String)
    requires |t| > 0 && IsDigit(t[0])
    ensures ParseFloat(['-'] + t).Some? <==> IsNumber(t)
    ensures ParseFloat(['-'] + t).Some? ==> ParseFloat(['-'] + t).value == -ParseFloat(t).value
    ensures ParseFloat(['+'] + t) == ParseFloat(t)
  {
    assert (['-'] + t)[1..] == t;
    assert (['+'] + t)[1..] == t;
  }

  /** Only a leading minus sign gives a negative number. */
  lemma {:induction false} ParseFloatNonNegative(t: String)
    requires ParseFloat(t).Some? && !(|t| > 0 && t[0] == '-')
    ensures ParseFloat(t).value >= 0.0
  {
  }

  // ---------------------------------------------------------------------
  // The patterns, matched at one start position

  /** What the range regex captures: both numbers and the optional unit. */
  datatype RangeMatch = RangeMatch(lo: real, hi: real, unit: Option<String>)

  /** `(\d+\.?\d*)\s*-\s*(\d+\.?\d*)\s*(unit)?s?\s*(old)?` at `i`. Everything after the second number is optional. */
  function RangeAt(s: String, i: nat): (r: Option<RangeMatch>)
    ensures r.Some? ==> i < |s| && IsDigit(s[i]) && '-' in s
    ensures r.Some? ==> r.value.lo >= 0.0 && r.value.hi >= 0.0
    ensures r.Some? && r.value.unit.Some? ==> r.value.unit.value in RegexUnits
  {
    if i < |s| && IsDigit(s[i]) then
      var d := RunEnd(s, NumberEnd(s, i), PyWhitespace);
      if d < |s| && s[d] == '-' then
        var j := RunEnd(s, d + 1, PyWhitespace);
        if j < |s| && IsDigit(s[j]) then
          NumberValueBounds(s, i);
          NumberValueBounds(s, j);
          var q := RunEnd(s, NumberEnd(s, j), PyWhitespace);
          Some(RangeMatch(NumberValue(s, i), NumberValue(s, j), AltAt(s, q, RegexUnits)))
        else None
      else None
    else None
  }

  /** `(\d+)\+` at `i`. */
  function PlusAt(s: String, i: nat): (r: Option<nat>)
    ensures r.Some? ==> i < |s| && IsDigit(s[i]) && '+' in s
  {
    if i < |s| && IsDigit(s[i]) then
      var e := DigitsEnd(s, i);
      if e < |s| && s[e] == '+' then
        DigitSlice(s, i, e);
        Some(NatValue(s[i..e]))
      else None
    else None
  }

  /** `<c>(\d+)` at `i`, for `c` one of `>` and `<`. */
  function SignedBoundAt(s: String, i: nat, c: char): (r: Option<nat>)
    ensures r.Some? ==> i + 1 < |s| && s[i] == c && IsDigit(s[i + 1])
  {
    if i + 1 < |s| && s[i] == c && IsDigit(s[i + 1]) then
      var e := DigitsEnd(s, i + 1);
      DigitSlice(s, i + 1, e);
      Some(NatValue(s[i + 1..e]))
    else None
  }

  /** `(\d+\.?\d*)\s*-?\s*(unit)s?\s*-?\s*(old)?` at `i`: the number and its unit. */
  function NumberUnitAt(s: String, i: nat): (r: Option<(real, String)>)
    ensures r.Some? ==> i < |s| && IsDigit(s[i]) && r.value.0 == NumberValue(s, i)
    ensures r.Some? ==> r.value.0 >= 0.0 && r.value.1 in RegexUnits
  {
    if i < |s| && IsDigit(s[i]) then
      NumberValueBounds(s, i);
      var p := RunEnd(s, NumberEnd(s, i), PyWhitespace);
      var q := if p < |s| && s[p] == '-' then RunEnd(s, p + 1, PyWhitespace) else p;
      match AltAt(s, q, RegexUnits)
      case Some(u) => Some((NumberValue(s, i), u))
      case None => None
    else None
  }

  // ---------------------------------------------------------------------
  // The try_extract_* helpers

  /** `try_extract_age_range`: normalised only when a unit was captured and `normalize` is set. */
  function TryRange(s: String, normalize: bool): (r: Option<Age>)
    ensures r.None? <==> forall i :: 0 <= i < |s| ==> RangeAt(s, i).None?
    ensures r.Some? ==> r.value.Range? && NonNegative(r.value)
    ensures !normalize && r.Some? ==>
      exists i :: 0 <= i < |s| && RangeAt(s, i).Some?
        && r.value == Range(RangeAt(s, i).value.lo, RangeAt(s, i).value.hi)
  {
    var m := (i: nat) => RangeAt(s, i);
    assert forall j :: 0 <= j < |s| ==> m(j) == RangeAt(s, j);
    match Search(|s|, 0, m)
    case None => None
    case Some((_, g)) =>
      if g.unit.Some? && normalize then
        CapturedUnitsHandled(g.unit.value);
        NormalizeMonotone(0.0, g.lo, g.unit.value);
        NormalizeMonotone(0.0, g.hi, g.unit.value);
        Some(Range(NormalizeToYears(g.lo, g.unit.value).value, NormalizeToYears(g.hi, g.unit.value).value))
      else Some(Range(g.lo, g.hi))
  }

  /** `try_extract_age_plus`: `N+` is the range from N to `INF_AGE`. */
  function TryPlus(s: String): (r: Option<Age>)
    ensures r.None? <==> forall i :: 0 <= i < |s| ==> PlusAt(s, i).None?
    ensures r.Some? ==> r.value.Range? && r.value.hi == InfAge && r.value.lo >= 0.0
  {
    var m := (i: nat) => PlusAt(s, i);
    assert forall j :: 0 <= j < |s| ==> m(j) == PlusAt(s, j);
    match Search(|s|, 0, m)
    case None => None
    case Some((_, n)) => Some(Range(n as real, InfAge))
  }

  /** `try_extract_greater_than_age`: `>N` is the range from N to `INF_AGE`. */
  function TryGreater(s: String): (r: Option<Age>)
    ensures r.None? <==> forall i :: 0 <= i < |s| ==> SignedBoundAt(s, i, '>').None?
    ensures r.Some? ==> r.value.Range? && r.value.hi == InfAge && r.value.lo >= 0.0
  {
    var m := (i: nat) => SignedBoundAt(s, i, '>');
    assert forall j :: 0 <= j < |s| ==> m(j) == SignedBoundAt(s, j, '>');
    match Search(|s|, 0, m)
    case None => None
    case Some((_, n)) => Some(Range(n as real, InfAge))
  }

  /** `try_extract_less_than_age`: `<N` is the range from `MIN_AGE` to N. */
  function TryLess(s: String): (r: Option<Age>)
    ensures r.None? <==> forall i :: 0 <= i < |s| ==> SignedBoundAt(s, i, '<').None?
    ensures r.Some? ==> r.value.Range? && r.value.lo == MinAge && r.value.hi >= 0.0
  {
    var m := (i: nat) => SignedBoundAt(s, i, '<');
    assert forall j :: 0 <= j < |s| ==> m(j) == SignedBoundAt(s, j, '<');
    match Search(|s|, 0, m)
    case None => None
    case Some((_, n)) => Some(Range(MinAge, n as real))
  }

  /** `try_extract_age_plus_unit`: the number in years, or as written when `normalize` is off. */
  function TryNumberUnit(s: String, normalize: bool): (r: Option<Age>)
    ensures r.None? <==> forall i :: 0 <= i < |s| ==> NumberUnitAt(s, i).None?
    ensures r.Some? ==> r.value.Value? && NonNegative(r.value)
    ensures !normalize && r.Some? ==>
      exists i :: 0 <= i < |s| && IsDigit(s[i]) && NumberUnitAt(s, i).Some? && r.value == Value(NumberValue(s, i))
  {
    var m := (i: nat) => NumberUnitAt(s, i);
    assert forall j :: 0 <= j < |s| ==> m(j) == NumberUnitAt(s, j);
    match Search(|s|, 0, m)
    case None => None
    case Some((_, g)) =>
      if normalize then
        CapturedUnitsHandled(g.1);
        NormalizeMonotone(0.0, g.0, g.1);
        Some(Value(NormalizeToYears(g.0, g.1).value))
      else Some(Value(g.0))
  }

  function OrElse(a: Option<Age>, b: Option<Age>): Option<Age> {
    if a.Some? then a else b
  }

  // ---------------------------------------------------------------------
  // extract_age

  /** The text the patterns see: `str(age_str).lower().strip()`. */
  function Prepare(ageStr: String): String {
    Strip(Lower(ageStr))
  }

  /** `extract_age(age_str, normalize)`. */
  function ExtractAge(ageStr: String, normalize: bool): (r: Option<Age>)
    ensures ParseFloat(Prepare(ageStr)).Some? ==> r == Some(Value(ParseFloat(Prepare(ageStr)).value))
  {
    var s := Prepare(ageStr);
    if IsNumber(s) then Some(Value(ParseFloat(s).value))
    else OrElse(TryRange(s, normalize),
         OrElse(TryPlus(s),
         OrElse(TryGreater(s),
         OrElse(TryLess(s),
         TryNumberUnit(s, normalize)))))
  }

  /** No answer exactly when the text is no number and no pattern matches at any position. */
  lemma {:induction false} ExtractAgeNone(ageStr: String, normalize: bool)
    ensures var s := Prepare(ageStr);
      ExtractAge(ageStr, normalize).None? <==>
        !IsNumber(s)
        && (forall i :: 0 <= i < |s| ==> RangeAt(s, i).None? && PlusAt(s, i).None?)
        && (forall i :: 0 <= i < |s| ==> SignedBoundAt(s, i, '>').None? && SignedBoundAt(s, i, '<').None?)
        && (forall i :: 0 <= i < |s| ==> NumberUnitAt(s, i).None?)
  {
    var s := Prepare(ageStr);
    var _ := TryRange(s, normalize);
    var _ := TryPlus(s);
    var _ := TryGreater(s);
    var _ := TryLess(s);
    var _ := TryNumberUnit(s, normalize);
  }

  /**
   * A single value that is not a plain number comes from number followed
   * by unit, the last pattern: none of the other patterns matches anywhere.
   */
  lemma {:induction false} SingleValueFromNumberUnit(ageStr: String, normalize: bool, x: real)
    requires !IsNumber(Prepare(ageStr)) && ExtractAge(ageStr, normalize) == Some(Value(x))
    ensures TryNumberUnit(Prepare(ageStr), normalize) == Some(Value(x))
    ensures TryRange(Prepare(ageStr), normalize).None? && TryPlus(Prepare(ageStr)).None?
    ensures TryGreater(Prepare(ageStr)).None? && TryLess(Prepare(ageStr)).None?
  {
  }

  /** Text that lower-casing and stripping leave alone: lower case, not empty, no white space at either end. */
  predicate Clean(s: String) {
    |s| > 0 && IsLowerCase(s) && s[0] !in PyWhitespace && s[|s| - 1] !in PyWhitespace
  }

  lemma {:induction false} PrepareClean(s: String)
    requires Clean(s)
    ensures Prepare(s) == s
  {
    LowerOfLowerCase(s);
  }

  /**
   * Clean text that opens with a number and a unit, and has no `-`, `+`,
   * `>` or `<`, gives that number: in years when `normalize` is set, as
   * written otherwise.
   */
  lemma {:induction false} NumberWithUnitAtStart(s: String, normalize: bool, v: real, u: String)
    requires Clean(s) && !IsNumber(s)
    requires '-' !in s && '+' !in s && '>' !in s && '<' !in s
    requires NumberUnitAt(s, 0) == Some((v, u))
    ensures u in RegexUnits && NormalizeToYears(v, u).Some?
    ensures ExtractAge(s, normalize) == Some(Value(if normalize then NormalizeToYears(v, u).value else v))
  {
    PrepareClean(s);
    CapturedUnitsHandled(u);
    var _ := TryRange(s, normalize);
    assert TryPlus(s).None? && TryGreater(s).None? && TryLess(s).None?;
    var m := (i: nat) => NumberUnitAt(s, i);
    assert Search(|s|, 0, m) == Some((0, (v, u)));
  }

  /** Clean text that is no plain number and opens with a range gives that range. */
  lemma {:induction false} RangeAtStart(s: String, normalize: bool, g: RangeMatch)
    requires Clean(s) && !IsNumber(s)
    requires RangeAt(s, 0) == Some(g)
    ensures g.unit.Some? ==>
      (g.unit.value in RegexUnits && NormalizeToYears(g.lo, g.unit.value).Some?
       && NormalizeToYears(g.hi, g.unit.value).Some?)
    ensures ExtractAge(s, normalize) == Some(
      if g.unit.Some? && normalize
      then Range(NormalizeToYears(g.lo, g.unit.value).value, NormalizeToYears(g.hi, g.unit.value).value)
      else Range(g.lo, g.hi))
  {
    PrepareClean(s);
    if g.unit.Some? {
      CapturedUnitsHandled(g.unit.value);
    }
    var m := (i: nat) => RangeAt(s, i);
    assert Search(|s|, 0, m) == Some((0, g));
  }

  /** Lower-casing and stripping the input first changes nothing. */
  lemma {:induction false} PrepareIdempotent(ageStr: String)
    ensures Prepare(Prepare(ageStr)) == Prepare(ageStr)
  {
    var l := Lower(ageStr);
    var t := Strip(l);
    LowerIsLowerCase(ageStr);
    var a := TrimLeft(l, PyWhitespace);
    assert t == TrimRight(a, PyWhitespace);
    assert IsLowerCase(t) by {
      forall k | 0 <= k < |t| ensures !IsUpper(t[k]) {
        assert t[k] == a[k];
        assert a[k] == l[|l| - |a| + k];
      }
    }
    LowerOfLowerCase(t);
    StripCharsIdempotent(l, PyWhitespace);
  }

  /** `extract_age` gives the same answer on its own normalised text. */
  lemma {:induction false} ExtractAgeCanonical(ageStr: String, normalize: bool)
    ensures ExtractAge(Prepare(ageStr), normalize) == ExtractAge(ageStr, normalize)
  {
    PrepareIdempotent(ageStr);
  }

  /** Qualitative text, without any digit, gives None. */
  lemma {:induction false} NoDigitNoAge(ageStr: String, normalize: bool)
    requires forall k :: 0 <= k < |Prepare(ageStr)| ==> !IsDigit(Prepare(ageStr)[k])
    ensures ExtractAge(ageStr, normalize).None?
  {
  }

  /** Every age found is non-negative unless the text is a number written with a minus sign. */
  lemma {:induction false} AgesAreNonNegative(ageStr: String, normalize: bool)
    requires ExtractAge(ageStr, normalize).Some?
    requires !(|Prepare(ageStr)| > 0 && Prepare(ageStr)[0] == '-')
    ensures NonNegative(ExtractAge(ageStr, normalize).value)
  {
    var s := Prepare(ageStr);
    if IsNumber(s) {
      ParseFloatNonNegative(s);
    }
  }

  // ---------------------------------------------------------------------
  // Examples of the repository's tests

  lemma {:induction false} TwoDigits(d: String, a: nat, b: nat)
    requires |d| == 2 && AllDigits(d) && DigitValue(d[0]) == a && DigitValue(d[1]) == b
    ensures NatValue(d) == 10 * a + b
  {
    var h := d[..1];
    assert h[..0] == [] && h[0] == d[0];
    assert NatValue(h) == a;
  }

  predicate IsWord(w: String) {
    |w| > 0 && forall k :: 0 <= k < |w| ==> IsLower(w[k])
  }

  /** Text made only of digits, spaces, a hyphen and lower-case letters, not starting or ending in a space. */
  lemma {:induction false} CleanAgeText(s: String)
    requires |s| > 0 && forall k :: 0 <= k < |s| ==> IsDigit(s[k]) || IsLower(s[k]) || s[k] in {' ', '-'}
    requires s[0] != ' ' && s[|s| - 1] != ' '
    ensures Clean(s)
  {
    assert IsLowerCase(s) by {
      forall k | 0 <= k < |s| ensures !IsUpper(s[k]) {
      }
    }
  }

  lemma {:induction false} DigitsSpaceWordClean(d: String, w: String)
    requires |d| > 0 && AllDigits(d) && IsWord(w)
    ensures Clean(d + " " + w)
  {
    var s := d + " " + w;
    var n := |d|;
    assert forall k :: 0 <= k < n ==> s[k] == d[k];
    assert s[n] == ' ' && (forall k :: n < k < |s| ==> s[k] == w[k - n - 1]);
    CleanAgeText(s);
  }

  lemma {:induction false} DigitsSpaceWordChars(d: String, w: String)
    requires |d| > 0 && AllDigits(d) && IsWord(w)
    ensures var s := d + " " + w;
      '-' !in s && '+' !in s && '>' !in s && '<' !in s
      && DigitsEnd(s, 0) == |d| && RunEnd(s, |d|, PyWhitespace) == |d| + 1
      && s[0..|d|] == d && s[|d|] == ' ' && s[|d| + 1] == w[0]
  {
    var s := d + " " + w;
    var n := |d|;
    assert forall k :: 0 <= k < n ==> s[k] == d[k];
    assert s[n] == ' ' && (forall k :: n < k < |s| ==> s[k] == w[k - n - 1]);
    assert forall k :: 0 <= k < |s| ==> s[k] != '-' && s[k] != '+' && s[k] != '>' && s[k] != '<';
    DigitsEndAt(s, 0, n);
    RunEndAt(s, n, n + 1, PyWhitespace);
  }

  lemma {:induction false} NumberThenWordMatch(d: String, w: String, u: String)
    requires |d| > 0 && AllDigits(d) && IsWord(w) && AltAt(w, 0, RegexUnits) == Some(u)
    ensures !IsNumber(d + " " + w)
    ensures NumberUnitAt(d + " " + w, 0) == Some((NatValue(d) as real, u))
  {
    var s := d + " " + w;
    DigitsSpaceWordChars(d, w);
    NotNumberAtSpace(s, |d|);
    assert s == (d + " ") + w;
    AltAtShift(d + " ", w, RegexUnits);
    IntegerUnitAt(s, |d|, u);
  }

  /** Digits up to `n`, then white space and a unit: the integer in that unit. */
  lemma IntegerUnitAt(s: String, n: nat, u: String)
    requires 0 < n < |s| && IsDigit(s[0]) && DigitsEnd(s, 0) == n && s[n] != '.'
    requires RunEnd(s, n, PyWhitespace) < |s| && s[RunEnd(s, n, PyWhitespace)] != '-'
    requires AltAt(s, RunEnd(s, n, PyWhitespace), RegexUnits) == Some(u)
    ensures NumberUnitAt(s, 0) == Some((NatValue(s[0..n]) as real, u))
  {
    assert NumberEnd(s, 0) == n;
    assert NumberValue(s, 0) == NatValue(s[0..n]) as real;
  }

  /** `"<digits> <word>"` is the number in the unit the word starts with, e.g. "18 months" is 18 / 12 years. */
  lemma {:induction false} NumberThenWord(d: String, w: String, u: String, normalize: bool)
    requires |d| > 0 && AllDigits(d) && IsWord(w) && AltAt(w, 0, RegexUnits) == Some(u)
    ensures u in RegexUnits && NormalizeToYears(NatValue(d) as real, u).Some?
    ensures ExtractAge(d + " " + w, normalize) == Some(Value(
      if normalize then NormalizeToYears(NatValue(d) as real, u).value else NatValue(d) as real))
  {
    var s := d + " " + w;
    var v := NatValue(d) as real;
    assert Clean(s) by { DigitsSpaceWordClean(d, w); }
    assert '-' !in s && '+' !in s && '>' !in s && '<' !in s by { DigitsSpaceWordChars(d, w); }
    assert !IsNumber(s) && NumberUnitAt(s, 0) == Some((v, u)) by { NumberThenWordMatch(d, w, u); }
    NumberWithUnitAtStart(s, normalize, v, u);
  }

  lemma {:induction false} RangeTextClean(a: String, b: String, w: String)
    requires |a| > 0 && AllDigits(a) && |b| > 0 && AllDigits(b) && IsWord(w)
    ensures Clean(a + "-" + b + " " + w)
  {
    var s := a + "-" + b + " " + w;
    var n, j := |a|, |a| + 1;
    var e := j + |b|;
    assert forall k :: 0 <= k < n ==> s[k] == a[k];
    assert s[n] == '-' && (forall k :: j <= k < e ==> s[k] == b[k - j]);
    assert s[e] == ' ' && (forall k :: e < k < |s| ==> s[k] == w[k - e - 1]);
    CleanAgeText(s);
  }

  /** `a-b` written as two integers, a hyphen between them and a space after: a range at the start. */
  lemma {:induction false} RangeOfIntegersAt(s: String, n: nat, e: nat, q: nat, a: String, b: String)
    requires 0 < n && n + 1 < e && q == e + 1 && q < |s|
    requires s[0..n] == a && AllDigits(a) && s[n + 1..e] == b && AllDigits(b)
    requires s[n] == '-' && s[e] == ' ' && s[q] !in PyWhitespace
    ensures RangeAt(s, 0) == Some(RangeMatch(NatValue(a) as real, NatValue(b) as real, AltAt(s, q, RegexUnits)))
  {
    assert forall k :: 0 <= k < n ==> s[k] == a[k];
    assert forall k :: n < k < e ==> s[k] == b[k - n - 1];
    IntegerToken(s, 0, n);
    RunEndAt(s, n, n, PyWhitespace);
    RunEndAt(s, n + 1, n + 1, PyWhitespace);
    IntegerToken(s, n + 1, e);
    RunEndAt(s, e, e + 1, PyWhitespace);
  }

  lemma {:induction false} RangeTextUnit(a: String, b: String, w: String)
    ensures AltAt(a + "-" + b + " " + w, |a + "-" + b + " "|, RegexUnits) == AltAt(w, 0, RegexUnits)
  {
    AltAtShift(a + "-" + b + " ", w, RegexUnits);
  }

  lemma {:induction false} RangeTextAt(a: String, b: String, w: String)
    requires |a| > 0 && AllDigits(a) && |b| > 0 && AllDigits(b) && IsWord(w)
    ensures var s := a + "-" + b + " " + w;
      RangeAt(s, 0) == Some(RangeMatch(NatValue(a) as real, NatValue(b) as real, AltAt(s, |a + "-" + b + " "|, RegexUnits)))
  {
    var p := a + "-" + b + " ";
    var s := p + w;
    var n, e := |a|, |a| + 1 + |b|;
    assert s[0..n] == a && s[n + 1..e] == b by {
      assert p[n + 1..e] == b;
    }
    assert s[n] == '-' && s[e] == ' ' && s[e + 1] == w[0] && IsLower(w[0]);
    RangeOfIntegersAt(s, n, e, |p|, a, b);
  }

  lemma {:induction false} RangeTextMatch(a: String, b: String, w: String)
    requires |a| > 0 && AllDigits(a) && |b| > 0 && AllDigits(b) && IsWord(w)
    ensures !IsNumber(a + "-" + b + " " + w)
    ensures RangeAt(a + "-" + b + " " + w, 0)
      == Some(RangeMatch(NatValue(a) as real, NatValue(b) as real, AltAt(w, 0, RegexUnits)))
  {
    RangeTextUnit(a, b, w);
    RangeTextAt(a, b, w);
    NotNumberAtSpace(a + "-" + b + " " + w, |a| + |b| + 1);
  }

  /** `"<digits>-<digits> <word>"` is the range, in the unit the word starts with when there is one. */
  lemma {:induction false} RangeThenWord(a: String, b: String, w: String, normalize: bool)
    requires |a| > 0 && AllDigits(a) && |b| > 0 && AllDigits(b) && IsWord(w)
    ensures var u := AltAt(w, 0, RegexUnits);
      u.Some? ==>
        (u.value in RegexUnits && NormalizeToYears(NatValue(a) as real, u.value).Some?
         && NormalizeToYears(NatValue(b) as real, u.value).Some?)
    ensures var u := AltAt(w, 0, RegexUnits);
      var lo, hi := NatValue(a) as real, NatValue(b) as real;
      ExtractAge(a + "-" + b + " " + w, normalize) == Some(
        if u.Some? && normalize
        then Range(NormalizeToYears(lo, u.value).value, NormalizeToYears(hi, u.value).value)
        else Range(lo, hi))
  {
    RangeTextClean(a, b, w);
    RangeTextMatch(a, b, w);
    RangeAtStart(a + "-" + b + " " + w, normalize,
      RangeMatch(NatValue(a) as real, NatValue(b) as real, AltAt(w, 0, RegexUnits)));
  }

  /** Digits alone are a plain number, returned as it is. */
  lemma {:induction false} PlainInteger(d: String, normalize: bool)
    requires |d| > 0 && AllDigits(d)
    ensures ExtractAge(d, normalize) == Some(Value(NatValue(d) as real))
  {
    assert IsDigit(d[0]) && IsDigit(d[|d| - 1]);
    assert IsLowerCase(d) by {
      forall k | 0 <= k < |d| ensures !IsUpper(d[k]) {
        assert IsDigit(d[k]);
      }
    }
    PrepareClean(d);
    ParseFloatInteger(d);
  }

  /** "months" has the unit "month": "year" and "yr" do not fit. */
  lemma MonthWord(w: String)
    requires w == "months"
    ensures AltAt(w, 0, RegexUnits) == Some("month")
  {
    assert w[0..5] == "month";
    assert w[0..2][0] == 'm' && w[0..4][0] == 'm';
    assert RegexUnits[0] == "year" && RegexUnits[1] == "yr" && RegexUnits[2] == "month";
    AltAtFirst(w, 0, RegexUnits, 2);
  }

  lemma MonthsToYears(v: real, u: String)
    requires u == "month"
    ensures NormalizeToYears(v, u) == Some(v / 12.0)
  {
    assert Lower(u) == u;
  }

  /** Digits followed by a unit word, normalised, are the number in that unit's years. */
  lemma NumberInYears(d: String, w: String, u: String, years: real)
    requires |d| > 0 && AllDigits(d) && IsWord(w) && AltAt(w, 0, RegexUnits) == Some(u)
    requires NormalizeToYears(NatValue(d) as real, u) == Some(years)
    ensures ExtractAge(d + " " + w, true) == Some(Value(years))
  {
    NumberThenWord(d, w, u, true);
  }

  lemma EighteenDigits(d: String)
    requires d == "18"
    ensures |d| > 0 && AllDigits(d) && NatValue(d) == 18
  {
    TwoDigits(d, 1, 8);
  }

  lemma MonthsIsWord(w: String)
    requires w == "months"
    ensures IsWord(w)
  {
  }

  /** "18 months" is one and a half years. */
  lemma EighteenMonths(d: String, w: String)
    requires d == "18" && w == "months"
    ensures ExtractAge(d + " " + w, true) == Some(Value(1.5))
  {
    EighteenDigits(d);
    MonthsIsWord(w);
    MonthWord(w);
    MonthsToYears(18.0, "month");
    assert 18.0 / 12.0 == 1.5;
    NumberInYears(d, w, "month", 1.5);
  }

  /** "13-25 d" read as written is the range from 13 to 25. */
  lemma ThirteenToTwentyFive(a: String, b: String, w: String)
    requires a == "13" && b == "25" && w == "d"
    ensures ExtractAge(a + "-" + b + " " + w, false) == Some(Range(13.0, 25.0))
  {
    assert AllDigits(a) && AllDigits(b) && IsWord(w);
    TwoDigits(a, 1, 3);
    TwoDigits(b, 2, 5);
    RangeThenWord(a, b, w, false);
  }
}

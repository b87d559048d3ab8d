/**
 * How well a tissue grouping recovers the true groups
 * (src/tissue_parsing/grouping_accuracy.py): every true group, in
 * ascending order, claims its most common predicted label unless an
 * earlier group claimed it; each position then predicts the group that
 * claimed its label (-1 when none did), and the result is the fraction of
 * positions whose predicted group is the true one.
 */
module GroupingAccuracy {
  import opened Wrappers
  import opened Strings

  /** How often `x` occurs in `lst`: `lst.count(x)`. */
  function Count(lst: seq<String>, x: String): nat {
    multiset(lst)[x]
  }

  /** `x` is one of the elements of `lst` that occur most often. */
  predicate IsMostCommon(lst: seq<String>, x: String) {
    x in lst && forall y :: y in lst ==> Count(lst, y) <= Count(lst, x)
  }

  /**
   * `most_common(lst)`: `max(set(lst), key=lst.count)`. The set is visited
   * in an unspecified order and the first maximum is kept, so ties are
   * broken arbitrarily; an empty list is the ValueError of `max`.
   */
  method MostCommon(lst: seq<String>) returns (r: Option<String>)
    ensures r.None? <==> |lst| == 0
    ensures r.Some? ==> IsMostCommon(lst, r.value)
  {
    if |lst| == 0 {
      return None;
    }
    var remaining := set x | x in lst;
    assert lst[0] in remaining;
    var best :| best in remaining;
    remaining := remaining - {best};
    while remaining != {}
      invariant best in lst
      invariant forall y :: y in remaining ==> y in lst
      invariant forall y :: y in lst && y !in remaining ==> Count(lst, y) <= Count(lst, best)
      decreases |remaining|
    {
      var y :| y in remaining;
      if Count(lst, y) > Count(lst, best) {
        best := y;
      }
      remaining := remaining - {y};
    }
    return Some(best);
  }

  /** The labels of the positions in group `g`, in order: `labels_in_group[g]`. */
  function LabelsOf(groups: seq<int>, labels: seq<String>, g: int): seq<String>
    requires |groups| == |labels|
    decreases |groups|
  {
    if |groups| == 0 then []
    else
      var n := |groups| - 1;
      LabelsOf(groups[..n], labels[..n], g) + (if groups[n] == g then [labels[n]] else [])
  }

  /** A label is listed for group `g` exactly when some position of `g` has it. */
  lemma {:induction false} LabelsOfMembers(groups: seq<int>, labels: seq<String>, g: int, x: String)
    requires |groups| == |labels|
    ensures x in LabelsOf(groups, labels, g) <==> exists i :: 0 <= i < |groups| && groups[i] == g && labels[i] == x
    decreases |groups|
  {
    if |groups| > 0 {
      var n := |groups| - 1;
      LabelsOfMembers(groups[..n], labels[..n], g, x);
      assert forall i :: 0 <= i < n ==> groups[..n][i] == groups[i] && labels[..n][i] == labels[i];
    }
  }

  /** A group has labels exactly when it occurs. */
  lemma {:induction false} LabelsOfEmpty(groups: seq<int>, labels: seq<String>, g: int)
    requires |groups| == |labels|
    ensures LabelsOf(groups, labels, g) == [] <==> g !in groups
    decreases |groups|
  {
    if |groups| > 0 {
      var n := |groups| - 1;
      LabelsOfEmpty(groups[..n], labels[..n], g);
      assert groups == groups[..n] + [groups[n]];
    }
  }

  /** The dictionary after `i` positions: each group seen so far maps to its labels. */
  ghost predicate Grouped(m: map<int, seq<String>>, groups: seq<int>, labels: seq<String>, i: nat)
    requires i <= |groups| == |labels|
  {
    forall g :: MapGet(m, g) == if g in groups[..i] then Some(LabelsOf(groups[..i], labels[..i], g)) else None
  }

  /** Position `i` appends its label to its group's list. */
  lemma GroupedStep(m: map<int, seq<String>>, groups: seq<int>, labels: seq<String>, i: nat)
    requires i < |groups| == |labels| && Grouped(m, groups, labels, i)
    ensures Grouped(m[groups[i] := GetOr(m, groups[i], []) + [labels[i]]], groups, labels, i + 1)
  {
    var gs, ls := groups[..i + 1], labels[..i + 1];
    assert gs[..i] == groups[..i] && ls[..i] == labels[..i];
    assert gs == groups[..i] + [groups[i]];
    var g := groups[i];
    var m' := m[g := GetOr(m, g, []) + [labels[i]]];
    forall h ensures MapGet(m', h) == if h in gs then Some(LabelsOf(gs, ls, h)) else None {
      assert LabelsOf(gs, ls, h) == LabelsOf(groups[..i], labels[..i], h) + (if g == h then [labels[i]] else []);
      assert MapGet(m, h) == if h in groups[..i] then Some(LabelsOf(groups[..i], labels[..i], h)) else None;
      assert h in gs <==> h in groups[..i] || h == g;
      if h == g {
        if g !in groups[..i] {
          LabelsOfEmpty(groups[..i], labels[..i], g);
          assert GetOr(m, g, []) == [];
        }
        assert GetOr(m, g, []) == LabelsOf(groups[..i], labels[..i], h);
        assert MapGet(m', h) == Some(LabelsOf(gs, ls, h));
      } else {
        assert LabelsOf(gs, ls, h) == LabelsOf(groups[..i], labels[..i], h);
      }
    }
  }

  /** The first loop of `grouping_accuracy`: the labels of each group. */
  method GroupLabels(groups: seq<int>, labels: seq<String>) returns (m: map<int, seq<String>>)
    requires |groups| == |labels|
    ensures forall g :: MapGet(m, g) == if g in groups then Some(LabelsOf(groups, labels, g)) else None
  {
    m := map[];
    var i := 0;
    while i < |groups|
      invariant 0 <= i <= |groups|
      invariant Grouped(m, groups, labels, i)
    {
      GroupedStep(m, groups, labels, i);
      m := m[groups[i] := GetOr(m, groups[i], []) + [labels[i]]];
      i := i + 1;
    }
    assert groups[..i] == groups && labels[..i] == labels;
  }

  predicate Increasing(s: seq<int>) {
    forall i, j :: 0 <= i < j < |s| ==> s[i] < s[j]
  }

  /** `gs` is `sorted(set(groups))`. */
  ghost predicate SortedSetOf(gs: seq<int>, groups: seq<int>) {
    Increasing(gs) && forall x :: x in gs <==> x in groups
  }

  /** A set of integers without elements is the empty set. */
  lemma NoElementsIsEmpty(s: set<int>)
    ensures (forall y :: y !in s) ==> s == {}
  {
    if forall y :: y !in s {
      assert s == {};
    }
  }

  /** The least element of a non-empty finite set. */
  method Least(s: set<int>) returns (least: int)
    requires s != {}
    ensures least in s && forall y :: y in s ==> least <= y
  {
    NoElementsIsEmpty(s);
    least :| least in s;
    var rest := s - {least};
    while rest != {}
      invariant least in s && rest <= s
      invariant forall y :: y in s && y !in rest ==> least <= y
      decreases |rest|
    {
      NoElementsIsEmpty(rest);
      var y :| y in rest;
      if y < least {
        least := y;
      }
      rest := rest - {y};
    }
  }

  /** `sorted(set(groups))`. */
  method SortedGroups(groups: seq<int>) returns (gs: seq<int>)
    ensures SortedSetOf(gs, groups)
  {
    var remaining := set g | g in groups;
    gs := [];
    while remaining != {}
      invariant Increasing(gs)
      invariant forall x :: x in groups <==> x in gs || x in remaining
      invariant forall x, y :: x in gs && y in remaining ==> x < y
      decreases |remaining|
    {
      var least := Least(remaining);
      assert forall i :: 0 <= i < |gs| ==> gs[i] in gs;
      gs := gs + [least];
      remaining := remaining - {least};
    }
  }

  /** The claims after the groups `gs` picked the labels `picks`: the first group to pick a label keeps it. */
  function ClaimsFrom(gs: seq<int>, picks: seq<String>): map<String, int>
    requires |gs| == |picks|
    decreases |gs|
  {
    if |gs| == 0 then map[]
    else
      var n := |gs| - 1;
      var m := ClaimsFrom(gs[..n], picks[..n]);
      if picks[n] in m then m else m[picks[n] := gs[n]]
  }

  /** A label is claimed exactly when some group picked it, and then by the first group that did. */
  lemma {:induction false} ClaimsFromFirst(gs: seq<int>, picks: seq<String>, l: String)
    requires |gs| == |picks|
    ensures l in ClaimsFrom(gs, picks) <==> l in picks
    ensures l in picks ==> exists k ::
        0 <= k < |picks| && picks[k] == l
        && (forall j :: 0 <= j < k ==> picks[j] != l) && ClaimsFrom(gs, picks)[l] == gs[k]
    decreases |gs|
  {
    if |gs| > 0 {
      var n := |gs| - 1;
      ClaimsFromFirst(gs[..n], picks[..n], l);
      assert picks == picks[..n] + [picks[n]];
      assert forall j :: 0 <= j < n ==> picks[..n][j] == picks[j];
      if l in picks[..n] {
        var k :| 0 <= k < n && picks[..n][k] == l
          && (forall j :: 0 <= j < k ==> picks[..n][j] != l) && ClaimsFrom(gs[..n], picks[..n])[l] == gs[..n][k];
        assert picks[k] == l && gs[..n][k] == gs[k];
      } else if l == picks[n] {
        assert forall j :: 0 <= j < n ==> picks[j] != l;
      }
    }
  }

  /** The groups `gs` picked one most common label each. */
  ghost predicate ValidPicks(groups: seq<int>, labels: seq<String>, gs: seq<int>, picks: seq<String>)
    requires |groups| == |labels|
  {
    |picks| == |gs| && forall k :: 0 <= k < |gs| ==> IsMostCommon(LabelsOf(groups, labels, gs[k]), picks[k])
  }

  /** The predicted group of every position: the group that claimed its label, -1 when none did. */
  function Predicted(labels: seq<String>, claims: map<String, int>): (r: seq<int>)
    ensures |r| == |labels|
  {
    seq(|labels|, i requires 0 <= i < |labels| => GetOr(claims, labels[i], -1))
  }

  /** The number of positions where `a` and `b` agree. */
  function Matches(a: seq<int>, b: seq<int>): nat
    requires |a| == |b|
    decreases |a|
  {
    if |a| == 0 then 0
    else Matches(a[..|a| - 1], b[..|b| - 1]) + (if a[|a| - 1] == b[|b| - 1] then 1 else 0)
  }

  /** At most every position agrees, and all of them do exactly when the sequences are equal. */
  lemma {:induction false} MatchesBound(a: seq<int>, b: seq<int>)
    requires |a| == |b|
    ensures Matches(a, b) <= |a|
    ensures Matches(a, b) == |a| <==> a == b
    decreases |a|
  {
    if |a| > 0 {
      var n := |a| - 1;
      MatchesBound(a[..n], b[..n]);
      assert a == a[..n] + [a[n]] && b == b[..n] + [b[n]];
      if a[..n] != b[..n] {
        var i :| 0 <= i < n && a[..n][i] != b[..n][i];
        assert a[i] != b[i];
      }
    }
  }

  /**
   * `accuracy_score(truth, pred)`: the fraction of agreeing positions; an
   * empty input has no fraction.
   */
  function Accuracy(truth: seq<int>, pred: seq<int>): Option<real>
    requires |truth| == |pred|
  {
    if |truth| == 0 then None else Some(Matches(truth, pred) as real / |truth| as real)
  }

  /** The accuracy lies in [0, 1] and is 1 exactly when every prediction is right. */
  lemma AccuracyRange(truth: seq<int>, pred: seq<int>)
    requires |truth| == |pred| && |truth| > 0
    ensures Accuracy(truth, pred).Some?
    ensures 0.0 <= Accuracy(truth, pred).value <= 1.0
    ensures Accuracy(truth, pred).value == 1.0 <==> truth == pred
  {
    MatchesBound(truth, pred);
    var m, n := Matches(truth, pred) as real, |truth| as real;
    assert m / n * n == m;
  }

  /** Group `gs[k]` picking `pick` claims it unless it is already claimed. */
  lemma ClaimStep(gs: seq<int>, picks: seq<String>, k: nat, pick: String)
    requires k < |gs| && |picks| == k
    ensures var claims := ClaimsFrom(gs[..k], picks);
      ClaimsFrom(gs[..k + 1], picks + [pick]) == if pick in claims then claims else claims[pick := gs[k]]
  {
    assert gs[..k + 1][..k] == gs[..k] && (picks + [pick])[..k] == picks;
  }

  /** One more group with a most common pick keeps the picks valid. */
  lemma PicksStep(groups: seq<int>, labels: seq<String>, gs: seq<int>, picks: seq<String>, k: nat, pick: String)
    requires |groups| == |labels| && k < |gs| && ValidPicks(groups, labels, gs[..k], picks)
    requires IsMostCommon(LabelsOf(groups, labels, gs[k]), pick)
    ensures ValidPicks(groups, labels, gs[..k + 1], picks + [pick])
  {
  }

  /** The group is one of the input's, so its label list is not empty. */
  lemma GroupHasLabels(groups: seq<int>, labels: seq<String>, gs: seq<int>, k: nat)
    requires |groups| == |labels| && SortedSetOf(gs, groups) && k < |gs|
    ensures LabelsOf(groups, labels, gs[k]) != []
  {
    assert gs[k] in gs;
    LabelsOfEmpty(groups, labels, gs[k]);
  }

  datatype AccuracyError = InconsistentLengths

  /**
   * `grouping_accuracy(true_group_indexes, labels)`: the accuracy of the
   * predictions made by the claims of the ascending groups, each picking a
   * most common label of its own; sequences of different lengths are an error.
   */
  method GroupingAccuracyOf(groups: seq<int>, labels: seq<String>) returns (r: Result<Option<real>, AccuracyError>)
    ensures r.Failure? <==> |groups| != |labels|
    ensures r.Success? ==> exists gs, picks ::
        SortedSetOf(gs, groups) && ValidPicks(groups, labels, gs, picks)
        && r.value == Accuracy(groups, Predicted(labels, ClaimsFrom(gs, picks)))
  {
    if |groups| != |labels| {
      return Failure(InconsistentLengths);
    }
    var labelsInGroup := GroupLabels(groups, labels);
    var gs := SortedGroups(groups);
    var claims: map<String, int> := map[];
    ghost var picks: seq<String> := [];
    var k := 0;
    while k < |gs|
      invariant 0 <= k <= |gs| && |picks| == k
      invariant claims == ClaimsFrom(gs[..k], picks)
      invariant ValidPicks(groups, labels, gs[..k], picks)
    {
      var g := gs[k];
      GroupHasLabels(groups, labels, gs, k);
      assert g in groups;
      assert labelsInGroup[g] == LabelsOf(groups, labels, g) by {
        assert MapGet(labelsInGroup, g) == Some(LabelsOf(groups, labels, g));
      }
      var mostCommon := MostCommon(labelsInGroup[g]);
      var pick := mostCommon.value;
      ClaimStep(gs, picks, k, pick);
      PicksStep(groups, labels, gs, picks, k, pick);
      if pick !in claims {
        claims := claims[pick := g];
      }
      picks := picks + [pick];
      k := k + 1;
    }
    assert gs[..k] == gs;
    r := Success(Accuracy(groups, Predicted(labels, claims)));
  }

  /**
   * When labels and groups determine each other (each group has its own
   * label), every position is predicted right and the accuracy is 1.
   */
  lemma PerfectGrouping(groups: seq<int>, labels: seq<String>, gs: seq<int>, picks: seq<String>)
    requires |groups| == |labels| > 0
    requires forall i, j :: 0 <= i < |groups| && 0 <= j < |groups| ==> (labels[i] == labels[j] <==> groups[i] == groups[j])
    requires SortedSetOf(gs, groups) && ValidPicks(groups, labels, gs, picks)
    ensures Accuracy(groups, Predicted(labels, ClaimsFrom(gs, picks))) == Some(1.0)
  {
    var claims := ClaimsFrom(gs, picks);
    // The pick of group gs[k] is a label of one of its positions.
    forall k | 0 <= k < |gs|
      ensures exists i :: 0 <= i < |groups| && groups[i] == gs[k] && labels[i] == picks[k]
    {
      LabelsOfMembers(groups, labels, gs[k], picks[k]);
    }
    var pred := Predicted(labels, claims);
    forall i | 0 <= i < |groups| ensures pred[i] == groups[i] {
      assert groups[i] in groups;
      assert groups[i] in gs;
      var k :| 0 <= k < |gs| && gs[k] == groups[i];
      var i0 :| 0 <= i0 < |groups| && groups[i0] == gs[k] && labels[i0] == picks[k];
      assert picks[k] == labels[i];
      ClaimsFromFirst(gs, picks, labels[i]);
      var k0 :| 0 <= k0 < |picks| && picks[k0] == labels[i]
        && (forall j :: 0 <= j < k0 ==> picks[j] != labels[i]) && claims[labels[i]] == gs[k0];
      var i1 :| 0 <= i1 < |groups| && groups[i1] == gs[k0] && labels[i1] == picks[k0];
      assert groups[i1] == groups[i];
    }
    assert pred == groups;
    AccuracyRange(groups, pred);
  }

  /**
   * With a single label everywhere, the least group claims it and every
   * position predicts that group.
   */
  lemma SingleLabel(groups: seq<int>, labels: seq<String>, gs: seq<int>, picks: seq<String>)
    requires |groups| == |labels| > 0
    requires forall i :: 0 <= i < |labels| ==> labels[i] == labels[0]
    requires SortedSetOf(gs, groups) && ValidPicks(groups, labels, gs, picks)
    ensures |gs| > 0 && forall g :: g in groups ==> gs[0] <= g
    ensures forall i :: 0 <= i < |labels| ==> Predicted(labels, ClaimsFrom(gs, picks))[i] == gs[0]
  {
    var g0 := groups[0];
    assert g0 in groups;
    assert g0 in gs;
    forall g | g in groups ensures gs[0] <= g {
      var k :| 0 <= k < |gs| && gs[k] == g;
    }
    forall k | 0 <= k < |gs| ensures picks[k] == labels[0] {
      LabelsOfMembers(groups, labels, gs[k], picks[k]);
    }
    ClaimsFromFirst(gs, picks, labels[0]);
  }
}

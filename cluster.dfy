/**
 * Cluster bookkeeping around k-means (src/analysis/cluster.py): the label
 * stabiliser that ranks clusters by size, the automatic choice of the
 * number of clusters by silhouette score, and the shape of the per-cluster
 * top-term lists.  The numerical parts (k-means, the silhouette score, the
 * cosine term scores) are parameters of the model.
 */
module Cluster {
  import opened Wrappers

  // ---------------------------------------------------------------------
  // Label stabiliser: sort_cluster_labels

  /** Number of times label `x` occurs. */
  function Size(labels: seq<int>, x: int): nat {
    multiset(labels)[x]
  }

  /** The distinct labels of an assignment (numpy `unique`). */
  function Labels(labels: seq<int>): set<int> {
    set x | x in labels
  }

  predicate NoDuplicates(s: seq<int>) {
    forall i, j :: 0 <= i < j < |s| ==> s[i] != s[j]
  }

  /** Along `order`, cluster sizes never increase. */
  predicate SizeRanked(labels: seq<int>, order: seq<int>) {
    forall i, j :: 0 <= i < j < |order| ==> Size(labels, order[i]) >= Size(labels, order[j])
  }

  /**
   * An order of the distinct labels by decreasing cluster size: what
   * `cluster_labels[np.argsort(-counts)]` may return, whatever the tie order.
   */
  predicate ValidOrder(labels: seq<int>, order: seq<int>) {
    NoDuplicates(order) && (set x | x in order) == Labels(labels) && SizeRanked(labels, order)
  }

  /** The distinct labels in order of first occurrence. */
  function Dedup(s: seq<int>): (r: seq<int>)
    ensures NoDuplicates(r)
    ensures forall x :: x in r <==> x in s
  {
    if |s| == 0 then []
    else
      var d := Dedup(s[..|s| - 1]);
      assert forall x :: x in s <==> x in s[..|s| - 1] || x == s[|s| - 1];
      if s[|s| - 1] in d then d else d + [s[|s| - 1]]
  }

  /** The comparison the ranking uses: larger clusters first, then smaller labels. */
  predicate RanksBefore(labels: seq<int>, a: int, b: int) {
    Size(labels, a) > Size(labels, b) || (Size(labels, a) == Size(labels, b) && a < b)
  }

  function Insert(labels: seq<int>, x: int, s: seq<int>): (r: seq<int>)
    ensures |r| == |s| + 1
    ensures forall y :: y in r <==> y == x || y in s
  {
    if |s| == 0 then [x]
    else if RanksBefore(labels, x, s[0]) then [x] + s
    else [s[0]] + Insert(labels, x, s[1..])
  }

  lemma {:induction false} InsertRanked(labels: seq<int>, x: int, s: seq<int>)
    requires SizeRanked(labels, s)
    requires NoDuplicates(s) && x !in s
    ensures SizeRanked(labels, Insert(labels, x, s))
    ensures NoDuplicates(Insert(labels, x, s))
    decreases |s|
  {
    if |s| == 0 {
    } else if RanksBefore(labels, x, s[0]) {
      ConsRanked(labels, x, s);
    } else {
      var t := Insert(labels, x, s[1..]);
      assert s == [s[0]] + s[1..];
      InsertRanked(labels, x, s[1..]);
      forall y | y in t ensures Size(labels, s[0]) >= Size(labels, y) && y != s[0] {
        if y != x {
          var j :| 0 <= j < |s[1..]| && s[1..][j] == y;
          assert s[j + 1] == y;
        }
      }
      assert Insert(labels, x, s) == [s[0]] + t;
      ConsRanked(labels, s[0], t);
    }
  }

  /** A label at least as large as every later cluster, and distinct from them, may lead the order. */
  lemma ConsRanked(labels: seq<int>, x: int, s: seq<int>)
    requires SizeRanked(labels, s) && NoDuplicates(s) && x !in s
    requires forall y :: y in s ==> Size(labels, x) >= Size(labels, y)
    ensures SizeRanked(labels, [x] + s) && NoDuplicates([x] + s)
  {
    var r := [x] + s;
    forall i, j | 0 <= i < j < |r| ensures Size(labels, r[i]) >= Size(labels, r[j]) && r[i] != r[j] {
      assert r[j] == s[j - 1] && r[j] in s;
      if i > 0 {
        assert r[i] == s[i - 1];
      }
    }
  }

  /** Insertion sort of distinct labels by RanksBefore. */
  function RankAll(labels: seq<int>, s: seq<int>): (r: seq<int>)
    ensures |r| == |s|
    ensures forall y :: y in r <==> y in s
  {
    if |s| == 0 then [] else Insert(labels, s[|s| - 1], RankAll(labels, s[..|s| - 1]))
  }

  lemma {:induction false} RankAllRanked(labels: seq<int>, s: seq<int>)
    requires NoDuplicates(s)
    ensures SizeRanked(labels, RankAll(labels, s)) && NoDuplicates(RankAll(labels, s))
    decreases |s|
  {
    if |s| > 0 {
      var p := s[..|s| - 1];
      assert NoDuplicates(p);
      RankAllRanked(labels, p);
      assert s[|s| - 1] !in p;
      InsertRanked(labels, s[|s| - 1], RankAll(labels, p));
    }
  }

  /**
   * The labels ranked by size; among clusters of equal size the smaller
   * label comes first, which is the order numpy's insertion-sorting
   * `argsort` yields for fewer than seventeen clusters.
   */
  function SizeOrder(labels: seq<int>): (r: seq<int>)
    ensures ValidOrder(labels, r)
  {
    var d := Dedup(labels);
    RankAllRanked(labels, d);
    RankAll(labels, d)
  }

  /** Index of the first occurrence of `x` in `s`. */
  function IndexOf(s: seq<int>, x: int): (r: nat)
    requires x in s
    ensures r < |s| && s[r] == x
    ensures forall j :: 0 <= j < r ==> s[j] != x
  {
    if s[0] == x then 0 else 1 + IndexOf(s[1..], x)
  }

  /** Every label replaced by its rank in `order`. */
  function Relabel(labels: seq<int>, order: seq<int>): (r: seq<int>)
    requires forall x :: x in labels ==> x in order
    ensures |r| == |labels|
    ensures forall i :: 0 <= i < |labels| ==> 0 <= r[i] < |order| && order[r[i]] == labels[i]
  {
    seq(|labels|, i requires 0 <= i < |labels| => IndexOf(order, labels[i]))
  }

  lemma {:induction false} SizeTransfer(r: seq<int>, l: seq<int>, a: int, b: int)
    requires |r| == |l|
    requires forall i :: 0 <= i < |r| ==> (r[i] == a <==> l[i] == b)
    ensures Size(r, a) == Size(l, b)
    decreases |r|
  {
    if |r| > 0 {
      var n := |r| - 1;
      assert r == r[..n] + [r[n]];
      assert l == l[..n] + [l[n]];
      SizeTransfer(r[..n], l[..n], a, b);
    }
  }

  lemma {:induction false} DistinctCard(s: seq<int>)
    requires NoDuplicates(s)
    ensures |set x | x in s| == |s|
    decreases |s|
  {
    if |s| > 0 {
      var p := s[..|s| - 1];
      assert NoDuplicates(p);
      DistinctCard(p);
      assert (set x | x in s) == (set x | x in p) + {s[|s| - 1]};
      assert s[|s| - 1] !in p;
    }
  }

  /** Relabelling by any size-ranked order of the labels has the stabiliser's properties. */
  lemma RelabelByValidOrder(labels: seq<int>, order: seq<int>)
    requires ValidOrder(labels, order)
    ensures forall x :: x in labels ==> x in order
    ensures |order| == |Labels(labels)|
    ensures forall i, j :: 0 <= i < |labels| && 0 <= j < |labels| ==>
      (Relabel(labels, order)[i] == Relabel(labels, order)[j] <==> labels[i] == labels[j])
    ensures forall c :: 0 <= c < |order| ==> Size(Relabel(labels, order), c) == Size(labels, order[c])
    ensures forall c :: 0 <= c < |order| ==> c in Relabel(labels, order)
  {
    assert forall x :: x in labels ==> x in Labels(labels);
    DistinctCard(order);
    var r := Relabel(labels, order);
    forall c | 0 <= c < |order|
      ensures Size(r, c) == Size(labels, order[c])
      ensures c in r
    {
      forall i | 0 <= i < |r| ensures r[i] == c <==> labels[i] == order[c] {
        assert order[r[i]] == labels[i];
      }
      SizeTransfer(r, labels, c, order[c]);
      assert order[c] in Labels(labels);
      var i :| 0 <= i < |labels| && labels[i] == order[c];
      assert r[i] == c;
    }
  }

  /**
   * `sort_cluster_labels`: relabels the clusters so that label 0 is the
   * largest cluster, 1 the next, and so on.
   */
  function SortClusterLabels(labels: seq<int>): (r: seq<int>)
    ensures |r| == |labels|
    ensures forall i, j :: 0 <= i < |labels| && 0 <= j < |labels| ==> (r[i] == r[j] <==> labels[i] == labels[j])
    ensures forall i :: 0 <= i < |r| ==> 0 <= r[i] < |Labels(labels)|
    ensures forall c :: 0 <= c < |Labels(labels)| ==> c in r
    ensures forall a, b :: 0 <= a < b < |Labels(labels)| ==> Size(r, a) >= Size(r, b)
  {
    var order := SizeOrder(labels);
    RelabelByValidOrder(labels, order);
    Relabel(labels, order)
  }

  // ---------------------------------------------------------------------
  // cluster and auto_cluster

  /** What `KMeans(n_clusters=k).fit_predict` does with the embeddings. */
  datatype KMeansOutcome = Fitted(assignments: seq<int>) | FitValueError

  datatype ClusterError =
    | NotEnoughDatasetsError(nClusters: int, nDatasets: int)
    /** `silhouette_score` rejects an assignment with fewer than 2 or more than n - 1 labels. */
    | SilhouetteValueError(nLabels: nat, nSamples: nat)

  /** A clustering with its silhouette score. */
  datatype Clustering = Clustering(assignments: seq<int>, score: real)

  /** The silhouette score is defined for 2 to n - 1 distinct labels. */
  predicate SilhouetteDefined(labels: seq<int>) {
    2 <= |Labels(labels)| < |labels|
  }

  /** The labels 0..k-1. */
  function LabelRange(k: nat): (r: set<int>)
    ensures forall x :: x in r <==> 0 <= x < k
    ensures |r| == k
  {
    if k == 0 then {} else LabelRange(k - 1) + {k - 1}
  }

  /** The stabiliser keeps the number of distinct labels. */
  lemma SortedLabelCount(labels: seq<int>)
    ensures |Labels(SortClusterLabels(labels))| == |Labels(labels)|
  {
    var r := SortClusterLabels(labels);
    var k := |Labels(labels)|;
    assert Labels(r) == LabelRange(k) by {
      forall x | x in Labels(r) ensures 0 <= x < k {
        var i :| 0 <= i < |r| && r[i] == x;
      }
    }
  }

  /**
   * `cluster(embeddings, k)`: a failing fit becomes NotEnoughDatasetsError;
   * otherwise the assignment is stabilised and then scored, and the score
   * raises a ValueError (outside the `try`) unless the fit has between 2
   * and n - 1 distinct labels.
   */
  function ClusterStep(fit: KMeansOutcome, silhouette: seq<int> -> real, k: int, nDatasets: int): (r: Result<Clustering, ClusterError>)
    ensures fit.FitValueError? ==> r == Failure(NotEnoughDatasetsError(k, nDatasets))
    ensures fit.Fitted? ==> (r.Failure? <==> !(2 <= |Labels(fit.assignments)| < |fit.assignments|))
    ensures fit.Fitted? && r.Failure? ==>
      r.error == SilhouetteValueError(|Labels(fit.assignments)|, |fit.assignments|)
    ensures r.Success? ==> |r.value.assignments| == |fit.assignments|
    ensures r.Success? ==> forall i, j :: 0 <= i < |fit.assignments| && 0 <= j < |fit.assignments| ==>
      (r.value.assignments[i] == r.value.assignments[j] <==> fit.assignments[i] == fit.assignments[j])
    ensures r.Success? ==> r.value.score == silhouette(r.value.assignments)
  {
    match fit
    case FitValueError => Failure(NotEnoughDatasetsError(k, nDatasets))
    case Fitted(a) =>
      var labels := SortClusterLabels(a);
      SortedLabelCount(a);
      if !SilhouetteDefined(labels) then Failure(SilhouetteValueError(|Labels(labels)|, |labels|))
      else Success(Clustering(labels, silhouette(labels)))
  }

  /** The best clustering found: (assignment or None, score, number of clusters). */
  datatype Best = Best(assignments: Option<seq<int>>, score: real, k: nat)

  /** The sweep tries `range(2, min(20, n))`. */
  function SweepEnd(nDatasets: nat): nat {
    if nDatasets < 20 then nDatasets else 20
  }

  /**
   * `auto_cluster`: tries every k in range(2, min(20, n)) in increasing
   * order and keeps a clustering whose score strictly exceeds the best so
   * far.  `cluster(k)` stands for `cluster(embeddings, k)`, ClusterStep.
   */
  method AutoCluster(nDatasets: nat, cluster: nat -> Result<Clustering, ClusterError>)
    returns (r: Result<Best, ClusterError>)
    // the first failing k propagates its error
    ensures r.Failure? <==> exists k :: 2 <= k < SweepEnd(nDatasets) && cluster(k).Failure?
    ensures r.Failure? ==> exists k :: (2 <= k < SweepEnd(nDatasets) && cluster(k).Failure? &&
      r.error == cluster(k).error && forall j :: 2 <= j < k ==> cluster(j).Success?)
    // the result scores at least as well as every tried k
    ensures r.Success? ==> forall k :: 2 <= k < SweepEnd(nDatasets) ==> cluster(k).value.score <= r.value.score
    // when nothing beats the sentinel score -1, the sentinel (None, -1, 0) is returned
    ensures r.Success? && r.value.k == 0 ==> r.value == Best(None, -1.0, 0)
    // otherwise the smallest k that reaches the best score wins
    ensures r.Success? && r.value.k != 0 ==>
      2 <= r.value.k < SweepEnd(nDatasets) && r.value.score > -1.0 &&
      r.value == Best(Some(cluster(r.value.k).value.assignments), cluster(r.value.k).value.score, r.value.k) &&
      forall j :: 2 <= j < r.value.k ==> cluster(j).value.score < r.value.score
  {
    var best := Best(None, -1.0, 0);
    var k := 2;
    var end := SweepEnd(nDatasets);
    while k < end
      invariant 2 <= k <= if end < 2 then 2 else end
      invariant forall j :: 2 <= j < k ==> cluster(j).Success?
      invariant forall j :: 2 <= j < k ==> cluster(j).value.score <= best.score
      invariant best.k == 0 ==> best == Best(None, -1.0, 0)
      invariant best.k != 0 ==>
        2 <= best.k < k && best.score > -1.0 &&
        best == Best(Some(cluster(best.k).value.assignments), cluster(best.k).value.score, best.k) &&
        forall j :: 2 <= j < best.k ==> cluster(j).value.score < best.score
    {
      var step := cluster(k);
      if step.Failure? {
        return Failure(step.error);
      }
      if step.value.score > best.score {
        best := Best(Some(step.value.assignments), step.value.score, k);
      }
      k := k + 1;
    }
    return Success(best);
  }

  // ---------------------------------------------------------------------
  // get_clusters_top_terms

  /** Length of Python's `xs[:n]` for a list of length `len`. */
  function SliceLength(len: nat, n: int): (r: nat)
    ensures r <= len
    ensures n >= 0 ==> r == if n < len then n else len
    ensures n < 0 ==> r == if len + n < 0 then 0 else len + n
  {
    if n >= 0 then (if n < len then n else len)
    else if len + n < 0 then 0 else len + n
  }

  function InsertByScore(score: nat -> real, x: nat, s: seq<nat>): (r: seq<nat>)
    ensures |r| == |s| + 1
    ensures forall y :: y in r <==> y == x || y in s
  {
    if |s| == 0 then [x]
    else if score(x) >= score(s[0]) then [x] + s
    else [s[0]] + InsertByScore(score, x, s[1..])
  }

  predicate ScoreRanked(score: nat -> real, s: seq<nat>) {
    forall i, j :: 0 <= i < j < |s| ==> score(s[i]) >= score(s[j])
  }

  predicate DistinctIndices(s: seq<nat>) {
    forall i, j :: 0 <= i < j < |s| ==> s[i] != s[j]
  }

  lemma {:induction false} InsertByScoreRanked(score: nat -> real, x: nat, s: seq<nat>)
    requires ScoreRanked(score, s) && DistinctIndices(s) && x !in s
    ensures ScoreRanked(score, InsertByScore(score, x, s)) && DistinctIndices(InsertByScore(score, x, s))
    decreases |s|
  {
    if |s| == 0 {
    } else if score(x) >= score(s[0]) {
      ConsScoreRanked(score, x, s);
    } else {
      var t := InsertByScore(score, x, s[1..]);
      assert s == [s[0]] + s[1..];
      InsertByScoreRanked(score, x, s[1..]);
      forall y | y in t ensures score(s[0]) >= score(y) && y != s[0] {
        if y != x {
          var j :| 0 <= j < |s[1..]| && s[1..][j] == y;
          assert s[j + 1] == y;
        }
      }
      assert InsertByScore(score, x, s) == [s[0]] + t;
      ConsScoreRanked(score, s[0], t);
    }
  }

  /** An index scoring at least as high as every later one, and distinct from them, may lead the ranking. */
  lemma ConsScoreRanked(score: nat -> real, x: nat, s: seq<nat>)
    requires ScoreRanked(score, s) && DistinctIndices(s) && x !in s
    requires forall y :: y in s ==> score(x) >= score(y)
    ensures ScoreRanked(score, [x] + s) && DistinctIndices([x] + s)
  {
    var r := [x] + s;
    forall i, j | 0 <= i < j < |r| ensures score(r[i]) >= score(r[j]) && r[i] != r[j] {
      assert r[j] == s[j - 1] && r[j] in s;
      if i > 0 {
        assert r[i] == s[i - 1];
      }
    }
  }

  /**
   * The term indices 0..v-1 by decreasing score: `argsort()[::-1]` on one
   * row of the score matrix (the order among equal scores is fixed here).
   */
  function RankDescending(score: nat -> real, v: nat): (r: seq<nat>)
    ensures |r| == v
    ensures forall y: int :: y in r <==> 0 <= y < v
    ensures forall i :: 0 <= i < |r| ==> r[i] < v
  {
    if v == 0 then []
    else
      var r := InsertByScore(score, v - 1, RankDescending(score, v - 1));
      assert forall i :: 0 <= i < |r| ==> r[i] in r;
      r
  }

  /** The ranking is a permutation of 0..v-1 by non-increasing score. */
  lemma {:induction false} RankDescendingRanked(score: nat -> real, v: nat)
    ensures ScoreRanked(score, RankDescending(score, v))
    ensures DistinctIndices(RankDescending(score, v))
    decreases v
  {
    if v > 0 {
      RankDescendingRanked(score, v - 1);
      InsertByScoreRanked(score, v - 1, RankDescending(score, v - 1));
    }
  }

  datatype TopTermsError =
    | EmptyAssignmentError
    /** `np.zeros` rejects the negative number of clusters max + 1 when every label is below -1. */
    | NegativeDimensionError

  /** The scores of row `c` of the score matrix. */
  function RowScore(score: (nat, nat) -> real, c: nat): nat -> real {
    (term: nat) => score(c, term)
  }

  /** `ranking` lists the term indices 0..v-1, each once, by non-increasing score. */
  ghost predicate IsRanking(score: nat -> real, v: nat, ranking: seq<nat>) {
    |ranking| == v && (forall y: int :: y in ranking <==> 0 <= y < v)
      && (forall i :: 0 <= i < |ranking| ==> ranking[i] < v)
      && DistinctIndices(ranking) && ScoreRanked(score, ranking)
  }

  /**
   * `terms` are the vocabulary entries of the first `n` indices of some
   * ranking of row `c`, whatever order it gives to equal scores.
   */
  ghost predicate TopOfSomeRanking(vocabulary: seq<string>, score: (nat, nat) -> real, n: int, c: nat, terms: seq<string>) {
    exists ranking: seq<nat> :: IsRanking(RowScore(score, c), |vocabulary|, ranking)
      && |terms| == SliceLength(|vocabulary|, n)
      && forall t :: 0 <= t < |terms| ==> terms[t] == vocabulary[ranking[t]]
  }

  /** The top-term list of cluster `c`. */
  function TopTerms(vocabulary: seq<string>, score: (nat, nat) -> real, nTopicWords: int, c: nat): (r: seq<string>)
    ensures |r| == SliceLength(|vocabulary|, nTopicWords)
  {
    var ranked := RankDescending(RowScore(score, c), |vocabulary|);
    seq(SliceLength(|vocabulary|, nTopicWords), t requires 0 <= t < SliceLength(|vocabulary|, nTopicWords) => vocabulary[ranked[t]])
  }

  /**
   * `get_clusters_top_terms`: one list per cluster label 0..max(assignments),
   * each holding the vocabulary entries of the first `nTopicWords` term
   * indices ranked by decreasing `score(cluster, term)`.  numpy's `max`
   * raises on an empty assignment, and `np.zeros` on a negative number
   * of clusters.
   */
  method GetClustersTopTerms(assignments: seq<int>, vocabulary: seq<string>, score: (nat, nat) -> real, nTopicWords: int)
    returns (r: Result<seq<seq<string>>, TopTermsError>)
    ensures r.Failure? <==> |assignments| == 0 || Max(assignments) < -1
    ensures |assignments| == 0 ==> r == Failure(EmptyAssignmentError)
    ensures |assignments| > 0 && Max(assignments) < -1 ==> r == Failure(NegativeDimensionError)
    ensures r.Success? ==> |r.value| == Max(assignments) + 1
    ensures r.Success? ==> forall c :: 0 <= c < |r.value| ==> r.value[c] == TopTerms(vocabulary, score, nTopicWords, c)
    ensures r.Success? ==> forall c :: 0 <= c < |r.value| ==> TopOfSomeRanking(vocabulary, score, nTopicWords, c, r.value[c])
  {
    if |assignments| == 0 {
      return Failure(EmptyAssignmentError);
    }
    var nClusters := Max(assignments) + 1;
    if nClusters < 0 {
      return Failure(NegativeDimensionError);
    }
    var topTerms: seq<seq<string>> := [];
    var c := 0;
    while c < nClusters
      invariant 0 <= c <= nClusters
      invariant |topTerms| == c
      invariant forall d :: 0 <= d < c ==> topTerms[d] == TopTerms(vocabulary, score, nTopicWords, d)
      invariant forall d :: 0 <= d < c ==> TopOfSomeRanking(vocabulary, score, nTopicWords, d, topTerms[d])
    {
      var ranked := RankDescending(RowScore(score, c), |vocabulary|);
      var take := SliceLength(|vocabulary|, nTopicWords);
      var terms: seq<string> := [];
      var t := 0;
      while t < take
        invariant 0 <= t <= take
        invariant |terms| == t
        invariant forall u :: 0 <= u < t ==> terms[u] == vocabulary[ranked[u]]
      {
        terms := terms + [vocabulary[ranked[t]]];
        t := t + 1;
      }
      assert terms == TopTerms(vocabulary, score, nTopicWords, c);
      TopTermsOfSomeRanking(vocabulary, score, nTopicWords, c);
      topTerms := topTerms + [terms];
      c := c + 1;
    }
    return Success(topTerms);
  }

  function Max(s: seq<int>): (m: int)
    requires |s| > 0
    ensures m in s && forall x :: x in s ==> x <= m
  {
    if |s| == 1 then s[0]
    else
      var m := Max(s[1..]);
      assert forall x :: x in s ==> x == s[0] || x in s[1..];
      if s[0] > m then s[0] else m
  }

  /** The fixed ranking is one of the rankings `argsort` may give. */
  lemma TopTermsOfSomeRanking(vocabulary: seq<string>, score: (nat, nat) -> real, n: int, c: nat)
    ensures TopOfSomeRanking(vocabulary, score, n, c, TopTerms(vocabulary, score, n, c))
  {
    var f := RowScore(score, c);
    RankDescendingRanked(f, |vocabulary|);
    assert IsRanking(f, |vocabulary|, RankDescending(f, |vocabulary|));
  }

  /** With a vocabulary free of repetitions, no top-term list names a term twice. */
  lemma TopTermsDistinct(vocabulary: seq<string>, score: (nat, nat) -> real, n: int, c: nat)
    requires forall i, j :: 0 <= i < j < |vocabulary| ==> vocabulary[i] != vocabulary[j]
    ensures forall t, u :: 0 <= t < u < |TopTerms(vocabulary, score, n, c)| ==>
      TopTerms(vocabulary, score, n, c)[t] != TopTerms(vocabulary, score, n, c)[u]
  {
    var f := RowScore(score, c);
    RankDescendingRanked(f, |vocabulary|);
    var p := RankDescending(f, |vocabulary|);
    var r := TopTerms(vocabulary, score, n, c);
    forall t, u | 0 <= t < u < |r| ensures r[t] != r[u] {
      assert r[t] == vocabulary[p[t]] && r[u] == vocabulary[p[u]];
      assert p[t] != p[u];
      assert p[t] in p && p[u] in p;
      if p[t] < p[u] {
        assert vocabulary[p[t]] != vocabulary[p[u]];
      } else {
        assert vocabulary[p[u]] != vocabulary[p[t]];
      }
    }
  }

  /**
   * A top-term list is in decreasing score order, and every term left out
   * scores no higher than every term listed.
   */
  lemma TopTermsByScore(score: nat -> real, v: nat, n: int)
    ensures forall t, u :: 0 <= t < u < SliceLength(v, n) ==>
      score(RankDescending(score, v)[t]) >= score(RankDescending(score, v)[u])
    ensures forall t, term :: 0 <= t < SliceLength(v, n) && 0 <= term < v && term !in RankDescending(score, v)[..SliceLength(v, n)] ==>
      score(RankDescending(score, v)[t]) >= score(term)
  {
    RankDescendingRanked(score, v);
    var p := RankDescending(score, v);
    forall t, term | 0 <= t < SliceLength(v, n) && 0 <= term < v && term !in p[..SliceLength(v, n)]
      ensures score(p[t]) >= score(term)
    {
      assert term in p;
      var u :| 0 <= u < |p| && p[u] == term;
    }
  }

  // ---------------------------------------------------------------------
  // tests/test_cluster.py

  lemma SortClusterLabelsExample(l: seq<int>)
    requires l == [2, 2, 2, 0, 0, 1, 0, 1, 2]
    ensures SortClusterLabels(l) == [0, 0, 0, 1, 1, 2, 1, 2, 0]
  {
    var order, e := [2, 0, 1], [0, 0, 0, 1, 1, 2, 1, 2, 0];
    ExampleFacts(l);
    var o := ExampleOrder(l, order);
    ExampleRelabelling(l, order, e);
    RelabelExample(l, order, e);
  }

  lemma ExampleFacts(l: seq<int>)
    requires l == [2, 2, 2, 0, 0, 1, 0, 1, 2]
    ensures 2 in l && 0 in l && 1 in l && forall x :: x in l ==> x == 2 || x == 0 || x == 1
    ensures Size(l, 2) == 4 && Size(l, 0) == 3 && Size(l, 1) == 2
  {
    ExampleLabels(l);
    ExampleSizes(l);
  }

  lemma ExampleLabels(l: seq<int>)
    requires l == [2, 2, 2, 0, 0, 1, 0, 1, 2]
    ensures 2 in l && 0 in l && 1 in l && forall x :: x in l ==> x == 2 || x == 0 || x == 1
  {
    assert l[0] == 2 && l[3] == 0 && l[5] == 1;
  }

  lemma ExampleSizes(l: seq<int>)
    requires l == [2, 2, 2, 0, 0, 1, 0, 1, 2]
    ensures Size(l, 2) == 4 && Size(l, 0) == 3 && Size(l, 1) == 2
  {
  }

  lemma ExampleRelabelling(l: seq<int>, order: seq<int>, e: seq<int>)
    requires l == [2, 2, 2, 0, 0, 1, 0, 1, 2] && order == [2, 0, 1] && e == [0, 0, 0, 1, 1, 2, 1, 2, 0]
    ensures |e| == |l| && forall i :: 0 <= i < |l| ==> 0 <= e[i] < |order| && order[e[i]] == l[i]
  {
  }

  lemma SortClusterLabelsFixedPoint(l: seq<int>)
    requires l == [0, 0, 0, 1, 1, 2]
    ensures SortClusterLabels(l) == l
  {
    var order := [0, 1, 2];
    FixedPointFacts(l);
    var o := ExampleOrder(l, order);
    FixedPointRelabelling(l, order);
    RelabelExample(l, order, l);
  }

  lemma FixedPointFacts(l: seq<int>)
    requires l == [0, 0, 0, 1, 1, 2]
    ensures 0 in l && 1 in l && 2 in l && forall x :: x in l ==> x == 0 || x == 1 || x == 2
    ensures Size(l, 0) == 3 && Size(l, 1) == 2 && Size(l, 2) == 1
  {
    FixedPointLabels(l);
    FixedPointSizes(l);
  }

  lemma FixedPointLabels(l: seq<int>)
    requires l == [0, 0, 0, 1, 1, 2]
    ensures 0 in l && 1 in l && 2 in l && forall x :: x in l ==> x == 0 || x == 1 || x == 2
  {
    assert l[0] == 0 && l[3] == 1 && l[5] == 2;
  }

  lemma FixedPointSizes(l: seq<int>)
    requires l == [0, 0, 0, 1, 1, 2]
    ensures Size(l, 0) == 3 && Size(l, 1) == 2 && Size(l, 2) == 1
  {
  }

  lemma FixedPointRelabelling(l: seq<int>, order: seq<int>)
    requires l == [0, 0, 0, 1, 1, 2] && order == [0, 1, 2]
    ensures forall i :: 0 <= i < |l| ==> 0 <= l[i] < |order| && order[l[i]] == l[i]
  {
  }

  /** The size order of an assignment with three clusters of different sizes. */
  lemma ExampleOrder(l: seq<int>, expected: seq<int>) returns (order: seq<int>)
    requires |expected| == 3
    requires expected[0] in l && expected[1] in l && expected[2] in l
    requires forall x :: x in l ==> x == expected[0] || x == expected[1] || x == expected[2]
    requires Size(l, expected[0]) > Size(l, expected[1]) > Size(l, expected[2])
    ensures order == SizeOrder(l) == expected
  {
    order := SizeOrder(l);
    LabelsOfThree(l, expected[0], expected[1], expected[2]);
    SizeOrderUnique(l, order, expected);
  }

  lemma RelabelExample(l: seq<int>, order: seq<int>, expected: seq<int>)
    requires order == SizeOrder(l)
    requires |expected| == |l|
    requires forall x :: x in l ==> x in order
    requires forall i :: 0 <= i < |l| ==> 0 <= expected[i] < |order| && order[expected[i]] == l[i]
    ensures SortClusterLabels(l) == expected
  {
    SortIsRelabel(l);
    RelabelIs(l, order, expected);
  }

  lemma SortIsRelabel(l: seq<int>)
    ensures SortClusterLabels(l) == Relabel(l, SizeOrder(l))
  {
  }

  /** With distinct labels in `order`, the only relabelling onto `order` is by position. */
  lemma RelabelIs(l: seq<int>, order: seq<int>, expected: seq<int>)
    requires NoDuplicates(order) && forall x :: x in l ==> x in order
    requires |expected| == |l|
    requires forall i :: 0 <= i < |l| ==> 0 <= expected[i] < |order| && order[expected[i]] == l[i]
    ensures Relabel(l, order) == expected
  {
    var r := Relabel(l, order);
    forall i | 0 <= i < |l| ensures r[i] == expected[i] {
      assert order[r[i]] == l[i];
    }
  }

  lemma LabelsOfThree(l: seq<int>, a: int, b: int, c: int)
    requires a in l && b in l && c in l
    requires forall x :: x in l ==> x == a || x == b || x == c
    ensures Labels(l) == {a, b, c}
  {
    forall x ensures x in Labels(l) <==> x in {a, b, c} {
    }
  }

  /** With three labels of pairwise different sizes only one ranking is valid. */
  lemma SizeOrderUnique(l: seq<int>, order: seq<int>, expected: seq<int>)
    requires ValidOrder(l, order)
    requires |expected| == 3 && Labels(l) == {expected[0], expected[1], expected[2]}
    requires Size(l, expected[0]) > Size(l, expected[1]) > Size(l, expected[2])
    ensures order == expected
  {
    DistinctCard(order);
    assert |Labels(l)| == 3;
    assert |order| == 3;
    assert order[0] in Labels(l) && order[1] in Labels(l) && order[2] in Labels(l);
  }
}

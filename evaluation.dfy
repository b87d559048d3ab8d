/**
 * The evaluation helpers shared, line for line, by
 * src/standardization/evaluation.py and
 * src/tissue_and_cell_type_standardization/evaluation.py: comparing a
 * prediction with the true synonym through the MeSH id map, running a model
 * over the terms, and choosing the rows of the error report. The models are
 * abstract functions and the scores (sklearn) are not modelled.
 */
module Evaluation {
  import opened Wrappers
  import opened Strings
  import opened Seqs

  /** `mesh_id_map`: normalised MeSH term to MeSH id. */
  type IdMap = map<String, String>

  /** What a model returns for a term: a name (possibly empty), nothing, or a raised `ValueError`. */
  datatype ModelAnswer = Answer(name: String) | NoAnswer | RaisesValueError

  /** A comparison's id for a term: the id of its normalised form, else the term as given. */
  function TermId(term: String, idMap: IdMap): (id: String)
    ensures Normalize(term) in idMap ==> id == idMap[Normalize(term)]
    ensures Normalize(term) !in idMap ==> id == term
  {
    GetOr(idMap, Normalize(term), term)
  }

  /** `are_terms_same(term1, term2, mesh_id_map)`. */
  function AreTermsSame(term1: String, term2: String, idMap: IdMap): (same: bool)
    ensures same <==> TermId(term1, idMap) == TermId(term2, idMap)
  {
    var id1 := GetOr(idMap, Normalize(term1), term1);
    var id2 := GetOr(idMap, Normalize(term2), term2);
    id1 == id2
  }

  /** The comparison is reflexive, symmetric and transitive. */
  lemma AreTermsSameEquivalence(a: String, b: String, c: String, idMap: IdMap)
    ensures AreTermsSame(a, a, idMap)
    ensures AreTermsSame(a, b, idMap) == AreTermsSame(b, a, idMap)
    ensures AreTermsSame(a, b, idMap) && AreTermsSame(b, c, idMap) ==> AreTermsSame(a, c, idMap)
  {
  }

  /** Two terms the map knows are the same exactly when their ids agree; two it does not know only when they are equal as given. */
  lemma AreTermsSameCases(a: String, b: String, idMap: IdMap)
    ensures Normalize(a) in idMap && Normalize(b) in idMap ==>
      (AreTermsSame(a, b, idMap) <==> idMap[Normalize(a)] == idMap[Normalize(b)])
    ensures Normalize(a) !in idMap && Normalize(b) !in idMap ==> (AreTermsSame(a, b, idMap) <==> a == b)
  {
  }

  /**
   * The fallback is the term as given: a term the map does not know is not
   * the same as its own lowercase form.
   */
  lemma UnknownTermsCompareRaw(a: String, b: String)
    requires a == "Heart" && b == "heart"
    ensures !AreTermsSame(a, b, map[])
  {
    assert a[0] != b[0];
  }

  /** What the loop of `predict` appends for one answer: `model(term) or "UNPARSED"`, or "UNPARSED" on a `ValueError`. */
  function RawPrediction(a: ModelAnswer): (p: String)
    ensures a.Answer? && a.name != "" ==> p == a.name
    ensures !(a.Answer? && a.name != "") ==> p == "UNPARSED"
  {
    match a
    case Answer(name) => if name != "" then name else "UNPARSED"
    case NoAnswer => "UNPARSED"
    case RaisesValueError => "UNPARSED"
  }

  /** The id of a prediction or of a true synonym: its id when the map has it verbatim, else itself. */
  function IdOrSelf(s: String, idMap: IdMap): (id: String)
    ensures s in idMap ==> id == idMap[s]
    ensures s !in idMap ==> id == s
  {
    if s in idMap then idMap[s] else s
  }

  /** The predictions for the terms `x`: each model answer made a string, stripped and lowercased. */
  function Predictions(model: String -> ModelAnswer, x: seq<String>): (ps: seq<String>)
    ensures |ps| == |x|
  {
    seq(|x|, i requires 0 <= i < |x| => Normalize(RawPrediction(model(x[i]))))
  }

  /** The ids of a list of names, each looked up verbatim. */
  function Ids(names: seq<String>, idMap: IdMap): (ids: seq<String>)
    ensures |ids| == |names|
  {
    seq(|names|, i requires 0 <= i < |names| => IdOrSelf(names[i], idMap))
  }

  /**
   * `predict(model, x, mesh_id_map)`: the loop collects the answers, then
   * every prediction is stripped and lowercased and given its id.
   */
  method Predict(model: String -> ModelAnswer, x: seq<String>, idMap: IdMap)
    returns (predictions: seq<String>, predictedIds: seq<String>)
    ensures predictions == Predictions(model, x)
    ensures predictedIds == Ids(predictions, idMap)
  {
    var raw: seq<String> := [];
    for i := 0 to |x|
      invariant |raw| == i
      invariant forall k :: 0 <= k < i ==> raw[k] == RawPrediction(model(x[k]))
    {
      var answer := model(x[i]);
      if answer.RaisesValueError? {
        raw := raw + ["UNPARSED"];
      } else if answer.Answer? && answer.name != "" {
        raw := raw + [answer.name];
      } else {
        raw := raw + ["UNPARSED"];
      }
    }
    predictions := seq(|raw|, i requires 0 <= i < |raw| => Normalize(raw[i]));
    predictedIds := seq(|predictions|, i requires 0 <= i < |predictions| =>
      if predictions[i] in idMap then idMap[predictions[i]] else predictions[i]);
  }

  /** "UNPARSED" reaches the predictions as "unparsed". */
  lemma UnparsedIsLowercased(s: String)
    requires s == "UNPARSED"
    ensures Normalize(s) == "unparsed"
  {
    assert Strip(s) == s by {
      assert s[0] !in PyWhitespace && s[|s| - 1] !in PyWhitespace;
      TrimNoop(s, PyWhitespace);
    }
  }

  /**
   * One prediction per term, in order; a term the model leaves empty, answers
   * with nothing or fails on becomes "unparsed"; a predicted id is the
   * prediction's id when the map has it and the prediction otherwise.
   */
  lemma {:induction false} PredictionsSpec(model: String -> ModelAnswer, x: seq<String>, idMap: IdMap, i: nat)
    requires i < |x|
    ensures var ps := Predictions(model, x);
      |ps| == |x| && |Ids(ps, idMap)| == |x|
      && ((model(x[i]).Answer? && model(x[i]).name != "") ==> ps[i] == Normalize(model(x[i]).name))
      && (!(model(x[i]).Answer? && model(x[i]).name != "") ==> ps[i] == "unparsed")
      && (ps[i] in idMap ==> Ids(ps, idMap)[i] == idMap[ps[i]])
      && (ps[i] !in idMap ==> Ids(ps, idMap)[i] == ps[i])
  {
    if !(model(x[i]).Answer? && model(x[i]).name != "") {
      UnparsedIsLowercased(RawPrediction(model(x[i])));
    }
  }

  /**
   * The true synonyms are looked up as given, without stripping or
   * lowercasing: a synonym whose normalised form is in the map but which is
   * not itself a key keeps itself as its id.
   */
  lemma TrueIdsLookedUpRaw(y: seq<String>, idMap: IdMap, i: nat)
    requires i < |y| && y[i] !in idMap && Normalize(y[i]) in idMap
    ensures Ids(y, idMap)[i] == y[i]
  {
  }

  /** One row of `export_predictions`. */
  datatype PredictionRow = PredictionRow(
    originalTerm: String, trueSynonym: String, trueSynonymMeshId: String,
    predictedSynonym: String, predictedSynonymMeshId: String, ontology: String)

  /** The id shown in a report: the id of the normalised term, else the normalised term. */
  function ReportId(term: String, idMap: IdMap): (id: String)
    ensures Normalize(term) in idMap ==> id == idMap[Normalize(term)]
    ensures Normalize(term) !in idMap ==> id == Normalize(term)
  {
    GetOr(idMap, Normalize(term), Normalize(term))
  }

  /** Python `zip` of three lists: as long as the shortest. */
  function Zip3(xs: seq<String>, ys: seq<String>, ps: seq<String>): (ts: seq<(String, String, String)>)
    ensures |ts| <= |xs| && |ts| <= |ys| && |ts| <= |ps|
    ensures |ts| == |xs| || |ts| == |ys| || |ts| == |ps|
    ensures forall i :: 0 <= i < |ts| ==> ts[i] == (xs[i], ys[i], ps[i])
  {
    var n := if |xs| <= |ys| && |xs| <= |ps| then |xs| else if |ys| <= |ps| then |ys| else |ps|;
    seq(n, i requires 0 <= i < n => (xs[i], ys[i], ps[i]))
  }

  /** `export_predictions`: one row per triple of the zipped lists. */
  function PredictionRows(ts: seq<(String, String, String)>, idMap: IdMap): (rows: seq<PredictionRow>)
    ensures |rows| == |ts|
  {
    seq(|ts|, i requires 0 <= i < |ts| =>
      PredictionRow(ts[i].0, ts[i].1, ReportId(ts[i].1, idMap), ts[i].2, ReportId(ts[i].2, idMap), "MeSH"))
  }

  /** The elements of `ts` that `keep` accepts, in order: a Python list comprehension with a condition. */
  function Filter<T>(ts: seq<T>, keep: T -> bool): (r: seq<T>)
    ensures |r| <= |ts|
    decreases |ts|
  {
    if |ts| == 0 then []
    else if keep(ts[0]) then [ts[0]] + Filter(ts[1..], keep)
    else Filter(ts[1..], keep)
  }

  /** An element is kept exactly when it occurs and is accepted; the kept elements keep their order. */
  lemma {:induction false} FilterSpec<T>(ts: seq<T>, keep: T -> bool, t: T)
    ensures t in Filter(ts, keep) <==> t in ts && keep(t)
    ensures IsSubsequence(Filter(ts, keep), ts)
    decreases |ts|
  {
    if |ts| > 0 {
      FilterSpec(ts[1..], keep, t);
      assert ts == [ts[0]] + ts[1..];
      var r := Filter(ts, keep);
      if keep(ts[0]) {
        assert r[0] == ts[0] && r[1..] == Filter(ts[1..], keep);
      }
    }
  }

  /** Nothing is kept exactly when nothing is accepted. */
  lemma {:induction false} FilterEmpty<T>(ts: seq<T>, keep: T -> bool)
    ensures Filter(ts, keep) == [] <==> forall i :: 0 <= i < |ts| ==> !keep(ts[i])
    decreases |ts|
  {
    if |ts| > 0 {
      FilterEmpty(ts[1..], keep);
      assert forall i :: 0 < i < |ts| ==> ts[i] == ts[1..][i - 1];
    }
  }

  /** A triple (term, true synonym, prediction) whose prediction is not the same as the true synonym. */
  predicate IsError(t: (String, String, String), idMap: IdMap) {
    !AreTermsSame(t.1, t.2, idMap)
  }

  /** The comprehension of `export_errors`: the failing triples, in order. */
  function Errors(ts: seq<(String, String, String)>, idMap: IdMap): (es: seq<(String, String, String)>)
    ensures |es| <= |ts|
  {
    Filter(ts, t => IsError(t, idMap))
  }

  /** A triple is kept exactly when it occurs and its prediction is wrong; the kept triples keep their order. */
  lemma ErrorsSpec(ts: seq<(String, String, String)>, idMap: IdMap, t: (String, String, String))
    ensures t in Errors(ts, idMap) <==> t in ts && !AreTermsSame(t.1, t.2, idMap)
    ensures IsSubsequence(Errors(ts, idMap), ts)
  {
    FilterSpec(ts, t => IsError(t, idMap), t);
  }

  /** There are no errors exactly when every prediction is the same as its true synonym. */
  lemma NoErrorsIffAllSame(ts: seq<(String, String, String)>, idMap: IdMap)
    ensures Errors(ts, idMap) == [] <==> forall i :: 0 <= i < |ts| ==> AreTermsSame(ts[i].1, ts[i].2, idMap)
  {
    FilterEmpty(ts, t => IsError(t, idMap));
  }

  /**
   * `export_errors`: nothing is written when there is no error, otherwise the
   * report rows of the failing triples.
   */
  function ExportErrors(xs: seq<String>, ys: seq<String>, ps: seq<String>, idMap: IdMap): (report: Option<seq<PredictionRow>>)
    ensures report.None? <==> Errors(Zip3(xs, ys, ps), idMap) == []
    ensures report.Some? ==> |report.value| == |Errors(Zip3(xs, ys, ps), idMap)| > 0
  {
    var errors := Errors(Zip3(xs, ys, ps), idMap);
    if errors == [] then None else Some(PredictionRows(errors, idMap))
  }

  /**
   * The report's ids fall back to the normalised term while the comparison
   * falls back to the term as given, so an error row can show the same id
   * for the true and the predicted synonym.
   */
  lemma ErrorRowCanShowEqualIds(x: String, y: String, p: String, idMap: IdMap)
    requires y != p && Normalize(y) == Normalize(p) && Normalize(y) !in idMap
    ensures var report := ExportErrors([x], [y], [p], idMap);
      report.Some? && |report.value| == 1
      && report.value[0].trueSynonymMeshId == report.value[0].predictedSynonymMeshId
  {
    var ts := Zip3([x], [y], [p]);
    assert ts == [(x, y, p)];
    assert IsError(ts[0], idMap);
    assert Filter(ts[1..], t => IsError(t, idMap)) == [];
    assert Errors(ts, idMap) == ts;
  }
}

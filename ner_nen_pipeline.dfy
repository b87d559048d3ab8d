/**
 * Recognition followed by normalisation
 * (src/tissue_and_cell_type_standardization/ner_nen_pipeline.py): the
 * recogniser finds the entities of a text, the normaliser maps each
 * mention to a standard name (or to nothing), and the pipeline returns one
 * result per entity, in order. Both models are abstract functions.
 */
module NerNenPipeline {
  import opened Wrappers
  import opened Strings

  /** `NamedEntity(entity, entity_class, score)`. */
  datatype NamedEntity = NamedEntity(entity: String, entityClass: String, score: real)

  /** `NormalizationResult(mention, standard_name, ontology, cui, score)`. */
  datatype NormalizationResult = NormalizationResult(
    mention: String, standardName: String, ontology: String, cui: String, score: real)

  /** `PipelineResult(mention, entity_class, standard_name, ontology, cui, score)`, in that field order. */
  datatype PipelineResult = PipelineResult(
    mention: String, entityClass: String, standardName: Option<String>,
    ontology: Option<String>, cui: Option<String>, score: real)

  /** The score of an entity the normaliser could not map. */
  const UnnormalizedScore: real := -1.0

  /**
   * The result for one entity as the loop builds it: the arguments are
   * passed positionally as (..., standard_name, cui, ontology, score), so
   * the cui lands in the `ontology` field and the ontology in `cui`.
   */
  function ResultAsWritten(e: NamedEntity, n: Option<NormalizationResult>): PipelineResult {
    var standardName := if n.Some? then Some(n.value.standardName) else None;
    var cui := if n.Some? then Some(n.value.cui) else None;
    var ontology := if n.Some? then Some(n.value.ontology) else None;
    var score := if n.Some? then n.value.score else UnnormalizedScore;
    PipelineResult(e.entity, e.entityClass, standardName, cui, ontology, score)
  }

  /** Whenever the normaliser gives a cui that differs from the ontology, the result's `cui` is wrong. */
  lemma CuiAndOntologySwapped(e: NamedEntity, n: Option<NormalizationResult>)
    requires n.Some? && n.value.cui != n.value.ontology
    ensures ResultAsWritten(e, n).cui == Some(n.value.ontology) != Some(n.value.cui)
    ensures ResultAsWritten(e, n).ontology == Some(n.value.cui) != Some(n.value.ontology)
  {
  }

  /** The result for one entity with every field in its own place. */
  function ResultFor(e: NamedEntity, n: Option<NormalizationResult>): (r: PipelineResult) {
    match n
    case None => PipelineResult(e.entity, e.entityClass, None, None, None, UnnormalizedScore)
    case Some(m) => PipelineResult(e.entity, e.entityClass, Some(m.standardName), Some(m.ontology), Some(m.cui), m.score)
  }

  /**
   * The mention and class come from the entity; a normalised entity carries
   * the normaliser's name, ontology, cui and score, and one the normaliser
   * could not map has no name, ontology or cui and a score of -1.
   */
  lemma ResultFields(e: NamedEntity, n: Option<NormalizationResult>)
    ensures var r := ResultFor(e, n);
      r.mention == e.entity && r.entityClass == e.entityClass
      && (n.None? ==> r.standardName.None? && r.ontology.None? && r.cui.None? && r.score == UnnormalizedScore)
      && (n.Some? ==>
            r.standardName == Some(n.value.standardName) && r.ontology == Some(n.value.ontology)
            && r.cui == Some(n.value.cui) && r.score == n.value.score)
  {
  }

  /** The corrected result agrees with the code as written except that `ontology` and `cui` trade places. */
  lemma ResultForUnswaps(e: NamedEntity, n: Option<NormalizationResult>)
    ensures var w, r := ResultAsWritten(e, n), ResultFor(e, n);
      r == w.(ontology := w.cui, cui := w.ontology)
  {
  }

  /** What the pipeline returns for the entities `es` under the normaliser, as the code builds it. */
  function Results(es: seq<NamedEntity>, normalizer: String -> Option<NormalizationResult>): (r: seq<PipelineResult>)
    ensures |r| == |es|
  {
    seq(|es|, i requires 0 <= i < |es| => ResultAsWritten(es[i], normalizer(es[i].entity)))
  }

  /** One more entity adds its result at the end. */
  lemma ResultsSnoc(es: seq<NamedEntity>, normalizer: String -> Option<NormalizationResult>, i: nat)
    requires i < |es|
    ensures Results(es[..i + 1], normalizer) == Results(es[..i], normalizer) + [ResultAsWritten(es[i], normalizer(es[i].entity))]
  {
    assert es[..i + 1][..i] == es[..i];
  }

  /** The pipeline's results with `ontology` and `cui` each in its own field. */
  function ResultsCorrected(es: seq<NamedEntity>, normalizer: String -> Option<NormalizationResult>): (r: seq<PipelineResult>)
    ensures |r| == |es|
    ensures forall i :: 0 <= i < |es| && normalizer(es[i].entity).Some? ==>
      r[i].ontology == Some(normalizer(es[i].entity).value.ontology) && r[i].cui == Some(normalizer(es[i].entity).value.cui)
  {
    seq(|es|, i requires 0 <= i < |es| => ResultFor(es[i], normalizer(es[i].entity)))
  }

  /** The corrected results are those of the code as written with `ontology` and `cui` traded back. */
  lemma ResultsUnswap(es: seq<NamedEntity>, normalizer: String -> Option<NormalizationResult>)
    ensures forall i :: 0 <= i < |es| ==>
      ResultsCorrected(es, normalizer)[i]
        == Results(es, normalizer)[i].(ontology := Results(es, normalizer)[i].cui, cui := Results(es, normalizer)[i].ontology)
  {
    forall i | 0 <= i < |es|
      ensures ResultsCorrected(es, normalizer)[i]
        == Results(es, normalizer)[i].(ontology := Results(es, normalizer)[i].cui, cui := Results(es, normalizer)[i].ontology)
    {
      ResultForUnswaps(es[i], normalizer(es[i].entity));
    }
  }

  /** The mentions of a list of results. */
  function Mentions(rs: seq<PipelineResult>): (r: seq<String>)
    ensures |r| == |rs|
  {
    seq(|rs|, i requires 0 <= i < |rs| => rs[i].mention)
  }

  /** The results name the entities' mentions in the order the recogniser found them. */
  lemma ResultsFollowEntities(es: seq<NamedEntity>, normalizer: String -> Option<NormalizationResult>)
    ensures Mentions(Results(es, normalizer)) == seq(|es|, i requires 0 <= i < |es| => es[i].entity)
    ensures forall i :: 0 <= i < |es| ==> Results(es, normalizer)[i].entityClass == es[i].entityClass
  {
  }

  /**
   * `NER_NEN_Pipeline.__call__(text)`: every recognised entity is
   * normalised on its mention, and the results are collected by index,
   * with the cui and ontology passed in swapped positions.
   */
  method Run(text: String, recognizer: String -> seq<NamedEntity>,
             normalizer: String -> Option<NormalizationResult>)
    returns (result: seq<PipelineResult>)
    ensures result == Results(recognizer(text), normalizer)
  {
    var entities := recognizer(text);
    var normalized := seq(|entities|, i requires 0 <= i < |entities| => normalizer(entities[i].entity));
    result := [];
    var i := 0;
    while i < |entities|
      invariant 0 <= i <= |entities|
      invariant result == Results(entities[..i], normalizer)
    {
      var n := normalized[i];
      var standardName := if n.Some? then Some(n.value.standardName) else None;
      var cui := if n.Some? then Some(n.value.cui) else None;
      var ontology := if n.Some? then Some(n.value.ontology) else None;
      var score := if n.Some? then n.value.score else UnnormalizedScore;
      result := result + [PipelineResult(entities[i].entity, entities[i].entityClass, standardName, cui, ontology, score)];
      ResultsSnoc(entities, normalizer, i);
      i := i + 1;
    }
    assert entities[..i] == entities;
  }
}

/**
 * Validation of the synonyms of a training set
 * (src/training_data_gathering/validate_data.py): a synonym is valid when
 * it is one of the two placeholders, or when its normalised form is a MeSH
 * term and the term lies in anatomy or cancer. The category test lives in a
 * module that is not part of this model, so it is a parameter.
 */
module ValidateData {
  import opened Strings

  /** The two synonyms accepted without any lookup, compared exactly. */
  const Placeholders: seq<String> := ["UNKNOWN", "whole organism"]

  /**
   * `is_synonym_valid(synonym, mesh_lookup)`; `inAnatomyOrCancer` stands for
   * `is_mesh_term_in_anatomy_or_cancer`, called on the synonym as given.
   */
  function IsSynonymValid<V>(synonym: String, meshLookup: map<String, V>,
                             inAnatomyOrCancer: (String, map<String, V>) -> bool): (valid: bool)
    ensures synonym in Placeholders ==> valid
    ensures synonym !in Placeholders && Normalize(synonym) !in meshLookup ==> !valid
    ensures synonym !in Placeholders && Normalize(synonym) in meshLookup ==>
      (valid <==> inAnatomyOrCancer(synonym, meshLookup))
  {
    if synonym in Placeholders then true
    else if Normalize(synonym) !in meshLookup || !inAnatomyOrCancer(synonym, meshLookup) then false
    else true
  }

  /** A valid synonym is a placeholder or a MeSH term of the lookup after normalisation. */
  lemma ValidSynonymIsKnown<V>(synonym: String, meshLookup: map<String, V>,
                               inAnatomyOrCancer: (String, map<String, V>) -> bool)
    requires IsSynonymValid(synonym, meshLookup, inAnatomyOrCancer)
    ensures synonym in Placeholders || Normalize(synonym) in meshLookup
  {
  }

  /**
   * The placeholders are matched exactly: a differently cased placeholder
   * goes through the lookup like any other synonym.
   */
  lemma PlaceholderMatchIsExact<V>(synonym: String, inAnatomyOrCancer: (String, map<String, V>) -> bool)
    requires synonym == "Unknown"
    ensures !IsSynonymValid(synonym, map[], inAnatomyOrCancer)
  {
    assert synonym != Placeholders[0] by {
      assert synonym[1] != Placeholders[0][1];
    }
    assert synonym != Placeholders[1] by {
      assert |synonym| != |Placeholders[1]|;
    }
  }
}

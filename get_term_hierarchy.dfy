/**
 * The hierarchy of a standardised term (src/analysis/get_term_hierarchy.py):
 * an experiment type splits on " by "; a MeSH term follows one of its tree
 * numbers, chosen by a priority list of prefixes, and names the term of
 * every ancestor tree number from the root down.
 */
module TermHierarchy {
  import opened Wrappers
  import opened Strings
  import opened PyDict
  import opened MeshVocabulary
  import opened StandardizationResources

  /** Errors the lookup can raise: a missing ancestor tree number, or an entry without tree numbers. */
  datatype HierarchyError = KeyError | StopIteration

  /** The branches preferred when a term has several tree numbers, most preferred first. */
  const PriorityPrefixes: seq<String> := ["A11.118", "A15.145", "C08.381", "C19.246", "C06.552", "C01.920"]

  const ByMarker: String := " by "
  const TreeNumberSeparator: String := "."

  /** `get_hierarchy_for_experiment_type`: the parts of an experiment type. */
  function HierarchyForExperimentType(t: String): (r: seq<String>)
    ensures |r| >= 1
  {
    Split(t, ByMarker)
  }

  /**
   * The parts join back to the experiment type, and a type without " by "
   * is its own one-level hierarchy.
   */
  lemma ExperimentTypeParts(t: String)
    ensures Join(HierarchyForExperimentType(t), ByMarker) == t
    ensures !Contains(t, ByMarker) ==> HierarchyForExperimentType(t) == [t]
    ensures forall p :: p in HierarchyForExperimentType(t) ==> !Contains(p, ByMarker)
  {
    JoinSplit(t, ByMarker);
    SplitPiecesLackSep(t, ByMarker);
    if !Contains(t, ByMarker) {
      SplitNoSep(t, ByMarker);
    }
  }

  /** The tree numbers with prefix `p`. */
  function Matching(tns: set<String>, p: String): set<String> {
    set tn | tn in tns && StartsWith(tn, p)
  }

  /** The first priority prefix, from position `k` on, that some tree number has. */
  function FirstMatchFrom(tns: set<String>, k: nat): (r: Option<nat>)
    ensures r.Some? ==> k <= r.value < |PriorityPrefixes| && Matching(tns, PriorityPrefixes[r.value]) != {}
    ensures forall j :: k <= j < |PriorityPrefixes| && (r.None? || j < r.value) ==>
      Matching(tns, PriorityPrefixes[j]) == {}
    decreases |PriorityPrefixes| - k
  {
    if k >= |PriorityPrefixes| then None
    else if Matching(tns, PriorityPrefixes[k]) != {} then Some(k)
    else FirstMatchFrom(tns, k + 1)
  }

  function FirstMatch(tns: set<String>): Option<nat> {
    FirstMatchFrom(tns, 0)
  }

  /**
   * What `get_tree_number` may return: one of the tree numbers, with the
   * first priority prefix that any of them has, if there is one.
   */
  ghost predicate Prioritised(tns: set<String>, tn: String) {
    tn in tns && (FirstMatch(tns).Some? ==> StartsWith(tn, PriorityPrefixes[FirstMatch(tns).value]))
  }

  /**
   * `get_tree_number`: the first priority prefix, in list order, that a tree
   * number has picks such a tree number; otherwise any tree number is taken.
   * The set's iteration order is unspecified, so the choice among several
   * candidates is arbitrary; an empty set stops the iteration.
   */
  method GetTreeNumber(tns: set<String>) returns (r: Result<String, HierarchyError>)
    ensures r.Failure? <==> tns == {}
    ensures r.Failure? ==> r.error == StopIteration
    ensures r.Success? ==> Prioritised(tns, r.value)
  {
    var k := 0;
    while k < |PriorityPrefixes|
      invariant 0 <= k <= |PriorityPrefixes|
      invariant FirstMatch(tns) == FirstMatchFrom(tns, k)
    {
      var candidates := Matching(tns, PriorityPrefixes[k]);
      var parent: Option<String> := None;
      if candidates != {} {
        var tn :| tn in candidates;
        parent := Some(tn);
      }
      if parent.Some? {
        return Success(parent.value);
      }
      k := k + 1;
    }
    if tns == {} {
      return Failure(StopIteration);
    }
    var tn :| tn in tns;
    return Success(tn);
  }

  /** The joins of the first 1, 2, ... parts. */
  function Prefixes(parts: seq<String>, sep: String): (r: seq<String>)
    ensures |r| == |parts|
  {
    seq(|parts|, i requires 0 <= i < |parts| => Join(parts[..i + 1], sep))
  }

  /** The ancestors of a tree number and itself: the first 1, 2, ... of its segments. */
  function Ancestors(tn: String): (r: seq<String>)
    ensures |r| == |Split(tn, TreeNumberSeparator)|
  {
    Prefixes(Split(tn, TreeNumberSeparator), TreeNumberSeparator)
  }

  /** Each prefix starts the whole join; the last is the whole join. */
  lemma PrefixStarts(parts: seq<String>, sep: String, i: nat)
    requires i < |parts|
    ensures StartsWith(Join(parts, sep), Prefixes(parts, sep)[i])
    ensures Prefixes(parts, sep)[|parts| - 1] == Join(parts, sep)
  {
    PrefixAt(parts, sep, i);
    JoinStartsWithPrefix(parts, sep, i + 1);
    PrefixLast(parts, sep);
  }

  lemma PrefixAt(parts: seq<String>, sep: String, i: nat)
    requires i < |parts|
    ensures Prefixes(parts, sep)[i] == Join(parts[..i + 1], sep)
  {
  }

  /** The join of the first `k` parts starts the join of all of them. */
  lemma JoinStartsWithPrefix(parts: seq<String>, sep: String, k: nat)
    requires 1 <= k <= |parts|
    ensures StartsWith(Join(parts, sep), Join(parts[..k], sep))
  {
    var head := Join(parts[..k], sep);
    var tail: String := if k < |parts| then sep + Join(parts[k..], sep) else [];
    JoinPrefix(parts, sep, k);
    StartsWithConcat(head, tail);
  }

  /** The last prefix is the whole join. */
  lemma PrefixLast(parts: seq<String>, sep: String)
    requires |parts| > 0
    ensures Prefixes(parts, sep)[|parts| - 1] == Join(parts, sep)
  {
    assert parts[..|parts|] == parts;
  }

  /** A text starts the text it is followed by anything. */
  lemma StartsWithConcat(a: String, b: String)
    ensures StartsWith(a + b, a)
  {
    assert (a + b)[..|a|] == a;
  }

  /** The next prefix extends the previous one by a part. */
  lemma PrefixNext(parts: seq<String>, sep: String, i: nat)
    requires i + 1 < |parts|
    ensures Prefixes(parts, sep)[i + 1] == Prefixes(parts, sep)[i] + sep + parts[i + 1]
  {
    var next := parts[..i + 2];
    JoinPrefix(next, sep, i + 1);
    assert next[..i + 1] == parts[..i + 1];
    assert next[i + 1..] == [parts[i + 1]];
  }

  /**
   * Each ancestor starts the tree number, the next one extends it by a
   * segment, and the last one is the tree number itself.
   */
  lemma AncestorsShape(tn: String, i: nat)
    requires i < |Ancestors(tn)|
    ensures StartsWith(tn, Ancestors(tn)[i])
    ensures i + 1 < |Ancestors(tn)| ==>
      Ancestors(tn)[i + 1] == Ancestors(tn)[i] + TreeNumberSeparator + Split(tn, TreeNumberSeparator)[i + 1]
    ensures Ancestors(tn)[|Ancestors(tn)| - 1] == tn
  {
    var segments := Split(tn, TreeNumberSeparator);
    JoinSplit(tn, TreeNumberSeparator);
    PrefixStarts(segments, TreeNumberSeparator, i);
    if i + 1 < |segments| {
      PrefixNext(segments, TreeNumberSeparator, i);
    }
  }

  /** The terms of the ancestors, or a KeyError when one of them has no term. */
  function Hierarchy(tn: String, termOf: map<String, String>): (r: Result<seq<String>, HierarchyError>)
    ensures r.Failure? ==> r.error == KeyError
  {
    var ancestors := Ancestors(tn);
    if forall i :: 0 <= i < |ancestors| ==> ancestors[i] in termOf then
      Success(seq(|ancestors|, i requires 0 <= i < |ancestors| => termOf[ancestors[i]]))
    else Failure(KeyError)
  }

  /**
   * The hierarchy exists exactly when every ancestor has a term; it then
   * has one entry per segment, entry `i` naming the first `i + 1` segments,
   * and ends with the term of the tree number itself.
   */
  lemma HierarchyEntries(tn: String, termOf: map<String, String>)
    ensures Hierarchy(tn, termOf).Success? <==> forall a :: a in Ancestors(tn) ==> a in termOf
    ensures Hierarchy(tn, termOf).Success? ==>
      var h := Hierarchy(tn, termOf).value;
      |h| == |Split(tn, TreeNumberSeparator)|
      && (forall i :: 0 <= i < |h| ==> h[i] == termOf[Ancestors(tn)[i]])
      && tn in termOf && h[|h| - 1] == termOf[tn]
  {
    AncestorsShape(tn, 0);
  }

  /** The loop of `get_hierarchy` over the segments of the chosen tree number. */
  method AncestorTerms(tn: String, termOf: map<String, String>) returns (r: Result<seq<String>, HierarchyError>)
    ensures r == Hierarchy(tn, termOf)
  {
    var segments := Split(tn, TreeNumberSeparator);
    ghost var ancestors := Prefixes(segments, TreeNumberSeparator);
    var h: seq<String> := [];
    var i := 0;
    while i < |segments|
      invariant 0 <= i <= |segments|
      invariant forall j :: 0 <= j < i ==> ancestors[j] in termOf
      invariant h == seq(i, j requires 0 <= j < i => termOf[ancestors[j]])
    {
      var current := Join(segments[..i + 1], TreeNumberSeparator);
      assert current == ancestors[i];
      if current !in termOf {
        return Failure(KeyError);
      }
      h := h + [termOf[current]];
      i := i + 1;
    }
    return Success(h);
  }

  /** What `get_hierarchy` gives for a term in the MeSH lookup, once a tree number is chosen. */
  function InLookup(tns: set<String>, tn: String, termOf: map<String, String>): Result<Option<seq<String>>, HierarchyError> {
    if tns == {} then Failure(StopIteration)
    else match Hierarchy(tn, termOf)
      case Failure(e) => Failure(e)
      case Success(h) => Success(Some(h))
  }

  /**
   * `get_hierarchy(term, resources)`: None for no term, the experiment-type
   * split for a term outside the lookup, and otherwise the hierarchy along a
   * prioritised tree number of the term's entry.
   */
  method GetHierarchy(term: Option<String>, res: Resources) returns (r: Result<Option<seq<String>>, HierarchyError>)
    ensures term.None? ==> r == Success(None)
    ensures term.Some? && Get(res.meshLookup, term.value).None? ==>
      r == Success(Some(HierarchyForExperimentType(term.value)))
    ensures term.Some? && Get(res.meshLookup, term.value).Some? ==>
      var tns := Get(res.meshLookup, term.value).value.treeNumbers;
      (tns == {} ==> r == Failure(StopIteration))
      && (tns != {} ==> exists tn :: Prioritised(tns, tn) && r == InLookup(tns, tn, res.meshTreeNumberToTerm))
  {
    if term.None? {
      return Success(None);
    }
    var found := Get(res.meshLookup, term.value);
    if found.None? {
      return Success(Some(HierarchyForExperimentType(term.value)));
    }
    var tn := GetTreeNumber(found.value.treeNumbers);
    if tn.Failure? {
      return Failure(tn.error);
    }
    var h := AncestorTerms(tn.value, res.meshTreeNumberToTerm);
    if h.Failure? {
      r := Failure(h.error);
    } else {
      r := Success(Some(h.value));
    }
    assert Prioritised(found.value.treeNumbers, tn.value);
  }
}

/**
 * The earlier BERN2 post-processing step of the tissue and cell-type
 * standardisation (src/tissue_and_cell_type_standardization/bern2_angel_pipeline.py):
 * the same selection of annotations, but no entity typing and no choice of
 * candidates, and ANGEL's answers memoised by normalised mention alone.
 */
module TissueBern2Angel {
  import opened Strings
  import opened Bern2Angel

  /** The cache and the log of the mentions ANGEL was asked about. */
  datatype TissueState = TissueState(cache: map<String, Normalization>, calls: seq<String>)

  /** The loop's work on one annotation. */
  function TissueStep(mustNormalizeToMesh: bool, angel: String -> Normalization, st: TissueState, a: Annotation)
    : (TissueState, Annotation)
  {
    if !Selected(a, mustNormalizeToMesh) then (st, a)
    else
      var mention := Normalize(a.mention);
      if mention in st.cache then (st, a.(ids := a.ids + ["mesh:" + st.cache[mention].cui]))
      else
        var n := angel(mention);
        (TissueState(st.cache[mention := n], st.calls + [mention]), a.(ids := a.ids + ["mesh:" + n.cui]))
  }

  /** The loop after one more annotation. */
  function TissueNext(mustNormalizeToMesh: bool, angel: String -> Normalization,
                      o: (TissueState, seq<Annotation>), a: Annotation): (TissueState, seq<Annotation>)
  {
    var p := TissueStep(mustNormalizeToMesh, angel, o.0, a);
    (p.0, o.1 + [p.1])
  }

  /** The state and the processed annotations after the first `n` annotations. */
  function TissuePreprocessUpTo(mustNormalizeToMesh: bool, angel: String -> Normalization, st: TissueState,
                                anns: seq<Annotation>, n: nat): (TissueState, seq<Annotation>)
    requires n <= |anns|
  {
    if n == 0 then (st, [])
    else TissueNext(mustNormalizeToMesh, angel, TissuePreprocessUpTo(mustNormalizeToMesh, angel, st, anns, n - 1), anns[n - 1])
  }

  /** Every cached answer is ANGEL's answer for that mention. */
  ghost predicate TissueCacheSound(angel: String -> Normalization, st: TissueState) {
    forall m :: m in st.cache ==> st.cache[m] == angel(m)
  }

  /** ANGEL has been asked once about each cached mention and about nothing else. */
  ghost predicate TissueCallsMatchCache(st: TissueState) {
    (forall m :: m in st.cache <==> m in st.calls)
    && (forall i, j :: 0 <= i < j < |st.calls| ==> st.calls[i] != st.calls[j])
  }

  /** Without a cache: a selected annotation gets ANGEL's cui for its normalised mention, the others stay. */
  function TissueExpected(mustNormalizeToMesh: bool, angel: String -> Normalization, a: Annotation): Annotation {
    if !Selected(a, mustNormalizeToMesh) then a
    else a.(ids := a.ids + ["mesh:" + angel(Normalize(a.mention)).cui])
  }

  /**
   * A hit appends the cached cui and leaves the cache and the calls alone;
   * a miss asks ANGEL once and caches the answer; an annotation that is not
   * selected is returned unchanged.
   */
  lemma TissueStepSpec(mustNormalizeToMesh: bool, angel: String -> Normalization, st: TissueState, a: Annotation)
    ensures var (st', b) := TissueStep(mustNormalizeToMesh, angel, st, a);
      var m := Normalize(a.mention);
      (!Selected(a, mustNormalizeToMesh) ==> st' == st && b == a)
      && (Selected(a, mustNormalizeToMesh) && m in st.cache ==>
            st' == st && b == a.(ids := a.ids + ["mesh:" + st.cache[m].cui]))
      && (Selected(a, mustNormalizeToMesh) && m !in st.cache ==>
            st' == TissueState(st.cache[m := angel(m)], st.calls + [m])
            && b == a.(ids := a.ids + ["mesh:" + angel(m).cui]))
  {
  }

  /** From a sound cache one step agrees with the uncached answer and keeps the cache sound and matched. */
  lemma TissueStepSound(mustNormalizeToMesh: bool, angel: String -> Normalization, st: TissueState, a: Annotation)
    requires TissueCacheSound(angel, st) && TissueCallsMatchCache(st)
    ensures var p := TissueStep(mustNormalizeToMesh, angel, st, a);
      TissueCacheSound(angel, p.0) && TissueCallsMatchCache(p.0) && p.1 == TissueExpected(mustNormalizeToMesh, angel, a)
  {
    var p := TissueStep(mustNormalizeToMesh, angel, st, a);
    if Selected(a, mustNormalizeToMesh) && Normalize(a.mention) !in st.cache {
      assert forall i :: 0 <= i < |st.calls| ==> p.0.calls[i] == st.calls[i];
    }
  }

  /** The annotations done are the first annotations as the uncached pipeline makes them. */
  ghost predicate AllExpected(mustNormalizeToMesh: bool, angel: String -> Normalization, anns: seq<Annotation>, done: seq<Annotation>) {
    |done| <= |anns| && forall i :: 0 <= i < |done| ==> done[i] == TissueExpected(mustNormalizeToMesh, angel, anns[i])
  }

  lemma AllExpectedSnoc(mustNormalizeToMesh: bool, angel: String -> Normalization, anns: seq<Annotation>,
                        done: seq<Annotation>, b: Annotation)
    requires |done| < |anns| && AllExpected(mustNormalizeToMesh, angel, anns, done)
    requires b == TissueExpected(mustNormalizeToMesh, angel, anns[|done|])
    ensures AllExpected(mustNormalizeToMesh, angel, anns, done + [b])
  {
    assert forall i :: 0 <= i < |done| ==> (done + [b])[i] == done[i];
  }

  /**
   * From a sound cache, the loop returns one annotation per annotation,
   * each what the uncached pipeline would make of it, and ANGEL is asked
   * about each normalised mention at most once.
   */
  lemma {:induction false} TissuePreprocessSound(mustNormalizeToMesh: bool, angel: String -> Normalization,
                                                 st: TissueState, anns: seq<Annotation>, n: nat)
    requires n <= |anns| && TissueCacheSound(angel, st) && TissueCallsMatchCache(st)
    ensures var o := TissuePreprocessUpTo(mustNormalizeToMesh, angel, st, anns, n);
      TissueCacheSound(angel, o.0) && TissueCallsMatchCache(o.0) && |o.1| == n
      && AllExpected(mustNormalizeToMesh, angel, anns, o.1)
    decreases n
  {
    if n > 0 {
      TissuePreprocessSound(mustNormalizeToMesh, angel, st, anns, n - 1);
      var o := TissuePreprocessUpTo(mustNormalizeToMesh, angel, st, anns, n - 1);
      TissueStepSound(mustNormalizeToMesh, angel, o.0, anns[n - 1]);
      AllExpectedSnoc(mustNormalizeToMesh, angel, anns, o.1, TissueStep(mustNormalizeToMesh, angel, o.0, anns[n - 1]).1);
    }
  }

  /** One pass of the loop extends the prefix by the step's annotation. */
  lemma TissueLoopStep(mustNormalizeToMesh: bool, angel: String -> Normalization, st0: TissueState,
                       a0: seq<Annotation>, i: nat, before: TissueState, done: seq<Annotation>,
                       after: TissueState, b: Annotation)
    requires i < |a0| && TissuePreprocessUpTo(mustNormalizeToMesh, angel, st0, a0, i) == (before, done)
    requires TissueStep(mustNormalizeToMesh, angel, before, a0[i]) == (after, b)
    ensures TissuePreprocessUpTo(mustNormalizeToMesh, angel, st0, a0, i + 1) == (after, done + [b])
  {
  }

  /** `BERN2AngelPipeline` of the tissue standardisation: ANGEL and its mention-keyed cache. */
  class TissueBern2AngelPipeline {
    const mustNormalizeToMesh: bool
    /** `self.angel.normalize_entity`. */
    const angel: String -> Normalization
    var angelCache: map<String, Normalization>
    ghost var angelCalls: seq<String>

    ghost function State(): TissueState
      reads this
    {
      TissueState(angelCache, angelCalls)
    }

    constructor (angel: String -> Normalization, mustNormalizeToMesh: bool)
      ensures this.angel == angel && this.mustNormalizeToMesh == mustNormalizeToMesh
      ensures angelCache == map[] && angelCalls == []
    {
      this.angel := angel;
      this.mustNormalizeToMesh := mustNormalizeToMesh;
      angelCache := map[];
      angelCalls := [];
    }

    /** One pass of the loop of `preprocess_annotations` on one annotation. */
    method PreprocessOne(annotation: Annotation) returns (b: Annotation)
      modifies this
      ensures (State(), b) == TissueStep(mustNormalizeToMesh, angel, old(State()), annotation)
    {
      if !Selected(annotation, mustNormalizeToMesh) {
        return annotation;
      }
      var mention := Normalize(annotation.mention);
      var meshId := "";
      if mention in angelCache {
        meshId := angelCache[mention].cui;
      } else {
        var normalization := angel(mention);
        meshId := normalization.cui;
        angelCache := angelCache[mention := normalization];
        angelCalls := angelCalls + [mention];
      }
      return annotation.(ids := annotation.ids + ["mesh:" + meshId]);
    }

    /** `preprocess_annotations(annotations, text)`: the annotations updated in place, in order; `text` is not used. */
    method PreprocessAnnotations(anns: array<Annotation>, text: String)
      modifies this, anns
      ensures (State(), anns[..]) == TissuePreprocessUpTo(mustNormalizeToMesh, angel, old(State()), old(anns[..]), anns.Length)
    {
      ghost var st0, a0 := State(), anns[..];
      var i := 0;
      while i < anns.Length
        invariant 0 <= i <= anns.Length
        invariant TissuePreprocessUpTo(mustNormalizeToMesh, angel, st0, a0, i) == (State(), anns[..i])
        invariant anns[i..] == a0[i..]
      {
        var annotation := anns[i];
        assert annotation == a0[i];
        ghost var before, done := State(), anns[..i];
        var b := PreprocessOne(annotation);
        anns[i] := b;
        TissueLoopStep(mustNormalizeToMesh, angel, st0, a0, i, before, done, State(), b);
        assert anns[..i + 1] == done + [b];
        assert anns[i + 1..] == a0[i + 1..] by {
          assert anns[i + 1..] == old(anns[..])[i + 1..];
        }
        i := i + 1;
      }
      assert anns[..i] == anns[..];
    }
  }

  /** A fresh pipeline appends to each selected annotation ANGEL's cui for its normalised mention. */
  lemma TissueFreshPipelineAnswers(mustNormalizeToMesh: bool, angel: String -> Normalization, anns: seq<Annotation>)
    ensures var done := TissuePreprocessUpTo(mustNormalizeToMesh, angel, TissueState(map[], []), anns, |anns|).1;
      |done| == |anns| && forall i :: 0 <= i < |anns| ==> done[i] == TissueExpected(mustNormalizeToMesh, angel, anns[i])
  {
    TissuePreprocessSound(mustNormalizeToMesh, angel, TissueState(map[], []), anns, |anns|);
  }
}

/**
 * The BERN2 post-processing step that normalises to MeSH with ANGEL
 * (src/standardization/bern2_angel_pipeline.py). Annotations that BERN2
 * could not link ("CUI-less"), or, when MeSH is required, that carry no
 * "mesh:" id, get the entity type of the characteristics line they sit on
 * and then one "mesh:" id from ANGEL. ANGEL's answers are memoised per
 * (normalised mention, entity type), and the candidate names ANGEL chooses
 * from are narrowed to cell types for cell types and cell lines.
 *
 * ANGEL itself is an abstract function of its candidate list and the
 * mention; each call to it is recorded in a ghost log so that the cache's
 * effect on the number of calls can be stated.
 */
module Bern2Angel {
  import opened Wrappers
  import opened Strings
  import opened MeshVocabulary
  import opened LineAtIndex

  /** A BERN2 annotation: mention, entity type (`obj`), id list and the span's start. */
  datatype Annotation = Annotation(mention: String, obj: String, ids: seq<String>, begin: int)

  /** What ANGEL returns; only its cui is used. */
  datatype Normalization = Normalization(cui: String)

  /** The failure of reading the annotation's line. */
  datatype AnnotationError =
    | SeparatorError   // `str.split` with an empty separator raises ValueError
    | NoLineError      // the span lies past the text, so the line is None and `startswith` fails

  /** The categories whose terms are cell-type candidates: anatomy and two neoplasm branches. */
  const CellTypeCategories: seq<String> := ["A", "C04.588", "C04.557"]

  /** The fixed parts of a pipeline. */
  datatype Config = Config(
    mustNormalizeToMesh: bool,
    cellTypeCandidates: seq<String>,
    allCandidates: seq<String>,
    angel: (seq<String>, String) -> Normalization,
    separator: String)

  /** The changing parts: ANGEL's candidates, the cache and the log of calls to ANGEL by cache key. */
  datatype PipelineState = PipelineState(
    candidates: seq<String>,
    cache: map<(String, String), Normalization>,
    calls: seq<(String, String)>)

  /** The condition of `preprocess_annotations` for normalising an annotation. */
  predicate Selected(a: Annotation, mustNormalizeToMesh: bool) {
    "CUI-less" in a.ids
    || (mustNormalizeToMesh && forall j :: 0 <= j < |a.ids| ==> !StartsWith(a.ids[j], "mesh:"))
  }

  /** `set_angel_candidates`: the candidates for an entity type. */
  function CandidatesFor(cfg: Config, obj: String): seq<String> {
    if obj in ["cell_type", "cell_line"] then cfg.cellTypeCandidates else cfg.allCandidates
  }

  /** `assign_entity_type_based_on_line`: the annotation with the entity type its line announces. */
  function TypedByLine(a: Annotation, text: String, separator: String): Result<Annotation, AnnotationError> {
    if |separator| == 0 then Failure(SeparatorError)
    else match LineFrom(Split(text, separator), |separator|, a.begin, 0)
      case None => Failure(NoLineError)
      case Some(line) =>
        if StartsWith(line, "cell type: ") then Success(a.(obj := "cell_type"))
        else if StartsWith(line, "cell line: ") then Success(a.(obj := "cell_line"))
        else Success(a)
  }

  /**
   * Only the entity type changes, and it becomes "cell_type" or "cell_line"
   * exactly when the line starts with "cell type: " or "cell line: ".
   */
  lemma TypedByLineSpec(a: Annotation, text: String, separator: String)
    ensures |separator| == 0 ==> TypedByLine(a, text, separator) == Failure(SeparatorError)
    ensures |separator| > 0 ==>
      var r := TypedByLine(a, text, separator);
      var line := LineFrom(Split(text, separator), |separator|, a.begin, 0);
      (r.Failure? <==> line.None?)
      && (r.Success? ==>
            r.value == a.(obj := r.value.obj)
            && (StartsWith(line.value, "cell type: ") ==> r.value.obj == "cell_type")
            && (StartsWith(line.value, "cell line: ") && !StartsWith(line.value, "cell type: ") ==> r.value.obj == "cell_line")
            && (!StartsWith(line.value, "cell type: ") && !StartsWith(line.value, "cell line: ") ==> r.value.obj == a.obj))
  {
  }

  /** The cache key of `normalize_to_mesh_id`. */
  function CacheKey(a: Annotation): (String, String) {
    (Normalize(a.mention), a.obj)
  }

  /** `normalize_to_mesh_id(annotation)`: the new state and the cui. */
  function MeshIdOf(cfg: Config, st: PipelineState, a: Annotation): (PipelineState, String) {
    var candidates := CandidatesFor(cfg, a.obj);
    var key := CacheKey(a);
    if key in st.cache then (st.(candidates := candidates), st.cache[key].cui)
    else
      var n := cfg.angel(candidates, key.0);
      (PipelineState(candidates, st.cache[key := n], st.calls + [key]), n.cui)
  }

  /** One annotation of `preprocess_annotations`. */
  function Step(cfg: Config, st: PipelineState, a: Annotation, text: String): Result<(PipelineState, Annotation), AnnotationError> {
    if !Selected(a, cfg.mustNormalizeToMesh) then Success((st, a))
    else match TypedByLine(a, text, cfg.separator)
      case Failure(e) => Failure(e)
      case Success(typed) =>
        var (st', cui) := MeshIdOf(cfg, st, typed);
        Success((st', typed.(ids := typed.ids + ["mesh:" + cui])))
  }

  /** The state, the annotations processed so far, and the error that stopped the loop, if any. */
  datatype Outcome = Outcome(st: PipelineState, done: seq<Annotation>, error: Option<AnnotationError>)

  /** The loop after one more annotation: nothing more once an error has stopped it. */
  function Next(cfg: Config, o: Outcome, a: Annotation, text: String): Outcome {
    if o.error.Some? then o
    else match Step(cfg, o.st, a, text)
      case Failure(e) => o.(error := Some(e))
      case Success(p) => Outcome(p.0, o.done + [p.1], None)
  }

  /** The loop of `preprocess_annotations` over the first `n` annotations, stopping at the first error. */
  function PreprocessUpTo(cfg: Config, st: PipelineState, anns: seq<Annotation>, text: String, n: nat): Outcome
    requires n <= |anns|
  {
    if n == 0 then Outcome(st, [], None)
    else Next(cfg, PreprocessUpTo(cfg, st, anns, text, n - 1), anns[n - 1], text)
  }

  /** `preprocess_annotations(annotations, text)`. */
  function Preprocess(cfg: Config, st: PipelineState, anns: seq<Annotation>, text: String): Outcome {
    PreprocessUpTo(cfg, st, anns, text, |anns|)
  }

  /** Every cached answer is what ANGEL gives for that mention among the candidates of that entity type. */
  ghost predicate CacheSound(cfg: Config, st: PipelineState) {
    forall key :: key in st.cache ==> st.cache[key] == cfg.angel(CandidatesFor(cfg, key.1), key.0)
  }

  /** ANGEL has been called once for each cached key and for nothing else. */
  ghost predicate CallsMatchCache(st: PipelineState) {
    (forall key :: key in st.cache <==> key in st.calls)
    && (forall i, j :: 0 <= i < j < |st.calls| ==> st.calls[i] != st.calls[j])
  }

  /**
   * The candidates are set for the entity type before the cache is
   * consulted; a hit returns the stored cui without calling ANGEL, a miss
   * calls ANGEL once and stores its answer. With a sound cache both give
   * ANGEL's answer, and the cache stays sound and matched by the calls.
   */
  lemma MeshIdOfSpec(cfg: Config, st: PipelineState, a: Annotation)
    ensures var (st', cui) := MeshIdOf(cfg, st, a);
      var key := CacheKey(a);
      st'.candidates == CandidatesFor(cfg, a.obj)
      && (key in st.cache ==> st'.cache == st.cache && st'.calls == st.calls && cui == st.cache[key].cui)
      && (key !in st.cache ==>
            st'.cache == st.cache[key := cfg.angel(CandidatesFor(cfg, a.obj), key.0)]
            && st'.calls == st.calls + [key]
            && cui == cfg.angel(CandidatesFor(cfg, a.obj), key.0).cui)
  {
  }

  /** With a sound cache, hit or miss, the cui is ANGEL's answer, and the cache stays sound. */
  lemma MeshIdOfSound(cfg: Config, st: PipelineState, a: Annotation)
    requires CacheSound(cfg, st)
    ensures CacheSound(cfg, MeshIdOf(cfg, st, a).0)
    ensures MeshIdOf(cfg, st, a).1 == cfg.angel(CandidatesFor(cfg, a.obj), Normalize(a.mention)).cui
  {
  }

  /** ANGEL is asked only about keys it was not asked before. */
  lemma MeshIdOfCallsOnce(cfg: Config, st: PipelineState, a: Annotation)
    requires CallsMatchCache(st)
    ensures CallsMatchCache(MeshIdOf(cfg, st, a).0)
  {
    var key := CacheKey(a);
    if key !in st.cache {
      var st' := MeshIdOf(cfg, st, a).0;
      assert forall i :: 0 <= i < |st.calls| ==> st'.calls[i] == st.calls[i];
    }
  }

  /**
   * What the loop makes of one annotation with a sound cache: the
   * annotation itself if it is not selected, and otherwise the annotation
   * typed by its line with ANGEL's cui for its normalised mention among the
   * candidates of its type appended as a "mesh:" id (None when the line
   * cannot be read).
   */
  function Expected(cfg: Config, text: String, a: Annotation): Option<Annotation> {
    if !Selected(a, cfg.mustNormalizeToMesh) then Some(a)
    else match TypedByLine(a, text, cfg.separator)
      case Failure(_) => None
      case Success(t) => Some(t.(ids := t.ids + ["mesh:" + cfg.angel(CandidatesFor(cfg, t.obj), Normalize(a.mention)).cui]))
  }

  /** `b` is what the loop makes of `a`. */
  predicate ProcessedWith(cfg: Config, text: String, a: Annotation, b: Annotation) {
    Expected(cfg, text, a) == Some(b)
  }

  /** Once the loop has stopped with an error, later annotations change nothing. */
  lemma {:induction false} PreprocessStops(cfg: Config, st: PipelineState, anns: seq<Annotation>, text: String, i: nat, n: nat)
    requires i <= n <= |anns| && PreprocessUpTo(cfg, st, anns, text, i).error.Some?
    ensures PreprocessUpTo(cfg, st, anns, text, n) == PreprocessUpTo(cfg, st, anns, text, i)
    decreases n
  {
    if i < n {
      PreprocessStops(cfg, st, anns, text, i, n - 1);
    }
  }

  /**
   * The loop processes a prefix of the annotations; it stops early only at
   * a selected annotation whose line cannot be read, and otherwise covers
   * every annotation.
   */
  lemma {:induction false} PreprocessCoverage(cfg: Config, st: PipelineState, anns: seq<Annotation>, text: String, n: nat)
    requires n <= |anns|
    ensures var o := PreprocessUpTo(cfg, st, anns, text, n);
      |o.done| <= n
      && (o.error.None? ==> |o.done| == n)
      && (o.error.Some? ==>
            |o.done| < n && Selected(anns[|o.done|], cfg.mustNormalizeToMesh)
            && TypedByLine(anns[|o.done|], text, cfg.separator) == Failure(o.error.value))
    decreases n
  {
    if n > 0 {
      PreprocessCoverage(cfg, st, anns, text, n - 1);
    }
  }

  /** One step from a sound cache keeps it sound and processes the annotation as `ProcessedWith` says. */
  lemma StepSound(cfg: Config, st: PipelineState, a: Annotation, text: String)
    requires CacheSound(cfg, st) && CallsMatchCache(st)
    ensures var r := Step(cfg, st, a, text);
      r.Success? ==> CacheSound(cfg, r.value.0) && CallsMatchCache(r.value.0) && ProcessedWith(cfg, text, a, r.value.1)
  {
    var t := TypedByLine(a, text, cfg.separator);
    if Selected(a, cfg.mustNormalizeToMesh) && t.Success? {
      assert t.value.mention == a.mention;
      MeshIdOfSound(cfg, st, t.value);
      MeshIdOfCallsOnce(cfg, st, t.value);
    }
  }

  /** The annotations done are the first annotations processed as `ProcessedWith` says. */
  ghost predicate AllProcessed(cfg: Config, text: String, anns: seq<Annotation>, done: seq<Annotation>) {
    |done| <= |anns| && forall i :: 0 <= i < |done| ==> ProcessedWith(cfg, text, anns[i], done[i])
  }

  lemma AllProcessedSnoc(cfg: Config, text: String, anns: seq<Annotation>, done: seq<Annotation>, b: Annotation)
    requires |done| < |anns| && AllProcessed(cfg, text, anns, done) && ProcessedWith(cfg, text, anns[|done|], b)
    ensures AllProcessed(cfg, text, anns, done + [b])
  {
    var done' := done + [b];
    forall i | 0 <= i < |done'| ensures ProcessedWith(cfg, text, anns[i], done'[i]) {
      if i < |done| {
        assert done'[i] == done[i];
      }
    }
  }

  /** The cache is sound and matched by the calls, and the first annotations are processed as `ProcessedWith` says. */
  ghost predicate SoundOutcome(cfg: Config, text: String, o: Outcome, anns: seq<Annotation>, n: nat) {
    CacheSound(cfg, o.st) && CallsMatchCache(o.st) && |o.done| <= n <= |anns|
    && (o.error.None? ==> |o.done| == n)
    && AllProcessed(cfg, text, anns, o.done)
  }

  /** One more annotation keeps the outcome sound. */
  lemma NextSound(cfg: Config, text: String, o: Outcome, anns: seq<Annotation>, n: nat)
    requires n < |anns| && SoundOutcome(cfg, text, o, anns, n)
    ensures SoundOutcome(cfg, text, Next(cfg, o, anns[n], text), anns, n + 1)
  {
    if o.error.None? {
      var r := Step(cfg, o.st, anns[n], text);
      StepSound(cfg, o.st, anns[n], text);
      if r.Success? {
        AllProcessedSnoc(cfg, text, anns, o.done, r.value.1);
        assert Next(cfg, o, anns[n], text) == Outcome(r.value.0, o.done + [r.value.1], None);
      }
    }
  }

  /**
   * From a sound cache, every processed annotation is unchanged or typed by
   * its line with exactly one "mesh:" id appended, ANGEL's cui for its
   * normalised mention among its type's candidates; the cache stays sound
   * and each call to ANGEL is for a key not asked before.
   */
  lemma {:induction false} PreprocessSound(cfg: Config, st: PipelineState, anns: seq<Annotation>, text: String, n: nat)
    requires n <= |anns| && CacheSound(cfg, st) && CallsMatchCache(st)
    ensures SoundOutcome(cfg, text, PreprocessUpTo(cfg, st, anns, text, n), anns, n)
    decreases n
  {
    if n > 0 {
      PreprocessSound(cfg, st, anns, text, n - 1);
      NextSound(cfg, text, PreprocessUpTo(cfg, st, anns, text, n - 1), anns, n - 1);
    }
  }

  /** A step taken or refused, as `Next` records it. */
  lemma NextOfStep(cfg: Config, st: PipelineState, done: seq<Annotation>, a: Annotation, text: String,
                   r: Result<Annotation, AnnotationError>, st': PipelineState)
    requires Step(cfg, st, a, text) == if r.Success? then Success((st', r.value)) else Failure(r.error)
    ensures r.Success? ==> Next(cfg, Outcome(st, done, None), a, text) == Outcome(st', done + [r.value], None)
    ensures r.Failure? ==> Next(cfg, Outcome(st, done, None), a, text) == Outcome(st, done, Some(r.error))
  {
  }

  /** One pass of the loop: the prefix grows by the processed annotation, or the loop stops with the error. */
  lemma LoopStep(cfg: Config, st0: PipelineState, a0: seq<Annotation>, text: String, i: nat,
                 before: PipelineState, done: seq<Annotation>, r: Result<Annotation, AnnotationError>, after: PipelineState)
    requires i < |a0| && PreprocessUpTo(cfg, st0, a0, text, i) == Outcome(before, done, None)
    requires Step(cfg, before, a0[i], text) == if r.Success? then Success((after, r.value)) else Failure(r.error)
    ensures r.Success? ==> PreprocessUpTo(cfg, st0, a0, text, i + 1) == Outcome(after, done + [r.value], None)
    ensures r.Failure? ==> Preprocess(cfg, st0, a0, text) == Outcome(before, done, Some(r.error))
  {
    NextOfStep(cfg, before, done, a0[i], text, r, after);
    if r.Failure? {
      PreprocessStops(cfg, st0, a0, text, i + 1, |a0|);
    }
  }

  /** The cell-type candidates: the terms of the lookup in the anatomy and neoplasm categories. */
  method CellTypeCandidatesOf(meshLookup: map<String, MeshEntry>) returns (cands: seq<String>)
    ensures forall t :: t in cands <==> t in meshLookup && IsTermInOneOfCategories(t, meshLookup, CellTypeCategories)
    ensures forall i, j :: 0 <= i < j < |cands| ==> cands[i] != cands[j]
  {
    cands := [];
    var remaining := meshLookup.Keys;
    while remaining != {}
      invariant remaining <= meshLookup.Keys
      invariant forall t :: t in cands ==> t !in remaining
      invariant forall t :: t in cands <==>
        t in meshLookup && t !in remaining && IsTermInOneOfCategories(t, meshLookup, CellTypeCategories)
      invariant forall i, j :: 0 <= i < j < |cands| ==> cands[i] != cands[j]
      decreases |remaining|
    {
      var t :| t in remaining;
      if IsTermInOneOfCategories(t, meshLookup, CellTypeCategories) {
        cands := cands + [t];
      }
      remaining := remaining - {t};
    }
  }

  /** `BERN2AngelPipeline`: ANGEL, its candidates, and the cache that persists across calls. */
  class Bern2AngelPipeline {
    const mustNormalizeToMesh: bool
    const cellTypeCandidates: seq<String>
    const allCandidates: seq<String>
    /** `self.angel.normalize_entity` under the candidate list in force. */
    const angel: (seq<String>, String) -> Normalization
    /** The separator of the characteristics lines. */
    const separator: String
    /** `self.angel.candidates`. */
    var candidates: seq<String>
    var angelCache: map<(String, String), Normalization>
    ghost var angelCalls: seq<(String, String)>

    function Cfg(): Config {
      Config(mustNormalizeToMesh, cellTypeCandidates, allCandidates, angel, separator)
    }

    ghost function State(): PipelineState
      reads this
    {
      PipelineState(candidates, angelCache, angelCalls)
    }

    /** The cache is sound and each of its keys cost one call to ANGEL. */
    ghost predicate Valid()
      reads this
    {
      CacheSound(Cfg(), State()) && CallsMatchCache(State())
    }

    /** `ANGELMeshNormalizer(mesh_lookup)` starts with `angelCandidates`, which become the full list. */
    constructor (meshLookup: map<String, MeshEntry>, angelCandidates: seq<String>,
                 angel: (seq<String>, String) -> Normalization, mustNormalizeToMesh: bool, separator: String)
      ensures Valid()
      ensures this.mustNormalizeToMesh == mustNormalizeToMesh && this.angel == angel && this.separator == separator
      ensures allCandidates == angelCandidates && candidates == angelCandidates
      ensures forall t :: t in cellTypeCandidates <==>
        t in meshLookup && IsTermInOneOfCategories(t, meshLookup, CellTypeCategories)
      ensures angelCache == map[] && angelCalls == []
    {
      this.mustNormalizeToMesh := mustNormalizeToMesh;
      this.angel := angel;
      this.separator := separator;
      var cellTypes := CellTypeCandidatesOf(meshLookup);
      cellTypeCandidates := cellTypes;
      allCandidates := angelCandidates;
      candidates := angelCandidates;
      angelCache := map[];
      angelCalls := [];
    }

    /** `set_angel_candidates(annotation)`. */
    method SetAngelCandidates(a: Annotation)
      modifies this
      ensures candidates == CandidatesFor(Cfg(), a.obj)
      ensures angelCache == old(angelCache) && angelCalls == old(angelCalls)
    {
      if a.obj in ["cell_type", "cell_line"] {
        candidates := cellTypeCandidates;
      } else {
        candidates := allCandidates;
      }
    }

    /** `normalize_to_mesh_id(annotation)`. */
    method NormalizeToMeshId(a: Annotation) returns (cui: String)
      modifies this
      ensures (State(), cui) == MeshIdOf(Cfg(), old(State()), a)
    {
      SetAngelCandidates(a);
      var mention := Normalize(a.mention);
      var key := (mention, a.obj);
      if key in angelCache {
        return angelCache[key].cui;
      }
      var normalization := angel(candidates, mention);
      angelCalls := angelCalls + [key];
      angelCache := angelCache[key := normalization];
      return normalization.cui;
    }

    /** `assign_entity_type_based_on_line(annotation, text)`. */
    method AssignEntityTypeBasedOnLine(a: Annotation, text: String) returns (r: Result<Annotation, AnnotationError>)
      ensures r == TypedByLine(a, text, separator)
    {
      var line := GetLineAtIndex(text, a.begin, separator);
      if line.Failure? {
        return Failure(SeparatorError);
      }
      if line.value.None? {
        return Failure(NoLineError);
      }
      if StartsWith(line.value.value, "cell type: ") {
        return Success(a.(obj := "cell_type"));
      } else if StartsWith(line.value.value, "cell line: ") {
        return Success(a.(obj := "cell_line"));
      }
      return Success(a);
    }

    /** One pass of the loop of `preprocess_annotations` on one annotation. */
    method PreprocessOne(a: Annotation, text: String) returns (r: Result<Annotation, AnnotationError>)
      modifies this
      ensures Step(Cfg(), old(State()), a, text) == if r.Success? then Success((State(), r.value)) else Failure(r.error)
      ensures r.Failure? ==> State() == old(State())
    {
      if !Selected(a, mustNormalizeToMesh) {
        return Success(a);
      }
      var typed := AssignEntityTypeBasedOnLine(a, text);
      if typed.Failure? {
        return Failure(typed.error);
      }
      var meshId := NormalizeToMeshId(typed.value);
      return Success(typed.value.(ids := typed.value.ids + ["mesh:" + meshId]));
    }

    /**
     * `preprocess_annotations(annotations, text)`: the annotations are
     * updated in place, in order; an error leaves the failing annotation and
     * those after it untouched.
     */
    method PreprocessAnnotations(anns: array<Annotation>, text: String) returns (err: Option<AnnotationError>)
      modifies this, anns
      ensures var o := Preprocess(Cfg(), old(State()), old(anns[..]), text);
        State() == o.st && err == o.error && |o.done| <= anns.Length
        && anns[..] == o.done + old(anns[..])[|o.done|..]
    {
      ghost var st0, a0 := State(), anns[..];
      var i := 0;
      while i < anns.Length
        invariant 0 <= i <= anns.Length
        invariant PreprocessUpTo(Cfg(), st0, a0, text, i) == Outcome(State(), anns[..i], None)
        invariant anns[i..] == a0[i..]
      {
        var a := anns[i];
        assert a == a0[i];
        ghost var before, done := State(), anns[..i];
        var r := PreprocessOne(a, text);
        LoopStep(Cfg(), st0, a0, text, i, before, done, r, State());
        if r.Failure? {
          assert anns[..] == anns[..i] + a0[i..];
          return Some(r.error);
        }
        StoreAt(anns, i, r.value);
        i := i + 1;
      }
      return None;
    }
  }

  /** `anns[i] = value`: the prefix grows by `value`, the rest stays. */
  method StoreAt(anns: array<Annotation>, i: nat, value: Annotation)
    requires i < anns.Length
    modifies anns
    ensures anns[..i + 1] == old(anns[..i]) + [value] && anns[i + 1..] == old(anns[i + 1..])
  {
    anns[i] := value;
    assert anns[..i + 1] == old(anns[..i]) + [value];
  }

  /**
   * A fresh pipeline's cache is sound, so preprocessing from it appends to
   * each selected annotation the cui ANGEL gives for its normalised mention
   * among the candidates of its entity type, leaving the others unchanged.
   */
  lemma FreshPipelineAnswers(cfg: Config, candidates: seq<String>, anns: seq<Annotation>, text: String)
    ensures var o := Preprocess(cfg, PipelineState(candidates, map[], []), anns, text);
      o.error.None? ==>
        |o.done| == |anns| && forall i :: 0 <= i < |anns| ==> ProcessedWith(cfg, text, anns[i], o.done[i])
  {
    PreprocessSound(cfg, PipelineState(candidates, map[], []), anns, text, |anns|);
  }
}

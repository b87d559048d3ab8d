# A verified model of the discrete core of pubmed-paper-exploration

pubmed-paper-exploration collects GEO dataset descriptions for a set of
PubMed papers. It clusters them by their text and names each cluster by its
top terms. It also parses and standardises the metadata of the samples
(age, gender, tissue, cell type, disease) against the MeSH vocabulary, and
serves the results in a sunburst view and a small web page. This project
models in Dafny the parts of that pipeline that are discrete and
sequential, and proves properties of each part:

- the cluster-label stabiliser, the automatic choice of the number of
  clusters, and the shape of the top-term lists (`Cluster`);
- the counting trie behind the sunburst view and its level-selective walks
  (`HierarchyCounter`), the row filters (`SunburstFilters`) and the column
  helpers of the sunburst server (`SunburstColumns`);
- the list-aware FIFO cache in front of the GEO downloads (`LruCache`);
- the small parsers and serialisers: age extraction (`AgeExtraction`),
  age keys and units (`AgeOfSample`), sample characteristics (`GeoSamples`) over the GEO metadata dictionary (`GeoMetadata`), the
  line at an index (`LineAtIndex`), the SOFT metadata filter
  (`SoftMetadata`), the gender normaliser (`Gender`), and the two GEO
  dataset records (`GeoDatasetModel`, `IngestionGeoDataset`);
- the MeSH lookup tables and category tests (`MeshVocabulary`,
  `AnatomyOrDisease`), the standardisation resources
  (`StandardizationResources`) and the term hierarchies (`TermHierarchy`);
- the entity-recognition and normalisation glue, with the recogniser, the
  normaliser and the ANGEL model as parameters: the NER/NEN pipeline
  (`NerNenPipeline`), per-sample standardisation (`StandardizeSample`), the
  two BERN2/ANGEL post-processors (`Bern2Angel`, `TissueBern2Angel`),
  synonym validation (`ValidateData`), the evaluation helpers
  (`Evaluation`), grouping accuracy (`GroupingAccuracy`) and the ANGEL
  dictionary utilities (`AngelUtils`);
- the PubMed-id list of the two web pages (`IndexPage`, `ScriptPage`),
  over a model of the JavaScript values they handle (`JsValues`).

Shared helpers: `Wrappers` (Option and Result), `Strings` (Python string
operations on ASCII text), `Scan` (hand-written scanners that replace the
regular expressions), `Seqs` (subsequences and set-loop bookkeeping) and
`PyDict` (insertion-ordered dictionaries as association lists). Every file
is a module of its own; all of them are verified together.

Python dictionaries whose order matters are association lists with distinct
keys. Dictionaries whose order depends on set iteration are Dafny maps.
Loops over Python sets pick an arbitrary remaining element, so every
iteration order is covered. Floating-point values are `real`. Code that
mutates state is modelled by classes and methods, and each method is proved
against a function that states what it computes.

## Model

| member | source | states |
|---|---|---|
| Cluster.SortClusterLabels | src/analysis/cluster.py:71-81 | the length is kept; two positions get the same new label exactly when they had the same old one; the new labels are exactly 0..k-1 for k distinct old labels; label sizes do not increase with the new label |
| Cluster.SizeOrder | src/analysis/cluster.py:77-78 | the distinct labels, each once, ordered by non-increasing cluster size (ties by the smaller label, one of the orders argsort may produce) |
| Cluster.RankAllRanked | src/analysis/cluster.py:78 | ranking distinct labels by size gives a size-ordered sequence without repetitions |
| Cluster.RelabelByValidOrder | src/analysis/cluster.py:77-81 | relabelling by any size-ranked order of the distinct labels keeps the partition, maps sizes across, and uses every rank: the properties hold whatever tie order argsort picks |
| Cluster.SortClusterLabelsExample | tests/test_cluster.py:8-9 | [2,2,2,0,0,1,0,1,2] becomes [0,0,0,1,1,2,1,2,0] |
| Cluster.SortClusterLabelsFixedPoint | tests/test_cluster.py:10-11 | [0,0,0,1,1,2] is left unchanged |
| Cluster.SortedLabelCount | src/analysis/cluster.py:71-81 | relabelling keeps the number of distinct labels |
| Cluster.ClusterStep | src/analysis/cluster.py:84-106 | a fit that raises ValueError becomes NotEnoughDatasetsError(k, n); a fit fails the silhouette score (ValueError, outside the try) exactly when it does not have between 2 and n-1 distinct labels; otherwise it is relabelled (same partition and length) and scored on the relabelled assignment |
| Cluster.AutoCluster | src/analysis/cluster.py:109-124 | the first failing k propagates its error; otherwise the result scores at least every tried k; the sentinel (None, -1, 0) comes back exactly when no score beats -1 (including an empty range); otherwise it is the clustering of the smallest k reaching the best score |
| Cluster.SliceLength | src/analysis/cluster.py:65 | the length of Python's `xs[:n]`, negative n included |
| Cluster.RankDescendingRanked | src/analysis/cluster.py:61 | the ranking of term indices is a permutation of 0..v-1 in non-increasing score order |
| Cluster.GetClustersTopTerms | src/analysis/cluster.py:37-68 | it fails exactly on an empty assignment (numpy max) or a maximum label below -1 (np.zeros with a negative dimension); otherwise there are max(assignments)+1 lists and list c holds the vocabulary entries of the first n_topic_words indices of a ranking of cluster c's scores, each index once and in non-increasing score order |
| Cluster.TopTermsOfSomeRanking | src/analysis/cluster.py:61-66 | the model's top-term list is the head of a ranking that lists every term index once by non-increasing score, as argsort's is |
| Cluster.TopTermsDistinct | src/analysis/cluster.py:61-66 | with a vocabulary free of repetitions no top-term list names a term twice |
| Cluster.TopTermsByScore | src/analysis/cluster.py:61-65 | a top-term list is in decreasing score order and every term left out scores no higher than every term listed |
| HierarchyCounter.Smallest | src/visualization/sunburst_server/hierarchical_data_counter.py:49-54 | the first element of the sorted levels: a requested level no larger than any other |
| HierarchyCounter.CountEmptyPrefix | src/visualization/sunburst_server/hierarchical_data_counter.py:25-79 | every hierarchy passes through the root, so the root's count is the number of hierarchies |
| HierarchyCounter.AllDescendantsExactlyOnce | src/visualization/sunburst_server/hierarchical_data_counter.py:35-44 | the pre-order walk below the root lists every other node of the trie, and each only once |
| HierarchyCounter.AtLevelsExactlyOnce | src/visualization/sunburst_server/hierarchical_data_counter.py:52-62 | the level walk lists exactly the non-root nodes whose depth is one of the requested levels, each once |
| HierarchyCounter.ExtensionsBounded | src/visualization/sunburst_server/hierarchical_data_counter.py:24-33 | the hierarchies counted below a path under distinct child names are at most those counted at the path |
| HierarchyCounter.PyList.Pop | src/visualization/sunburst_server/hierarchical_data_counter.py:28 | `list.pop()` returns the last element and removes it |
| HierarchyCounter.Counter.ToDict | src/visualization/sunburst_server/hierarchical_data_counter.py:64-70 | the row holds the node's id, name and value; only the root (id "") has no parent, every other row names its parent's id |
| HierarchyCounter.Counter.FindChild | src/visualization/sunburst_server/hierarchical_data_counter.py:29 | a found child is a child of the node with the wanted name; when none is found no child has that name |
| HierarchyCounter.Counter.TopCopy | src/visualization/sunburst_server/hierarchical_data_counter.py:14-56 | a copy of the node's row whose parent is the root id "" |
| HierarchyCounter.Counter.LevelRecord | src/visualization/sunburst_server/hierarchical_data_counter.py:54-59 | a node at the shallowest requested level contributes a root-level copy, any other listed node its own row |
| HierarchyCounter.Counter.GetAllDescendants | src/visualization/sunburst_server/hierarchical_data_counter.py:35-44 | the result is the pre-order walk of the trie; it holds every node but the root, and no node twice |
| HierarchyCounter.Counter.CollectBelow | src/visualization/sunburst_server/hierarchical_data_counter.py:38-44 | appends to the accumulator exactly the pre-order walk below the node |
| HierarchyCounter.Counter.GetDescendantsAtLevels | src/visualization/sunburst_server/hierarchical_data_counter.py:46-62 | a level below 1 or a repeated level fails the assertion; an empty level list fails with IndexError exactly when the root has children and gives [] otherwise; else the rows of the level walk, those at the shallowest level as root-level copies |
| HierarchyCounter.Counter.WalkLevels | src/visualization/sunburst_server/hierarchical_data_counter.py:52-62 | appends to the accumulator the rows of the level walk below the node |
| HierarchyCounter.Counter.WalkChild | src/visualization/sunburst_server/hierarchical_data_counter.py:53-60 | one loop pass extends the accumulated rows by the rows for one more child |
| HierarchyCounter.Counter.Here | src/visualization/sunburst_server/hierarchical_data_counter.py:54-59 | the row appended for a child: one row when its level is requested, none otherwise |
| HierarchyCounter.Counter.RootCountsAll | src/visualization/sunburst_server/hierarchical_data_counter.py:25-79 | after construction the root's value is the number of hierarchies |
| HierarchyCounter.Counter.ValueOfPath | src/visualization/sunburst_server/hierarchical_data_counter.py:24-33 | the node reached by a path counts exactly the hierarchies starting with that path; a path with no node starts none |
| HierarchyCounter.Counter.ChildNamesUnique | src/visualization/sunburst_server/hierarchical_data_counter.py:10-30 | no node has two children with the same name |
| HierarchyCounter.Counter.ValueBoundsChildren | src/visualization/sunburst_server/hierarchical_data_counter.py:24-33 | a node's value is at least the sum of its children's values (the sunburst's sectors fit inside their parent) |
| HierarchyCounter.Counter.constructor | src/visualization/sunburst_server/hierarchical_data_counter.py:73-79 | the trie is well formed and every node's value counts the given hierarchies that start with its path |
| HierarchyCounter.Counter.AddHierarchy | src/visualization/sunburst_server/hierarchical_data_counter.py:76-79 | adding one reversed hierarchy keeps the counting invariant with that hierarchy counted |
| HierarchyCounter.Counter.Add | src/visualization/sunburst_server/hierarchical_data_counter.py:24-33 | the root and each node along the hierarchy gain one, missing nodes are created, the list is emptied and the counting invariant holds for the hierarchy added |
| HierarchyCounter.Counter.AddAt | src/visualization/sunburst_server/hierarchical_data_counter.py:24-33 | the recursive step: every node along the rest of the hierarchy has been counted and exists |
| HierarchyCounter.Counter.Bump | src/visualization/sunburst_server/hierarchical_data_counter.py:25 | the node's value grows by one and nothing else changes |
| HierarchyCounter.Counter.Child | src/visualization/sunburst_server/hierarchical_data_counter.py:29-33 | the child reached has the hierarchy's next prefix as its path, created when absent |
| HierarchyCounter.Counter.NewChild | src/visualization/sunburst_server/hierarchical_data_counter.py:30 | a new node with value 0 is appended as the last child of its parent |
| HierarchyCounter.Counter.NewPathAbsent | src/visualization/sunburst_server/hierarchical_data_counter.py:29-30 | when no child has the name, the extended path has no node |
| LruCache.Uncached | src/ingestion/lru_cache_with_list_support.py:20 | exactly the ids not in the cache, in order; never more than the ids given |
| LruCache.UncachedAppend | src/ingestion/lru_cache_with_list_support.py:20 | the uncached ids keep order and repetitions: the filter distributes over concatenation |
| LruCache.Remove | src/ingestion/lru_cache_with_list_support.py:29-31 | the key order without the key; unchanged when the key is absent |
| LruCache.RemoveDistinct | src/ingestion/lru_cache_with_list_support.py:29-31 | removing a key keeps the key order free of repetitions and one shorter when the key was there |
| LruCache.PopOldest | src/ingestion/lru_cache_with_list_support.py:27 | `popitem(last=False)` drops the first key of the order and its entry |
| LruCache.Assign | src/ingestion/lru_cache_with_list_support.py:29-31 | storing a pair makes its id the last key and maps it to the new name |
| LruCache.Put | src/ingestion/lru_cache_with_list_support.py:26-31 | one pass of the loop raises exactly when the cache is full and empty (maxsize <= 0) |
| LruCache.FillStep | src/ingestion/lru_cache_with_list_support.py:25-31 | the zip loop stops when either list is used up and otherwise stores one pair and goes on |
| LruCache.Lookup | src/ingestion/lru_cache_with_list_support.py:33 | succeeds exactly when every id is cached, and gives the cached name of each id in order; otherwise KeyError |
| LruCache.PopOldestConsistent | src/ingestion/lru_cache_with_list_support.py:27 | eviction keeps the order and the entries in step and frees one place |
| LruCache.AssignConsistent | src/ingestion/lru_cache_with_list_support.py:29-31 | storing keeps the order and the entries in step, makes the id the newest, and takes a new place only for a new id |
| LruCache.PutWellFormed | src/ingestion/lru_cache_with_list_support.py:26-31 | storing a pair keeps the cache within maxsize and in step |
| LruCache.FillWellFormed | src/ingestion/lru_cache_with_list_support.py:25-31 | for maxsize >= 1 the cache never holds more than maxsize entries |
| LruCache.FillKeysFrom | src/ingestion/lru_cache_with_list_support.py:25 | after the loop every cached id was cached before or is one of the ids zip paired with an answer |
| LruCache.NoRoomRaises | src/ingestion/lru_cache_with_list_support.py:26-27 | with maxsize <= 0 storing the first pair raises |
| LruCache.EvictsOldest | src/ingestion/lru_cache_with_list_support.py:26-31 | a new id stored into a full cache evicts the oldest inserted entry: the order is FIFO |
| LruCache.ShortAnswerRaises | src/ingestion/lru_cache_with_list_support.py:25-33 | when func answers fewer ids than asked, an id left unanswered and not stored makes the lookup raise |
| LruCache.EvictedDuringCall | src/ingestion/lru_cache_with_list_support.py:25-33 | with maxsize 1 and two new ids, the first is evicted by the second within the same call, and the lookup raises KeyError |
| LruCache.AllCachedNoCall | src/ingestion/lru_cache_with_list_support.py:20-33 | when every id is cached there is nothing to ask func for and the lookup succeeds |
| LruCache.Cache.constructor | src/ingestion/lru_cache_with_list_support.py:5-16 | a fresh cache is empty |
| LruCache.Cache.Call | src/ingestion/lru_cache_with_list_support.py:19-33 | func is called once, on exactly the uncached ids in order with duplicates, and not at all when there are none; the new cache is the zip loop's result, and the answer the lookup of every id in it (KeyError when popitem or the lookup raises) |
| LruCache.Cache.StoreAll | src/ingestion/lru_cache_with_list_support.py:25-31 | the cache becomes the result of the zip loop, or the call reports that popitem raised |
| LruCache.Cache.PutPair | src/ingestion/lru_cache_with_list_support.py:26-31 | one pass: the cache becomes the result of storing the pair, or reports that popitem raised |
| LruCache.Cache.PopItem | src/ingestion/lru_cache_with_list_support.py:27 | drops the oldest entry |
| LruCache.Cache.Store | src/ingestion/lru_cache_with_list_support.py:29-31 | the pair is stored and its id moved to the end |
| LruCache.Cache.Clear | src/ingestion/lru_cache_with_list_support.py:35 | the cache is emptied |
| LruCache.Cache.GetCache | src/ingestion/lru_cache_with_list_support.py:37 | the stored pairs as a value of their own, with exactly the cached keys |
| LineAtIndex.GetLineAtIndex | src/utils/get_line_at_index.py:1-17 | an empty separator fails (Python's ValueError); otherwise the result is the loop's answer, and any line returned is one of the split pieces |
| LineAtIndex.LineFromIsALine | src/utils/get_line_at_index.py:12-16 | the answer, when there is one, is one of the split pieces |
| LineAtIndex.LineCoveringIndex | src/utils/get_line_at_index.py:14-17 | piece j is returned for every index from its start up to the end of the separator after it: an index inside a separator maps to the line before it |
| LineAtIndex.NegativeIndexFirstLine | src/utils/get_line_at_index.py:15-16 | a negative index gives the first line |
| LineAtIndex.NoLineWhenPastEnd | src/utils/get_line_at_index.py:14-17 | no line is returned exactly when the index is at or past the total length of the pieces, each with its separator |
| LineAtIndex.TotalOfJoin | src/utils/get_line_at_index.py:12-17 | the pieces, each followed by one separator, are as long as the text plus one separator |
| LineAtIndex.NoneExactlyPastText | src/utils/get_line_at_index.py:12-17 | None is returned exactly when index >= len(text) + len(separator) |
| LineAtIndex.SplitSample | src/utils/get_line_at_index.py:21 | "something ; another thing" splits on " ; " into "something" and "another thing" |
| LineAtIndex.SourceExamples | src/utils/get_line_at_index.py:21-24 | indices 0 and 8 give "something", 12 and 20 give "another thing" |
| AgeExtraction.NormalizeToYears | src/parsing/age/extract_age.py:8-19 | None exactly for a unit outside the four lists, compared in lower case |
| AgeExtraction.NormalizeScales | src/parsing/age/extract_age.py:10-18 | a known unit scales the value by 1, 1/12, 1/52 or 1/365 |
| AgeExtraction.NormalizeIgnoresCase | src/parsing/age/extract_age.py:10 | the unit's case does not matter |
| AgeExtraction.NormalizeMonotone | src/parsing/age/extract_age.py:11-18 | normalisation keeps the order of ages and keeps non-negative ages non-negative |
| AgeExtraction.CapturedUnitsHandled | src/parsing/age/extract_age.py:19-81 | every unit the two patterns can capture is known to `normalize_to_years` |
| AgeExtraction.ParseUnsigned | src/parsing/age/extract_age.py:126-131 | an accepted unsigned decimal is non-negative and holds a digit |
| AgeExtraction.ParseFloat | src/parsing/age/extract_age.py:126-131 | an accepted decimal literal holds a digit |
| AgeExtraction.NotNumberAtSpace | src/parsing/age/extract_age.py:126-131 | text with white space after its first character is no number |
| AgeExtraction.ParseFloatInteger | src/parsing/age/extract_age.py:37 | digits alone are the integer they spell |
| AgeExtraction.ParseFloatSign | src/parsing/age/extract_age.py:37 | a minus sign negates and a plus sign changes nothing |
| AgeExtraction.ParseFloatNonNegative | src/parsing/age/extract_age.py:37 | only a leading minus gives a negative number |
| AgeExtraction.RangeAt | src/parsing/age/extract_age.py:66-67 | a range match starts at a digit, has two non-negative bounds and any captured unit is one of the pattern's units |
| AgeExtraction.PlusAt | src/parsing/age/extract_age.py:95 | an `N+` match starts at a digit |
| AgeExtraction.SignedBoundAt | src/parsing/age/extract_age.py:107-119 | a `>N` or `<N` match starts with the sign followed by a digit |
| AgeExtraction.NumberUnitAt | src/parsing/age/extract_age.py:80-81 | a number-and-unit match starts at a digit, holds the number written there, non-negative, and a pattern unit |
| AgeExtraction.TryRange | src/parsing/age/extract_age.py:65-76 | None exactly when the range pattern matches nowhere; otherwise a non-negative range, normalised only when a unit was captured and normalize is set |
| AgeExtraction.TryPlus | src/parsing/age/extract_age.py:90-99 | None exactly when `N+` matches nowhere; otherwise the range from N to 130 |
| AgeExtraction.TryGreater | src/parsing/age/extract_age.py:102-111 | None exactly when `>N` matches nowhere; otherwise the range from N to 130 |
| AgeExtraction.TryLess | src/parsing/age/extract_age.py:114-123 | None exactly when `<N` matches nowhere; otherwise the range from 0 to N |
| AgeExtraction.TryNumberUnit | src/parsing/age/extract_age.py:79-87 | None exactly when number-and-unit matches nowhere; otherwise a non-negative value, in years when normalize is set and as written otherwise |
| AgeExtraction.ExtractAge | src/parsing/age/extract_age.py:22-37 | lower-cased, stripped text that is a number gives that number as a single value |
| AgeExtraction.ExtractAgeNone | src/parsing/age/extract_age.py:34-62 | None exactly when the prepared text is no number and no pattern matches anywhere |
| AgeExtraction.SingleValueFromNumberUnit | src/parsing/age/extract_age.py:39-60 | a single value from text that is no number comes from the last pattern, and none of the four earlier ones matched |
| AgeExtraction.PrepareClean | src/parsing/age/extract_age.py:34 | lower-casing and stripping leave clean text unchanged |
| AgeExtraction.NumberWithUnitAtStart | src/parsing/age/extract_age.py:58-87 | clean text opening with a number and a unit, and no range or bound sign, gives that number, in years when normalize is set |
| AgeExtraction.RangeAtStart | src/parsing/age/extract_age.py:39-76 | clean text opening with a range gives that range, normalised by its unit only when a unit was captured and normalize is set |
| AgeExtraction.PrepareIdempotent | src/parsing/age/extract_age.py:34 | preparing the text twice is preparing it once |
| AgeExtraction.ExtractAgeCanonical | src/parsing/age/extract_age.py:34 | extraction gives the same answer on its own prepared text |
| AgeExtraction.NoDigitNoAge | src/parsing/age/extract_age.py:32-62 | qualitative text, without a digit, gives None |
| AgeExtraction.AgesAreNonNegative | src/parsing/age/extract_age.py:36-62 | every age found is non-negative unless the text is a number with a leading minus |
| AgeExtraction.CleanAgeText | src/parsing/age/extract_age.py:34 | text of digits, lower-case letters, hyphens and inner spaces is clean |
| AgeExtraction.NumberThenWordMatch | src/parsing/age/extract_age.py:80-81 | digits, a space and a word opening with a unit match the number-and-unit pattern at the start, and are no number |
| AgeExtraction.IntegerUnitAt | src/parsing/age/extract_age.py:80-81 | an integer followed by white space and a unit matches with that integer and unit |
| AgeExtraction.NumberThenWord | src/parsing/age/extract_age.py:58-87 | "<digits> <word>" is the integer in the unit the word starts with, in years when normalize is set |
| AgeExtraction.RangeOfIntegersAt | src/parsing/age/extract_age.py:66-67 | two integers joined by a hyphen and followed by a space match the range pattern at the start |
| AgeExtraction.RangeTextMatch | src/parsing/age/extract_age.py:66-67 | "<digits>-<digits> <word>" matches the range pattern at the start and is no number |
| AgeExtraction.RangeThenWord | src/parsing/age/extract_age.py:39-76 | "<digits>-<digits> <word>" is the range, normalised by the unit the word starts with when there is one and normalize is set |
| AgeExtraction.PlainInteger | src/parsing/age/extract_age.py:36-37 | digits alone come back as their value, whatever normalize says |
| AgeExtraction.MonthWord | src/parsing/age/extract_age.py:67-81 | the pattern captures "month" from "months" |
| AgeExtraction.MonthsToYears | src/parsing/age/extract_age.py:13-14 | months are twelfths of a year |
| AgeExtraction.NumberInYears | src/parsing/age/extract_age.py:58-87 | digits followed by a unit word, normalised, give the number in that unit's years |
| AgeExtraction.EighteenMonths | src/parsing/age/extract_age.py:22-87 | "18 months" is 1.5 years |
| AgeExtraction.ThirteenToTwentyFive | src/parsing/age/extract_age.py:65-76 | "13-25 d" read without normalisation is the range 13 to 25 |
| AgeOfSample.AgeKeyMentionsAge | src/parsing/age/get_age.py:7-10 | an age key contains "age" and never "at" |
| AgeOfSample.KeyUnitAt | src/parsing/age/get_age.py:20-21 | a unit match starts at a space or underscore and captures one of the pattern's units |
| AgeOfSample.GetAgeUnit | src/parsing/age/get_age.py:13-24 | None exactly when the pattern matches nowhere; otherwise the unit of a match, one of the pattern's units |
| AgeOfSample.NoSeparatorNoUnit | src/parsing/age/get_age.py:20-21 | a key without space or underscore has no unit |
| AgeOfSample.AgeKeys | src/parsing/age/get_age.py:32 | exactly the age keys, in insertion order |
| AgeOfSample.AgeKeysHead | src/parsing/age/get_age.py:32-37 | the first key the filter keeps is the first age key |
| AgeOfSample.AgeFor | src/parsing/age/get_age.py:38-48 | the age fails (float(None) raises TypeError) exactly when the key has a unit and the value holds no age |
| AgeOfSample.NoAgeKeyNoAge | src/parsing/age/get_age.py:32-35 | without an age key the age is None |
| AgeOfSample.FirstAgeKeyUsed | src/parsing/age/get_age.py:32-40 | the age is read from the first age key in insertion order; later age keys are ignored |
| AgeOfSample.FirstPairFound | src/parsing/age/get_age.py:39 | looking a key up gives the value of its pair |
| AgeOfSample.UnitlessKeyNormalizes | src/parsing/age/get_age.py:40-43 | with no unit in the key the value is extracted with normalisation |
| AgeOfSample.KeyUnitAppliedToValue | src/parsing/age/get_age.py:40-48 | with a unit in the key the value is read as written and converted by the key's unit |
| AgeOfSample.KeyUnitAppliedToRange | src/parsing/age/get_age.py:40-46 | the key's unit converts both ends of a range |
| AgeOfSample.NoSeparatorBetween | src/parsing/age/get_age.py:20-21 | positions without a separator start no unit |
| AgeOfSample.FirstUnitAt | src/parsing/age/get_age.py:20-23 | the unit at the first position where one starts is the key's unit |
| AgeOfSample.UnitOfAgeYrs | tests/parsing/age/test_find_age_unit.py:9 | "age (yrs)" has the unit "yr" |
| AgeOfSample.UnitOfAgeDays | tests/parsing/age/test_find_age_unit.py:10 | "age_days" has the unit "day" |
| AgeOfSample.UnitOfDonorAge | tests/parsing/age/test_find_age_unit.py:11 | "donor_age" has no unit |
| AgeOfSample.UnitInitials | src/parsing/age/get_age.py:21 | every unit starts with y, m, w or d |
| AgeOfSample.NoUnitStartsWith | src/parsing/age/get_age.py:21 | no unit is read at a character no unit starts with |
| AgeOfSample.UnitOfAge | tests/parsing/age/test_find_age_unit.py:16 | "age" has no unit |
| AgeOfSample.AgeKeyExamples | src/parsing/age/get_age.py:7-10 | "donor_age" is an age key and "age at diagnosis" is not |
| AgeOfSample.AgeDaysKey | src/parsing/age/get_age.py:7-10 | "age_days" is an age key |
| AgeOfSample.KeyUnitPlainValue | src/parsing/age/get_age.py:38-48 | a sample whose one key carries a unit and whose value is an integer has that integer converted by the unit |
| AgeOfSample.DonorAgeEighteenMonths | tests/parsing/age/test_get_age.py:23-24 | "donor_age: 18 months" is 1.5 years |
| GeoMetadata.GetFirst | src/model/geo_sample.py:9-16 | `metadata.get(key)[0]`: a TypeError for a missing key, an IndexError for an empty list, the first entry otherwise |
| GeoMetadata.IndexFirst | src/model/geo_dataset.py:8 | `metadata[key][0]`: a KeyError for a missing key, an IndexError for an empty list, the first entry otherwise |
| GeoMetadata.GetOrDefault | src/model/geo_sample.py:12-15 | `metadata.get(key, default)`: the default exactly when the key is missing |
| GeoMetadata.GetFirstOrEmpty | src/model/geo_dataset.py:9-11 | `metadata.get(key, [""])[0]`: "" for a missing key, an IndexError only for a present empty list |
| GeoSamples.KeyValueSplit | src/model/geo_sample.py:28 | the split at the first ": " glues back to the entry and the name holds no separator |
| GeoSamples.Pairs | src/model/geo_sample.py:27-28 | one key/value pair per entry, in list order |
| GeoSamples.ParseCharacteristics | src/model/geo_sample.py:18-30 | the loop gives the dictionary the entries assign one after the other, or the first error |
| GeoSamples.ParseAllFails | src/model/geo_sample.py:27-29 | once a prefix of the entries fails, the whole list fails the same way |
| GeoSamples.WellFormedSnoc | src/model/geo_sample.py:27-28 | a list is well formed when its front and its last entry are |
| GeoSamples.PairsSnoc | src/model/geo_sample.py:27-29 | the pairs of a list are the pairs of its front and then of its last entry |
| GeoSamples.ParseAllPairs | src/model/geo_sample.py:27-29 | parsing succeeds exactly when every entry has ": ", and then assigns the pairs in order; otherwise ValueError |
| GeoSamples.CharacteristicsErrors | src/model/geo_sample.py:7-30 | a missing list is a TypeError, a list with an entry lacking ": " a ValueError, and otherwise the pairs assigned in order |
| GeoSamples.CharacteristicsLastWins | src/model/geo_sample.py:26-30 | names are distinct, each maps to the value of its last entry, and a name is present exactly when some entry has it |
| GeoSamples.LaterEntryOverwrites | src/model/geo_sample.py:29 | a later entry with the same name overwrites the earlier one |
| GeoSamples.FromMetadataFields | src/model/geo_sample.py:5-16 | a sample is built exactly when the characteristics parse and title, accession, organism and type have a first entry; missing optional text fields become "" and a missing data-processing list [] |
| GeoSamples.MissingCharacteristicsFirst | src/model/geo_sample.py:7-8 | a missing characteristics list is a TypeError before any other field is read |
| GeoSamples.EqualSamplesHashApart | src/model/geo_sample.py:32-36 | two samples with the same accession and different titles are equal yet hash differently as written |
| GeoSamples.EqualSamplesHashAlike | src/model/geo_sample.py:32-36 | a hash of the accession alone gives equal samples equal hashes |
| GeoDatasetModel.FromMetadataFields | src/model/geo_dataset.py:5-12 | the dataset is built exactly when accession, title and type have a first entry, the organisms are present and summary and design are absent or non-empty; absent ones become "" and absent PubMed ids [] |
| GeoDatasetModel.MissingTypeIsKeyError | src/model/geo_dataset.py:8 | a series without a type raises KeyError, not TypeError |
| GeoDatasetModel.StrAsJoin | src/model/geo_dataset.py:14-21 | the text is the five fields (three for a SuperSeries) joined by line breaks, the organisms comma-joined |
| GeoDatasetModel.StrLines | src/model/geo_dataset.py:14-16 | the text of an ordinary series splits back into title, type, summary, organisms and design |
| GeoDatasetModel.SuperSeriesLines | src/model/geo_dataset.py:17-34 | a SuperSeries' text has three lines: summary and overall design are left out |
| GeoDatasetModel.OrganismsLine | src/model/geo_dataset.py:16 | organism names without commas are recovered from their line |
| GeoDatasetModel.EqualIsEquivalence | src/model/geo_dataset.py:23-31 | equality is reflexive, symmetric and transitive |
| GeoDatasetModel.EqualUnderPermutation | src/model/geo_dataset.py:23-31 | reordering organisms or PubMed ids, or changing the id, keeps a dataset equal |
| GeoDatasetModel.EqualUnderDuplication | src/model/geo_dataset.py:28-30 | repeating an organism or a PubMed id keeps a dataset equal |
| GeoDatasetModel.EqualButDifferentText | src/model/geo_dataset.py:16-28 | equal datasets can give the clustering different texts, since the text keeps the organisms' order |
| IngestionGeoDataset.FromMetadataFields | src/ingestion/geo_dataset.py:7-15 | the dataset is built exactly when title and type have a first entry and summary and design are absent or non-empty; the organisms are the names of the listed taxonomy ids |
| IngestionGeoDataset.StrAsJoin | src/ingestion/geo_dataset.py:17-18 | the text is the five fields joined by line breaks, the organisms comma-joined |
| IngestionGeoDataset.StrLines | src/ingestion/geo_dataset.py:17-18 | the text always has five lines that split back into the fields, with no SuperSeries case |
| IngestionGeoDataset.EqualIsEquivalence | src/ingestion/geo_dataset.py:20-28 | equality is reflexive, symmetric and transitive |
| Gender.RawSex | src/parsing/gender/get_gender.py:11-12 | the "sex" value when it is a non-empty string, otherwise whatever "gender" holds |
| Gender.GetGender | src/parsing/gender/get_gender.py:4-20 | the answer is "male", "female" or None |
| Gender.GetGenderCases | src/parsing/gender/get_gender.py:13-20 | the stripped, lower-cased raw value "male" or "m" gives male, "female" or "f" female, and anything else, or no usable value, None |
| Gender.SexTakesPrecedence | src/parsing/gender/get_gender.py:11-12 | when "sex" is a non-empty string "gender" is never consulted |
| Gender.NoCharacteristicNoGender | src/parsing/gender/get_gender.py:13-14 | with neither characteristic a non-empty string there is no answer |
| SoftMetadata.MetadataLines | src/ingestion/soft_metadata_line_iterator.py:8-13 | never more lines than given, and every line yielded starts with "!Series" |
| SoftMetadata.PlatformIndex | src/ingestion/soft_metadata_line_iterator.py:9-10 | the position of the first "^PLATFORM" line, or the end when there is none |
| SoftMetadata.MetadataLinesBeforePlatform | src/ingestion/soft_metadata_line_iterator.py:8-13 | the lines yielded are exactly the "!Series" lines before the first "^PLATFORM" line, in order |
| SoftMetadata.MetadataLinesSubsequence | src/ingestion/soft_metadata_line_iterator.py:8-13 | the lines yielded are unchanged and in their input order |
| SoftMetadata.NoSeriesLineNothingYielded | src/ingestion/soft_metadata_line_iterator.py:11-12 | with no series line before the first platform line nothing is yielded |
| SoftMetadata.NothingAfterPlatform | src/ingestion/soft_metadata_line_iterator.py:9-10 | lines after a platform line never reach the output |
| MeshVocabulary.Synonyms | src/standardization/mesh_vocabulary.py:5-21 | a record without a descriptor name has no synonyms; otherwise its stripped, lower-cased name is one |
| MeshVocabulary.SynonymsNormalized | src/standardization/mesh_vocabulary.py:15-20 | every synonym is already stripped and lower case, and comes from a record with a descriptor name |
| MeshVocabulary.NonEmptyTexts | src/standardization/mesh_vocabulary.py:58-61 | the non-empty texts, in order: present exactly when one text is non-empty, the first of them first |
| MeshVocabulary.Summaries | src/standardization/mesh_vocabulary.py:56-66 | one summary (terms, tree numbers, ids) per record, in file order |
| MeshVocabulary.FirstIdIsFirstRecord | src/standardization/mesh_vocabulary.py:68-70 | a term is in the lookup exactly when some taking-part record adds it, and its id is the first id of the first such record |
| MeshVocabulary.TreeNumbersOfUnion | src/standardization/mesh_vocabulary.py:71 | a term's tree numbers are the union of those of every record that adds it |
| MeshVocabulary.ExpectedStep | src/standardization/mesh_vocabulary.py:56-71 | one more record changes only the entries of the terms it adds |
| MeshVocabulary.EntryUpdate | src/standardization/mesh_vocabulary.py:69-71 | a term of the record gets a fresh entry with the record's first id when new, and gains the record's tree numbers |
| MeshVocabulary.NoIdNoTreeNumbers | src/standardization/mesh_vocabulary.py:69-71 | a term no record added has no tree numbers |
| MeshVocabulary.LookupStep | src/standardization/mesh_vocabulary.py:69-71 | storing one term's updated entry advances that term to the next record |
| MeshVocabulary.BuildMeshLookup | src/standardization/mesh_vocabulary.py:35-75 | the lookup holds for each term exactly the entry given by the records: the first adding record's id and the union of the adding records' tree numbers; records lacking tree numbers or ids are skipped |
| MeshVocabulary.AddRecordTerms | src/standardization/mesh_vocabulary.py:68-71 | the inner loop, in any order of the term set, leaves every term's entry as the record adds it |
| MeshVocabulary.CategoriesIgnoreCase | src/standardization/mesh_vocabulary.py:100 | case and surrounding white space of the term do not matter |
| MeshVocabulary.CategoriesMonotone | src/standardization/mesh_vocabulary.py:111-116 | more category prefixes accept more terms; no prefixes accept none |
| MeshVocabulary.CategoriesOfBuiltLookup | src/standardization/mesh_vocabulary.py:85-116 | on the table built from the records, a term is in a category exactly when some record taking part lists it and has a tree number with one of the prefixes |
| AnatomyOrDisease.ExpectedSetIsUnion | src/tissue_parsing/is_mesh_term_in_anatomy_or_disease.py:43-55 | a term has an entry exactly when some record with tree numbers lists it, and the entry is the union of the tree numbers of all such records |
| AnatomyOrDisease.ExpectedSetStep | src/tissue_parsing/is_mesh_term_in_anatomy_or_disease.py:52-55 | one more record leaves the terms it does not list alone and adds its tree numbers to those it lists |
| AnatomyOrDisease.SetStep | src/tissue_parsing/is_mesh_term_in_anatomy_or_disease.py:53-55 | storing one term's grown set advances that term to the next record |
| AnatomyOrDisease.AddRecordTerms | src/tissue_parsing/is_mesh_term_in_anatomy_or_disease.py:52-55 | the inner loop, in any order of the synonym set, gives every synonym the record's tree numbers |
| AnatomyOrDisease.BuildMeshLookup | src/tissue_parsing/is_mesh_term_in_anatomy_or_disease.py:22-58 | the lookup maps each term to the union of the tree numbers of the records listing it; records without tree numbers are skipped |
| AnatomyOrDisease.EmptyEntryIsNeither | src/tissue_parsing/is_mesh_term_in_anatomy_or_disease.py:84-85 | a term whose entry is empty is neither anatomy nor disease |
| AnatomyOrDisease.AnatomyOrDiseaseOfBuiltLookup | src/tissue_parsing/is_mesh_term_in_anatomy_or_disease.py:68-95 | on the built table a term is anatomy or disease exactly when some record lists it with a tree number starting with "A" or "C" |
| StandardizationResources.ToMap | src/analysis/standardization_resources.py:8 | the dictionary holds for each key the entry of its pair |
| StandardizationResources.InCategories | src/analysis/standardization_resources.py:7-8 | exactly the pairs whose key passes the category test against the whole lookup, never more than given |
| StandardizationResources.InCategoriesSubsequence | src/analysis/standardization_resources.py:7-8 | the filter keeps distinct keys distinct |
| StandardizationResources.ConsDistinctKeys | src/analysis/standardization_resources.py:7-8 | a pair with a new key can go in front of distinct pairs |
| StandardizationResources.FilteredEntries | src/analysis/standardization_resources.py:6-10 | without a filter the lookup is kept; with one exactly the pairs passing the category test remain, keys still distinct |
| StandardizationResources.ReKeyedLastWins | src/analysis/standardization_resources.py:11-12 | a re-keyed table holds exactly the images of the keys, each with the entry of the last key mapped to it |
| StandardizationResources.ReKeyedKeys | src/analysis/standardization_resources.py:11-19 | the keys of a re-keyed table are exactly the images of the original keys |
| StandardizationResources.ReKeyedLast | src/analysis/standardization_resources.py:11-19 | the entry stored for an image is that of the last key mapped to it |
| StandardizationResources.NormalizedKeysLastWins | src/analysis/standardization_resources.py:11-12 | a normalised term is present exactly when some key normalises to it, holding the entry of the last such key |
| StandardizationResources.TermToId | src/analysis/standardization_resources.py:18-19 | the id table has the normalised terms as keys and maps each to the id of its entry |
| StandardizationResources.IdMapDomain | src/analysis/standardization_resources.py:13-16 | every id of the lookup gets a term, the normalised key of an item with that id |
| StandardizationResources.IdToTermDomain | src/analysis/standardization_resources.py:13-16 | an id is mapped exactly when an item has it, to the normalised key of such an item |
| StandardizationResources.ShortestWithIdKept | src/analysis/standardization_resources.py:15 | a shortest key for an id stays shortest when a longer or equal one with that id follows |
| StandardizationResources.ShortestWithIdLast | src/analysis/standardization_resources.py:15 | a key strictly shorter than all earlier keys with its id becomes the shortest |
| StandardizationResources.IdMapShortest | src/analysis/standardization_resources.py:13-16 | with keys already normalised, an id maps to its shortest key, the first of equally short ones |
| StandardizationResources.IdToTermShortest | src/analysis/standardization_resources.py:13-16 | on a lookup with normalised keys an id maps to its shortest term, the first of equally short ones |
| StandardizationResources.Absorb | src/analysis/standardization_resources.py:23-25 | one entry's tree numbers are all mapped afterwards, and no others are added |
| StandardizationResources.ShortestWithTreeNumberKept | src/analysis/standardization_resources.py:24 | a shortest term for a tree number stays shortest when a longer or equal one follows |
| StandardizationResources.ShortestWithTreeNumberLast | src/analysis/standardization_resources.py:24 | a term strictly shorter than all earlier terms with the tree number becomes the shortest |
| StandardizationResources.TreeNumberToTermShortest | src/analysis/standardization_resources.py:21-25 | a tree number is mapped exactly when some entry has it, to a shortest term with it, the first of equally short ones |
| StandardizationResources.AbsorbStep | src/analysis/standardization_resources.py:23-25 | absorbing one more tree number of the same term |
| StandardizationResources.AbsorbUpdate | src/analysis/standardization_resources.py:24-25 | one pass of the inner loop: the shorter term is kept for the tree number |
| StandardizationResources.BuildIdToTerm | src/analysis/standardization_resources.py:13-16 | the loop builds the id-to-term table |
| StandardizationResources.AbsorbTreeNumbers | src/analysis/standardization_resources.py:23-25 | the inner loop, in any order of the tree-number set, builds the same table |
| StandardizationResources.AbsorbNothing | src/analysis/standardization_resources.py:23 | no tree numbers change nothing |
| StandardizationResources.AbsorbOne | src/analysis/standardization_resources.py:24-25 | one pass of the inner loop |
| StandardizationResources.BuildTreeNumberToTerm | src/analysis/standardization_resources.py:21-25 | the loop builds the tree-number-to-term table |
| StandardizationResources.Resources.constructor | src/analysis/standardization_resources.py:5-25 | the five tables are the filtered lookup and the tables derived from it |
| TermHierarchy.HierarchyForExperimentType | src/analysis/get_term_hierarchy.py:3-4 | an experiment type always has at least one part |
| TermHierarchy.ExperimentTypeParts | src/analysis/get_term_hierarchy.py:3-4 | the parts join back with " by " to the experiment type, hold no " by ", and a type without " by " is a one-level hierarchy |
| TermHierarchy.FirstMatchFrom | src/analysis/get_term_hierarchy.py:16-19 | the first priority prefix from a position on that some tree number has; none earlier matches |
| TermHierarchy.GetTreeNumber | src/analysis/get_term_hierarchy.py:6-21 | an empty set raises StopIteration; otherwise one of the tree numbers, carrying the first priority prefix any of them has when there is one |
| TermHierarchy.Prefixes | src/analysis/get_term_hierarchy.py:34-35 | one joined prefix per part |
| TermHierarchy.Ancestors | src/analysis/get_term_hierarchy.py:32-35 | one ancestor per segment of the tree number |
| TermHierarchy.PrefixStarts | src/analysis/get_term_hierarchy.py:34-35 | each prefix starts the whole join, and the last is the whole join |
| TermHierarchy.PrefixAt | src/analysis/get_term_hierarchy.py:35 | prefix i joins the first i+1 parts |
| TermHierarchy.JoinStartsWithPrefix | src/analysis/get_term_hierarchy.py:35 | the join of the first k parts starts the join of all of them |
| TermHierarchy.PrefixLast | src/analysis/get_term_hierarchy.py:35 | the last prefix is the whole join |
| TermHierarchy.PrefixNext | src/analysis/get_term_hierarchy.py:34-35 | the next prefix extends the previous one by the separator and one part |
| TermHierarchy.AncestorsShape | src/analysis/get_term_hierarchy.py:31-35 | each ancestor starts the tree number, the next extends it by one segment, and the last is the tree number |
| TermHierarchy.Hierarchy | src/analysis/get_term_hierarchy.py:36 | the only failure is a KeyError |
| TermHierarchy.HierarchyEntries | src/analysis/get_term_hierarchy.py:32-38 | the hierarchy exists exactly when every ancestor has a term; it then has one entry per segment, entry i the term of the first i+1 segments, the last the term of the tree number itself |
| TermHierarchy.AncestorTerms | src/analysis/get_term_hierarchy.py:32-38 | the loop builds the hierarchy along the ancestors, or fails with KeyError |
| TermHierarchy.GetHierarchy | src/analysis/get_term_hierarchy.py:23-38 | None for no term; the experiment-type split for a term outside the lookup; otherwise the hierarchy along a prioritised tree number of the term's entry |
| SunburstFilters.Passes | src/visualization/sunburst_server/contains_name_at_level_filter.py:8-9 | for a level of at least 1, a hierarchy passes exactly when it is long enough and names the filter's name at that level |
| SunburstFilters.Named | src/visualization/sunburst_server/contains_name_at_level_filter.py:13 | the hierarchies naming the name at the level, in order; none exactly when no hierarchy of the list does |
| SunburstFilters.Expected | src/visualization/sunburst_server/contains_name_at_level_filter.py:7-14 | never more rows than given, and no kept list is empty |
| SunburstFilters.AnyPassesSpec | src/visualization/sunburst_server/contains_name_at_level_filter.py:10 | the row test is true exactly when some hierarchy of the row passes |
| SunburstFilters.PassingOnesSpec | src/visualization/sunburst_server/contains_name_at_level_filter.py:13 | the cut list is exactly the row's passing hierarchies |
| SunburstFilters.KeptAndCut | src/visualization/sunburst_server/contains_name_at_level_filter.py:11-13 | selecting and then cutting the rows never fails and gives the expected rows |
| SunburstFilters.ContainsNameAtLevelSpec | src/visualization/sunburst_server/contains_name_at_level_filter.py:7-14 | for a level of at least 1 the filter keeps, in order, the rows with a hierarchy naming the name at the level, each cut to exactly those hierarchies |
| SunburstFilters.ExpectedRows | src/visualization/sunburst_server/contains_name_at_level_filter.py:11-13 | a list is kept exactly when it is the named hierarchies of a row that passes |
| SunburstFilters.LevelZeroReadsLast | src/visualization/sunburst_server/contains_name_at_level_filter.py:8-9 | level 0 compares the last entry, as Python's negative index does, and fails (IndexError) on an empty hierarchy |
| SunburstFilters.ValueInCell | src/visualization/sunburst_server/value_in_cell_filter.py:6-11 | never more rows than given |
| SunburstFilters.ValueInCellSpec | src/visualization/sunburst_server/value_in_cell_filter.py:6-11 | no values keep every row; otherwise a row stays exactly when its cell holds one of the values; order is kept and nothing is added |
| SunburstFilters.FilterEqualIgnoresOrder | src/visualization/sunburst_server/value_in_cell_filter.py:13-15 | equality is an equivalence and ignores the order and repetition of the values |
| SunburstFilters.EqualFiltersKeepSameRows | src/visualization/sunburst_server/value_in_cell_filter.py:6-15 | equal filters keep the same rows |
| SunburstFilters.HashAsWritten | src/visualization/sunburst_server/value_in_cell_filter.py:17-18 | hashing a filter as written always fails |
| SunburstFilters.FiltersCannotBeHashed | src/visualization/sunburst_server/value_in_cell_filter.py:17-18 | every filter's hash raises (the attribute `value` does not exist) |
| SunburstFilters.EqualFiltersHashAlike | src/visualization/sunburst_server/value_in_cell_filter.py:13-18 | a hash of the column and the value set gives equal filters equal hashes |
| SunburstColumns.RemoveOnlySuffix | src/visualization/sunburst_server/main.py:28-29 | removing "_hierarchy" that occurs only at the end cuts it off |
| SunburstColumns.TitleLower | src/visualization/sunburst_server/main.py:31-36 | lower-casing first does not change title case |
| SunburstColumns.ColumnNameRoundTrip | src/visualization/sunburst_server/main.py:27-38 | a lower-case column without spaces whose only "_hierarchy" is its suffix comes back from its entity name |
| SunburstColumns.SpacedLowerCase | src/visualization/sunburst_server/main.py:30 | replacing underscores by spaces keeps lower-case text lower case |
| SunburstColumns.MapCharBack | src/visualization/sunburst_server/main.py:30-37 | mapping a character to another that was absent, and back, restores the text |
| SunburstColumns.EntityNameRoundTrip | src/visualization/sunburst_server/main.py:27-38 | a title-cased entity without underscores, whose column has a single "_hierarchy", comes back from its column name |
| SunburstColumns.LowerKeepsNoUnderscore | src/visualization/sunburst_server/main.py:36 | lower-casing brings in no underscore |
| SunburstColumns.FlattenMembers | src/visualization/sunburst_server/main.py:56-57 | the flattened list holds exactly the elements of the sublists, and its length is the sum of theirs |
| SunburstColumns.FlattenAppend | src/visualization/sunburst_server/main.py:56-57 | flattening distributes over concatenation |
| SunburstColumns.FlattenUnique | src/visualization/sunburst_server/main.py:60-61 | every element of the sublists exactly once, in some order |
| SunburstColumns.IsNested | src/visualization/sunburst_server/main.py:64-65 | fails (IndexError) exactly on an empty list; otherwise whether the first element is a list |
| GroupingAccuracy.MostCommon | src/tissue_parsing/grouping_accuracy.py:2-3 | an empty list has no answer (max of an empty set raises ValueError); otherwise an element occurring at least as often as every other, ties broken in an unspecified set order |
| GroupingAccuracy.LabelsOfMembers | src/tissue_parsing/grouping_accuracy.py:6-8 | a label is listed for a group exactly when some position of the group has it |
| GroupingAccuracy.LabelsOfEmpty | src/tissue_parsing/grouping_accuracy.py:6-8 | a group has labels exactly when it occurs |
| GroupingAccuracy.GroupedStep | src/tissue_parsing/grouping_accuracy.py:8 | one position appends its label to its group's list |
| GroupingAccuracy.GroupLabels | src/tissue_parsing/grouping_accuracy.py:6-8 | each group occurring maps to the labels of its positions in order, and no other key is present |
| GroupingAccuracy.NoElementsIsEmpty | src/tissue_parsing/grouping_accuracy.py:11 | a set of integers without elements is empty |
| GroupingAccuracy.Least | src/tissue_parsing/grouping_accuracy.py:11 | the least element of a non-empty set |
| GroupingAccuracy.SortedGroups | src/tissue_parsing/grouping_accuracy.py:11 | the distinct groups in increasing order |
| GroupingAccuracy.ClaimsFromFirst | src/tissue_parsing/grouping_accuracy.py:10-14 | a label is claimed exactly when some group picked it, and then by the first group that did |
| GroupingAccuracy.Predicted | src/tissue_parsing/grouping_accuracy.py:16 | one prediction per label |
| GroupingAccuracy.MatchesBound | src/tissue_parsing/grouping_accuracy.py:17 | at most every position agrees, and all do exactly when the sequences are equal |
| GroupingAccuracy.AccuracyRange | src/tissue_parsing/grouping_accuracy.py:17 | on a non-empty input the accuracy lies in [0, 1] and is 1 exactly when every prediction is right |
| GroupingAccuracy.ClaimStep | src/tissue_parsing/grouping_accuracy.py:13-14 | a group picking a label claims it unless it is claimed already |
| GroupingAccuracy.PicksStep | src/tissue_parsing/grouping_accuracy.py:11-12 | one more group with a most common pick keeps the picks valid |
| GroupingAccuracy.GroupHasLabels | src/tissue_parsing/grouping_accuracy.py:11-12 | each group visited has a non-empty label list, so `most_common` does not raise |
| GroupingAccuracy.GroupingAccuracyOf | src/tissue_parsing/grouping_accuracy.py:5-17 | inputs of different lengths are an error; otherwise the accuracy of the predictions made by the claims of the ascending groups, each with a most common label of its own |
| GroupingAccuracy.PerfectGrouping | src/tissue_parsing/grouping_accuracy.py:5-25 | when labels and groups determine each other every position is predicted right and the accuracy is 1 |
| GroupingAccuracy.SingleLabel | src/tissue_parsing/grouping_accuracy.py:5-28 | with one label everywhere the least group claims it and every position predicts that group |
| NerNenPipeline.CuiAndOntologySwapped | src/tissue_and_cell_type_standardization/ner_nen_pipeline.py:6-31 | as written, whenever the normaliser's cui differs from its ontology, the result's cui field holds the ontology and its ontology field the cui |
| NerNenPipeline.ResultFields | src/tissue_and_cell_type_standardization/ner_nen_pipeline.py:23-31 | mention and class come from the entity; a normalised entity carries the normaliser's name, ontology, cui and score; an unmapped one has none of them and score -1 |
| NerNenPipeline.ResultForUnswaps | src/tissue_and_cell_type_standardization/ner_nen_pipeline.py:6-31 | the corrected result is the as-written one with ontology and cui trading places |
| NerNenPipeline.Results | src/tissue_and_cell_type_standardization/ner_nen_pipeline.py:19-34 | one result per recognised entity, built as the code builds it (ontology and cui swapped) |
| NerNenPipeline.ResultsSnoc | src/tissue_and_cell_type_standardization/ner_nen_pipeline.py:22-32 | one more entity appends its result at the end |
| NerNenPipeline.Mentions | src/tissue_and_cell_type_standardization/ner_nen_pipeline.py:23 | one mention per result |
| NerNenPipeline.ResultsCorrected | src/tissue_and_cell_type_standardization/ner_nen_pipeline.py:6-34 | one result per entity, and a normalised entity's result holds the normaliser's ontology and cui each in its own field |
| NerNenPipeline.ResultsUnswap | src/tissue_and_cell_type_standardization/ner_nen_pipeline.py:6-34 | every corrected result is the pipeline's result with ontology and cui trading places |
| NerNenPipeline.ResultsFollowEntities | src/tissue_and_cell_type_standardization/ner_nen_pipeline.py:19-34 | the results name the entities' mentions and classes in the order the recogniser found them |
| NerNenPipeline.Run | src/tissue_and_cell_type_standardization/ner_nen_pipeline.py:13-34 | the loop returns the as-written result (cui and ontology passed in swapped positions) for every recognised entity, normalised on its mention, in order |
| StandardizeSample.FieldToDict | src/parsing/standardize_sample.py:17-23 | a field gives four entries |
| StandardizeSample.SuffixesDistinct | src/parsing/standardize_sample.py:19-22 | keys of one field with different suffixes differ |
| StandardizeSample.FieldDictShape | src/parsing/standardize_sample.py:17-23 | a field's dictionary has four distinct keys, each the field name and one suffix, holding the matching value |
| StandardizeSample.DistinctGet | src/parsing/standardize_sample.py:36 | in a dictionary with distinct keys each entry is what its key gets |
| StandardizeSample.SampleToDict | src/parsing/standardize_sample.py:31-37 | the loop builds the header followed by every field's entries in order |
| StandardizeSample.SuffixedKeyNotHeader | src/parsing/standardize_sample.py:19-34 | a field column is never "id" or "source_name" |
| StandardizeSample.FieldPairsKeys | src/parsing/standardize_sample.py:35-36 | the fields' entries are exactly the field-name-and-suffix columns |
| StandardizeSample.LastValueAppend | src/parsing/standardize_sample.py:36 | after an update a key holds the update's value when the update has the key, the old one otherwise |
| StandardizeSample.FieldPairsMissHeader | src/parsing/standardize_sample.py:33-36 | no field column overwrites "id" or "source_name" |
| StandardizeSample.SampleDictHeader | src/parsing/standardize_sample.py:31-37 | the sample's dictionary has distinct keys and keeps its id and source name |
| StandardizeSample.SampleDictKeys | src/parsing/standardize_sample.py:31-37 | the sample's dictionary has a column exactly for "id", "source_name" and each field name with a suffix |
| StandardizeSample.FirstOfClassSpec | src/parsing/standardize_sample.py:40-50 | there is a first annotation of the class exactly when some annotation has the class, compared in lower case, and none before it has |
| StandardizeSample.ParsedFieldSpec | src/parsing/standardize_sample.py:48-55 | the field keeps the first annotation's mention and standard name (none without one) and the characteristic of its name with the normaliser's standard name; an unmapped characteristic fails |
| StandardizeSample.AgeFieldSpec | src/parsing/standardize_sample.py:39-46 | an age mention is extracted only when it is not empty; the characteristic age comes from `get_age`, whose failure propagates |
| StandardizeSample.ParsedSampleOfFields | src/parsing/standardize_sample.py:57-67 | with a source name, parsing reads the four fields from the annotations of that name |
| StandardizeSample.ParseSample | src/parsing/standardize_sample.py:57-67 | the source name is annotated once and the four fields are appended in order |
| StandardizeSample.FieldsFail | src/parsing/standardize_sample.py:62-65 | the fields fail exactly on a malformed age or an unmapped tissue, cell type or disease characteristic |
| StandardizeSample.ParseSampleFail | src/parsing/standardize_sample.py:57-67 | parsing fails exactly on an empty source-name list, a malformed age or a characteristic the normaliser cannot map |
| StandardizeSample.ParseSampleShape | src/parsing/standardize_sample.py:57-67 | a parsed sample has the accession, the first source name ("" when absent) and the four fields in order, disease read from "healthy or disease" annotations |
| Bern2Angel.TypedByLineSpec | src/standardization/bern2_angel_pipeline.py:62-68 | an empty separator and an index with no line are errors; otherwise only the entity type changes, to "cell_type" or "cell_line" exactly when the line starts with "cell type: " or "cell line: " |
| Bern2Angel.MeshIdOfSpec | src/standardization/bern2_angel_pipeline.py:31-60 | the candidates are set for the entity type first; a cache hit returns the stored cui without calling ANGEL, a miss calls ANGEL once on the stripped, lower-cased mention and stores the answer |
| Bern2Angel.MeshIdOfSound | src/standardization/bern2_angel_pipeline.py:37-47 | with a sound cache, hit or miss, the cui is ANGEL's answer for the mention among the type's candidates, and the cache stays sound |
| Bern2Angel.MeshIdOfCallsOnce | src/standardization/bern2_angel_pipeline.py:42-46 | ANGEL is only asked about keys it was not asked before |
| Bern2Angel.PreprocessStops | src/standardization/bern2_angel_pipeline.py:23-27 | once the loop has stopped with an error, later annotations change nothing |
| Bern2Angel.PreprocessCoverage | src/standardization/bern2_angel_pipeline.py:23-29 | the loop processes a prefix of the annotations and stops early only at a selected annotation whose line cannot be read |
| Bern2Angel.StepSound | src/standardization/bern2_angel_pipeline.py:24-27 | one step from a sound cache keeps it sound and leaves an unselected annotation alone or types a selected one by its line with ANGEL's cui appended |
| Bern2Angel.AllProcessedSnoc | src/standardization/bern2_angel_pipeline.py:23-27 | one more processed annotation extends the processed prefix |
| Bern2Angel.NextSound | src/standardization/bern2_angel_pipeline.py:23-27 | one more annotation keeps the outcome sound |
| Bern2Angel.PreprocessSound | src/standardization/bern2_angel_pipeline.py:22-47 | from a sound cache every processed annotation is unchanged or typed by its line with exactly one "mesh:" id appended, ANGEL's cui for its normalised mention; the cache stays sound and each ANGEL call is for a new key |
| Bern2Angel.NextOfStep | src/standardization/bern2_angel_pipeline.py:23-27 | a step taken appends the annotation; a step refused stops the loop with its error |
| Bern2Angel.LoopStep | src/standardization/bern2_angel_pipeline.py:23-27 | one pass grows the processed prefix, or stops the whole loop with the error |
| Bern2Angel.CellTypeCandidatesOf | src/standardization/bern2_angel_pipeline.py:18-19 | the candidates are exactly the terms of the lookup in the anatomy or neoplasm categories, each once |
| Bern2Angel.Bern2AngelPipeline.constructor | src/standardization/bern2_angel_pipeline.py:11-20 | the cache is empty, ANGEL has not been called, the candidates are the full list and the cell-type candidates those of the categories |
| Bern2Angel.Bern2AngelPipeline.SetAngelCandidates | src/standardization/bern2_angel_pipeline.py:49-60 | cell types and cell lines get the cell-type candidates, every other type the full list; the cache is untouched |
| Bern2Angel.Bern2AngelPipeline.NormalizeToMeshId | src/standardization/bern2_angel_pipeline.py:31-47 | the new state and the cui are those of the cached lookup |
| Bern2Angel.Bern2AngelPipeline.AssignEntityTypeBasedOnLine | src/standardization/bern2_angel_pipeline.py:62-68 | the annotation typed by its line, or the error |
| Bern2Angel.Bern2AngelPipeline.PreprocessOne | src/standardization/bern2_angel_pipeline.py:24-27 | one pass of the loop; an error leaves the state unchanged |
| Bern2Angel.Bern2AngelPipeline.PreprocessAnnotations | src/standardization/bern2_angel_pipeline.py:22-29 | the annotations are updated in place, in order; an error leaves the failing annotation and those after it untouched |
| Bern2Angel.StoreAt | src/standardization/bern2_angel_pipeline.py:25-27 | storing at one index extends the processed prefix and leaves the rest of the array |
| Bern2Angel.FreshPipelineAnswers | src/standardization/bern2_angel_pipeline.py:11-29 | from a fresh pipeline every selected annotation gets the cui ANGEL gives for its normalised mention among its type's candidates, and the others stay unchanged |
| TissueBern2Angel.TissueStepSpec | src/tissue_and_cell_type_standardization/bern2_angel_pipeline.py:18-29 | an annotation is selected when its ids hold "CUI-less" or, when normalisation to MeSH is required, none starts with "mesh:"; a selected one gets "mesh:" and the cached cui on a hit, or ANGEL's cui on a miss, which is then cached; an unselected one and the cache stay |
| TissueBern2Angel.TissueStepSound | src/tissue_and_cell_type_standardization/bern2_angel_pipeline.py:18-29 | from a sound cache one step gives the uncached answer and keeps the cache sound and matched with the calls |
| TissueBern2Angel.AllExpectedSnoc | src/tissue_and_cell_type_standardization/bern2_angel_pipeline.py:17-29 | one more expected annotation extends the expected prefix |
| TissueBern2Angel.TissuePreprocessSound | src/tissue_and_cell_type_standardization/bern2_angel_pipeline.py:16-30 | from a sound cache every processed annotation is what the uncached pipeline makes of it, and ANGEL is asked about each normalised mention at most once |
| TissueBern2Angel.TissueLoopStep | src/tissue_and_cell_type_standardization/bern2_angel_pipeline.py:17-29 | one pass of the loop extends the processed prefix by the step's annotation |
| TissueBern2Angel.TissueBern2AngelPipeline.constructor | src/tissue_and_cell_type_standardization/bern2_angel_pipeline.py:8-14 | ANGEL and the flag are those given; the cache is empty and ANGEL has not been called |
| TissueBern2Angel.TissueBern2AngelPipeline.PreprocessOne | src/tissue_and_cell_type_standardization/bern2_angel_pipeline.py:18-29 | the new state and annotation are those of one step |
| TissueBern2Angel.TissueBern2AngelPipeline.PreprocessAnnotations | src/tissue_and_cell_type_standardization/bern2_angel_pipeline.py:16-30 | the annotations are updated in place, in order, as the loop over the whole list makes them |
| TissueBern2Angel.TissueFreshPipelineAnswers | src/tissue_and_cell_type_standardization/bern2_angel_pipeline.py:8-30 | from a fresh pipeline each selected annotation gets exactly "mesh:" and ANGEL's cui for its normalised mention appended, and the others stay |
| ValidateData.IsSynonymValid | src/training_data_gathering/validate_data.py:4-9 | the two placeholders are valid; any other synonym is valid exactly when its stripped, lower-cased form is a key of the lookup and the category test accepts it |
| ValidateData.ValidSynonymIsKnown | src/training_data_gathering/validate_data.py:4-9 | a valid synonym is a placeholder or a key of the lookup after normalisation |
| ValidateData.PlaceholderMatchIsExact | src/training_data_gathering/validate_data.py:5-6 | the placeholders are compared exactly: "Unknown" is not valid against an empty lookup |
| Evaluation.TermId | src/standardization/evaluation.py:48-49 | the id of the stripped, lower-cased term when the map has it, else the term as given |
| Evaluation.AreTermsSame | src/standardization/evaluation.py:47-50 | two terms are the same exactly when their ids agree |
| Evaluation.AreTermsSameEquivalence | src/tissue_and_cell_type_standardization/evaluation.py:46-49 | the comparison is reflexive, symmetric and transitive |
| Evaluation.AreTermsSameCases | src/standardization/evaluation.py:47-50 | two known terms are the same exactly when their mapped ids agree; two unknown terms only when they are equal as given |
| Evaluation.UnknownTermsCompareRaw | src/standardization/evaluation.py:48-49 | the fallback is the raw term: "Heart" and "heart" differ against an empty map |
| Evaluation.RawPrediction | src/standardization/evaluation.py:69-72 | a non-empty answer is kept; an empty answer, no answer or a ValueError becomes "UNPARSED" |
| Evaluation.IdOrSelf | src/standardization/evaluation.py:75-76 | a key of the map gets its id, anything else keeps itself |
| Evaluation.Predictions | src/standardization/evaluation.py:65-74 | one prediction per term |
| Evaluation.Ids | src/standardization/evaluation.py:75-76 | one id per name |
| Evaluation.Predict | src/standardization/evaluation.py:65-77 | the loop's predictions and ids are those of the specification functions |
| Evaluation.UnparsedIsLowercased | src/standardization/evaluation.py:74 | "UNPARSED" becomes "unparsed" |
| Evaluation.PredictionsSpec | src/tissue_and_cell_type_standardization/evaluation.py:64-75 | one prediction per term in order: a non-empty answer stripped and lower-cased, otherwise "unparsed"; its id is the mapped id when present, else the prediction |
| Evaluation.TrueIdsLookedUpRaw | src/standardization/evaluation.py:82-83 | true synonyms are looked up without stripping or lower-casing |
| Evaluation.ReportId | src/standardization/evaluation.py:25-27 | the id shown in a report falls back to the stripped, lower-cased term |
| Evaluation.Zip3 | src/standardization/evaluation.py:29-36 | zip of three lists stops at the shortest and pairs elements by index |
| Evaluation.PredictionRows | src/standardization/evaluation.py:21-29 | one report row per triple |
| Evaluation.Filter | src/standardization/evaluation.py:35-36 | a filtered list is no longer than its input |
| Evaluation.FilterSpec | src/standardization/evaluation.py:35-36 | an element is kept exactly when it occurs and is accepted, in the original order |
| Evaluation.FilterEmpty | src/standardization/evaluation.py:35-38 | nothing is kept exactly when nothing is accepted |
| Evaluation.Errors | src/standardization/evaluation.py:35-36 | the error list is no longer than the triples |
| Evaluation.ErrorsSpec | src/tissue_and_cell_type_standardization/evaluation.py:34-42 | a triple is an error exactly when it occurs and its prediction is not the same as its true synonym; the errors keep their order |
| Evaluation.NoErrorsIffAllSame | src/standardization/evaluation.py:38-40 | there are no errors exactly when every prediction is the same as its true synonym |
| Evaluation.ExportErrors | src/standardization/evaluation.py:34-43 | nothing is written exactly when there are no errors; otherwise one row per error |
| Evaluation.ErrorRowCanShowEqualIds | src/tissue_and_cell_type_standardization/evaluation.py:24-48 | a wrong prediction that differs only in case from an unknown true synonym is reported with equal ids for both |
| AngelUtils.NamesOf | src/ANGEL/utils.py:28-35 | a list value lists its names, a single value its one name |
| AngelUtils.Repeat | src/ANGEL/utils.py:29-33 | a cui repeated c times is c long |
| AngelUtils.RecordLookup | src/ANGEL/utils.py:30-33 | recording a name appends the cui to that name's cuis and leaves every other name alone; no entry becomes empty |
| AngelUtils.RepeatMembership | src/ANGEL/utils.py:29-33 | only the cui itself occurs in its repetitions, and only when there is at least one |
| AngelUtils.CountPositive | src/ANGEL/utils.py:29 | a list names x at least once exactly when x occurs in it |
| AngelUtils.RecordNamesLookup | src/ANGEL/utils.py:29-33 | the names of one cui's list add that cui to each name once per time the list names it |
| AngelUtils.RepeatOneMore | src/ANGEL/utils.py:31 | appending one more cui extends the repetition by one |
| AngelUtils.RecordNamesNoEmpty | src/ANGEL/utils.py:29-33 | recording names never leaves an entry empty |
| AngelUtils.InvertLookup | src/ANGEL/utils.py:26-40 | after any number of entries, a name's cuis are those of the reference in iteration order, and no entry is empty |
| AngelUtils.CuisOfMembership | src/ANGEL/utils.py:27-40 | a cui is among a name's reference cuis exactly when one of its entries lists the name |
| AngelUtils.InvertOrder | src/ANGEL/utils.py:26-40 | a name has an entry exactly when some cui lists it; its cuis follow the iteration order, once per listing |
| AngelUtils.InvertMembership | src/ANGEL/utils.py:26-40 | a cui is recorded under a name exactly when some entry of that cui is the name or a list containing it |
| AngelUtils.InvertMembershipByKey | src/ANGEL/utils.py:26-40 | with distinct keys, a cui is recorded under a name exactly when its value is the name or a list containing it |
| AngelUtils.LoadDictionary | src/ANGEL/utils.py:15-43 | cui2str is returned unchanged, with the inversion the nested loop builds |
| AngelUtils.RecordName | src/ANGEL/utils.py:30-40 | the name's list gets the cui appended, or is started with it; other names are untouched |
| AngelUtils.ConvertSetsToLists | src/ANGEL/utils.py:61-69 | sets become lists of their members, lists keep their length, dicts their keys, scalars stay |
| AngelUtils.ConvertLeavesNoSets | src/ANGEL/utils.py:61-69 | the result holds no set at any depth |
| AngelUtils.ConvertWithoutSets | src/ANGEL/utils.py:61-69 | a value without sets comes back unchanged |
| AngelUtils.ConvertIdempotent | src/ANGEL/utils.py:61-69 | converting twice is converting once |
| AngelUtils.ConvertSetListsMembers | src/ANGEL/utils.py:62-63 | a set becomes a list of exactly its members, as many as the set has |
| AngelUtils.DistinctCard | src/ANGEL/utils.py:63 | a list of distinct elements has as many elements as the set it lists |
| AngelUtils.ContainsLacks | src/ANGEL/utils.py:57 | a character missing from a string is missing from its pieces |
| AngelUtils.LabelsLackSeparators | src/ANGEL/utils.py:57 | no cui of a label line holds "\|" or "+" |
| AngelUtils.StripNewline | src/ANGEL/utils.py:57 | stripping newlines from a line with the newline appended gives the line back |
| AngelUtils.LabelLineRoundTrip | src/ANGEL/utils.py:53-59 | a line of cuis joined by "\|" reads back as the set of those cuis |
| AngelUtils.LabelLinePieces | src/ANGEL/utils.py:71-78 | a line without "+" reads as the set of its "\|"-separated pieces |
| AngelUtils.MapCharAbsent | src/ANGEL/utils.py:57 | replacing a character that does not occur changes nothing |
| IndexPage.ParsePubmedIds | src/app/static/index.js:18-34 | blank text is the failing branch; otherwise parsed ids are exactly Number of each piece of the trimmed text, none of them NaN |
| IndexPage.ParsingErrorNamesFirstInvalid | src/app/static/index.js:29-31 | the reported bad data is the trimmed first piece that Number rejects |
| IndexPage.ParseAcceptsNumbers | src/app/static/index.js:26-33 | text whose pieces are all numbers parses to one number per piece |
| IndexPage.ParsedAreNumbers | src/app/static/index.js:27-33 | the parser returns numbers only |
| IndexPage.RemovedOnceOnlyNumbers | src/app/static/index.js:60-66 | removing an id keeps the list free of NaN and null |
| IndexPage.AddedOnlyNumbers | src/app/static/index.js:36-38 | adding parsed ids keeps the list free of NaN and null |
| IndexPage.IdList.constructor | src/app/static/index.js:8 | the list starts empty |
| IndexPage.IdList.AddPubmedIds | src/app/static/index.js:36-40 | the ids not yet listed are appended, in order |
| IndexPage.IdList.OnClickAddPubmedIds | src/app/static/index.js:42-58 | blank input shows the empty-input message and changes nothing; an invalid id shows its message and changes nothing; otherwise the unlisted ids are appended and the list stays free of NaN and null |
| IndexPage.IdList.RemoveItemOnce | src/app/static/index.js:60-66 | the first strictly equal element is spliced out |
| IndexPage.IdList.DeletePubmedId | src/app/static/index.js:68-73 | the id loses its first occurrence and the list stays free of NaN and null |
| IndexPage.IdList.DeleteAllIds | src/app/static/index.js:161-165 | the list is emptied |
| IndexPage.IdList.SubmitPubmedIds | src/app/static/index.js:135-150 | submission is refused exactly when the list is empty, and otherwise sends the list |
| JsValues.JsSplit | src/app/static/index.js:26 | with a non-empty separator, the pieces between separators; with an empty one, single characters |
| JsValues.NumberOf | src/app/static/index.js:27 | Number never gives null |
| JsValues.NumberOfDigit | src/app/static/index.js:27 | Number of one digit is its value |
| JsValues.NumberOfLetter | src/app/static/index.js:27-29 | Number of one letter is NaN |
| JsValues.Numbers | src/app/static/index.js:27 | one Number per piece, in order |
| JsValues.FindNaN | src/app/static/index.js:29 | -1 exactly when there is no NaN, else the first NaN's index |
| JsValues.IndexOf | src/app/static/index.js:61 | -1 exactly when no element is strictly equal, else the first such index |
| JsValues.RemovedOnceSpec | src/app/static/index.js:60-66 | a value strictly equal to an element loses its first occurrence and nothing else; otherwise the array is unchanged |
| JsValues.NotListedSpec | src/app/static/index.js:37 | the filter keeps exactly the unlisted ids, in order, each as often as the batch has it |
| JsValues.AppendNotListedDistinct | src/app/static/index.js:36-38 | a distinct list stays distinct after adding a distinct batch |
| JsValues.DistinctCount | src/app/static/index.js:37-38 | a distinct sequence holds each value at most once |
| JsValues.CountOnce | src/app/static/index.js:37-38 | a value held at most once is not at two positions |
| ScriptPage.ParsePubmedIdsAsWritten | src/app/static/script.js:9-29 | blank text shows the empty-input message; accepted ids are the numbers of the pieces not yet listed, none NaN; the message for an invalid id takes the piece at the filtered index |
| ScriptPage.MapTo | src/app/static/script.js:20 | one value per piece, in order |
| ScriptPage.UnlistedPieces | src/app/static/script.js:21 | the surviving pieces are no more than the pieces |
| ScriptPage.UnlistedPiecesNumbers | src/app/static/script.js:20-21 | the surviving pieces are exactly the pieces of the surviving numbers |
| ScriptPage.NumbersMap | src/app/static/script.js:20 | Number over the pieces is the map of Number |
| ScriptPage.ParsePubmedIds | src/app/static/script.js:9-29 | as the parser as written, with the invalid piece taken from the pieces that survive the filter |
| ScriptPage.ParseNamesInvalidPiece | src/app/static/script.js:23-26 | the corrected message names a piece of the input that Number rejects |
| ScriptPage.ParsersAgree | src/app/static/script.js:19-28 | both parsers accept the same inputs and return the same ids |
| ScriptPage.TwoPieces | src/app/static/script.js:13-19 | two unpadded comma-free pieces joined by a comma split back into those pieces |
| ScriptPage.ListedThenInvalid | src/app/static/script.js:21-25 | a listed id followed by an invalid one is reported as the listed id as written, as the invalid one when corrected |
| ScriptPage.AsWrittenNamesWrongPiece | src/app/static/script.js:21-25 | as written, a listed valid id before an invalid piece is named in the message instead of the invalid piece |
| ScriptPage.WrongPieceInstance | src/app/static/script.js:21-25 | with 1 listed, "1,x" is reported as "1 is not a valid PubMedId." |
| ScriptPage.ParsedIdsAreNew | src/app/static/script.js:21 | accepted ids are never already listed |
| ScriptPage.IdList.constructor | src/app/static/script.js:1 | the list starts empty |
| ScriptPage.IdList.OnAddPubmedIds | src/app/static/script.js:31-39 | with `parsePubmedIds` as written, accepted ids are appended; a rejected input shows its message (naming the piece at the filtered index), appends null and then throws; the list never gains NaN |
| ScriptPage.IdList.RemoveItemOnce | src/app/static/script.js:41-47 | the first strictly equal element is spliced out |
| ScriptPage.IdList.DeletePubmedId | src/app/static/script.js:49-54 | the id loses its first occurrence and the list never gains NaN |

## Left out

- Numerics: the TF-IDF vectors, TruncatedSVD, k-means, the silhouette score, t-SNE and the cosine/log1p term scores of src/analysis/cluster.py are parameters of `Cluster` (the clustering function, the silhouette score, the term scores); floating point is modelled by `real`, with no rounding.
- Cluster.SortClusterLabels: argsort does not fix the order of equally large clusters; the model breaks ties by the smaller label (`SizeOrder`) and proves the other properties for every valid order.
- Cluster.RankDescending and Cluster.GetClustersTopTerms: `argsort()[:, ::-1]` leaves the order of equal scores open; the model fixes one order (among equal scores the larger index comes first), and `TopOfSomeRanking` states only that the lists it returns are the head of some valid ranking, not that every valid ranking gives the same terms.
- Default arguments: `maxsize=128` of `lru_cache_with_list_support` and `separator="\n"` of `get_line_at_index` are not modelled as defaults; `maxsize` and `separator` are explicit parameters of `LruCache` and `LineAtIndex`, so a caller relying on a default passes 128 or "\n".
- Python set and dict iteration where the language leaves it open (`list(set(...))` in `convert_sets_to_lists`, the prefixes sets of `get_term_hierarchy`, `set(lst)` in `most_common`, the tree-number sets of the MeSH lookups) is a parameter or an arbitrary order; the built MeSH lookups are Dafny maps, since their key order comes from those sets.
- Dictionaries whose order is observable (sample characteristics, the id-to-cui dictionary of ANGEL, parsed sample dicts, the MeSH lookup items of the standardisation resources) are association lists in insertion order (`PyDict`).
- Strings are sequences of characters; `lower`, `title`, `strip` and the white space classes know ASCII only, with no Unicode case folding.
- JsValues.NumberOf: JavaScript `Number()` is restricted to decimal literals with an optional sign and point, with blank text giving 0; hexadecimal, exponents and "Infinity" are not accepted.
- AgeExtraction.ParseFloat: Python `float()` and `is_number` are restricted to decimal literals with an optional sign; "nan", "inf" and exponents are not accepted.
- The regular expressions of extract_age.py and get_age.py are replaced by hand-written scanners (`Scan`) for the patterns those files use.
- I/O: reading files (JSON, pickle, CSV, the MeSH XML, the SOFT files), writing the CSV reports of the evaluation, printing, logging and the progress bars are not modelled; the loaded values are parameters and the report rows are returned.
- `export_dataset` and the sklearn scores (F1, precision, recall) of both evaluation.py files are not modelled: they only write a file or call library code.
- GroupingAccuracy.GroupingAccuracyOf: `accuracy_score` is the fraction of agreeing positions; unequal lengths are one error, although Python fails with a KeyError or a ValueError depending on which list is longer; the empty input has no fraction (None).
- The recogniser, the normaliser, spaCy, gilda, BERN2, fastText and the ANGEL model are functions given to the model; the superclass `BERN2Pipeline` of both BERN2/ANGEL pipelines is not part of this model, so only the methods the subclasses define are modelled, and the MeSH-id-to-term map built for it is not.
- Bern2Angel and TissueBern2Angel: annotations are values stored in an array that is updated in place; their `id` lists shared with other objects (aliasing) are not modelled.
- The uuid identifiers of the hierarchy counter's nodes are modelled as distinct values `Uuid(i)` for the node index `i`.
- `metadata_line_iterator` is a generator; it is modelled as a function over the whole sequence of lines, so laziness is not modelled.
- pandas DataFrames are modelled as sequences of rows, and a DataFrame copy as a new sequence; index labels are not modelled.
- The truthiness test on MeSH entries in mesh_vocabulary.py is modelled by the presence of the entry.
- src/app/static/index.js: the table, the toasts, the form, `onFileUpload` and `addIdToTable` are DOM code and are not modelled; the list operations return the message the page displays. The blank-input branch of `parsePubmedIds` refers to an `errorElement` that is not in scope, so it throws a ReferenceError, which is modelled as an outcome of its own.
- src/app/static/script.js: after a rejected input `onAddPumbedIds` concatenates `null` and then throws a TypeError on `ids.map`; the model appends `Null` and reports `threw`.
- The taxonomy lookup of the ingestion GEO dataset record is a parameter (`scientificNames`); src/geo_dataset.py is not part of this model.
- Rate limiting, threads, asyncio, HTTP clients, the Flask app, the Bokeh plots and the module-level code of the sunburst server are not modelled.

## Findings

| source | as written | input that shows it | evidently intended | confidence | as-written member | corrected member |
|---|---|---|---|---|---|---|
| src/model/geo_sample.py:32-36 | `__eq__` compares accessions only but `__hash__` hashes accession + title | two samples with accession "GSM1" and titles "a" and "bb" are equal but hash apart | equal samples hash alike (hash of the accession) | not executed | GeoSamples.EqualSamplesHashApart | GeoSamples.EqualSamplesHashAlike |
| src/visualization/sunburst_server/value_in_cell_filter.py:17-18 | `__hash__` reads `self.value`, which does not exist, and returns nothing | any filter | a hash of the column and the set of values, so equal filters hash alike | not executed | SunburstFilters.FiltersCannotBeHashed | SunburstFilters.EqualFiltersHashAlike |
| src/tissue_and_cell_type_standardization/ner_nen_pipeline.py:6-31 | the result is built with `cui` in the position of the field `ontology` and `ontology` in that of `cui` | a normalisation whose cui differs from its ontology | each field holds its own value | not executed | NerNenPipeline.CuiAndOntologySwapped | NerNenPipeline.ResultsCorrected |
| src/app/static/script.js:21-25 | the index of the first NaN among the unlisted numbers picks a piece of the unfiltered split | with 1 listed, the input "1,x" is reported as "1 is not a valid PubMedId." | the message names the invalid piece | not executed | ScriptPage.AsWrittenNamesWrongPiece | ScriptPage.ParseNamesInvalidPiece |

`NerNenPipeline.Run` and `NerNenPipeline.Results`, and with them `StandardizeSample`, build the results as the code does; `StandardizeSample` reads only the mention, the entity class and the standard name, which the swap does not touch.

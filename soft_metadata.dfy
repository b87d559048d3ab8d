/**
 * `metadata_line_iterator` (src/ingestion/soft_metadata_line_iterator.py):
 * the series metadata lines at the head of a SOFT file, which stop at the
 * first platform section.
 */
module SoftMetadata {
  import opened Strings
  import opened Seqs

  const PlatformMarker: String := "^PLATFORM"
  const SeriesMarker: String := "!Series"

  /** The lines the generator yields, in order. */
  function MetadataLines(lines: seq<String>): (r: seq<String>)
    ensures |r| <= |lines|
    ensures forall l :: l in r ==> StartsWith(l, SeriesMarker)
    decreases |lines|
  {
    if |lines| == 0 || StartsWith(lines[0], PlatformMarker) then []
    else if StartsWith(lines[0], SeriesMarker) then [lines[0]] + MetadataLines(lines[1..])
    else MetadataLines(lines[1..])
  }

  /** The index of the first platform line, or the length when there is none. */
  function PlatformIndex(lines: seq<String>): (r: nat)
    ensures r <= |lines|
    ensures forall k :: 0 <= k < r ==> !StartsWith(lines[k], PlatformMarker)
    ensures r < |lines| ==> StartsWith(lines[r], PlatformMarker)
    decreases |lines|
  {
    if |lines| == 0 || StartsWith(lines[0], PlatformMarker) then 0
    else 1 + PlatformIndex(lines[1..])
  }

  /** The lines of `lines` that start with the series marker, in order. */
  function SeriesLines(lines: seq<String>): seq<String>
    decreases |lines|
  {
    if |lines| == 0 then []
    else (if StartsWith(lines[0], SeriesMarker) then [lines[0]] else []) + SeriesLines(lines[1..])
  }

  /** The output is the series lines of the part before the first platform line. */
  lemma {:induction false} MetadataLinesBeforePlatform(lines: seq<String>)
    ensures MetadataLines(lines) == SeriesLines(lines[..PlatformIndex(lines)])
    decreases |lines|
  {
    if |lines| > 0 && !StartsWith(lines[0], PlatformMarker) {
      MetadataLinesBeforePlatform(lines[1..]);
      var p := PlatformIndex(lines);
      assert lines[..p][1..] == lines[1..][..p - 1];
    }
  }

  /** The output keeps the lines unchanged and in their input order. */
  lemma {:induction false} MetadataLinesSubsequence(lines: seq<String>)
    ensures IsSubsequence(MetadataLines(lines), lines)
    decreases |lines|
  {
    if |lines| > 0 {
      MetadataLinesSubsequence(lines[1..]);
      if !StartsWith(lines[0], PlatformMarker) && StartsWith(lines[0], SeriesMarker) {
        assert ([lines[0]] + MetadataLines(lines[1..]))[1..] == MetadataLines(lines[1..]);
      }
    }
  }

  /** A stream with no series line before its first platform line yields nothing. */
  lemma {:induction false} NoSeriesLineNothingYielded(lines: seq<String>)
    requires forall k :: 0 <= k < PlatformIndex(lines) ==> !StartsWith(lines[k], SeriesMarker)
    ensures MetadataLines(lines) == []
    decreases |lines|
  {
    if |lines| > 0 && !StartsWith(lines[0], PlatformMarker) {
      assert !StartsWith(lines[0], SeriesMarker);
      NoSeriesLineNothingYielded(lines[1..]);
    }
  }

  /** Lines after a platform line never reach the output. */
  lemma {:induction false} NothingAfterPlatform(front: seq<String>, platform: String, back: seq<String>)
    requires StartsWith(platform, PlatformMarker)
    ensures MetadataLines(front + [platform] + back) == MetadataLines(front + [platform])
    decreases |front|
  {
    if |front| > 0 {
      assert (front + [platform] + back)[1..] == front[1..] + [platform] + back;
      assert (front + [platform])[1..] == front[1..] + [platform];
      NothingAfterPlatform(front[1..], platform, back);
    } else {
      assert (front + [platform] + back)[0] == platform;
      assert (front + [platform])[0] == platform;
    }
  }
}

/**
 * GEO metadata as GEOparse hands it over: a dictionary from field names to
 * lists of strings, read with `metadata.get(key)[0]`, `metadata[key][0]`
 * or `metadata.get(key, default)`.
 */
module GeoMetadata {
  import opened Wrappers
  import opened Strings
  import opened PyDict

  type Metadata = Dict<String, seq<String>>

  /** The Python exceptions that reading a field can raise. */
  datatype MetaError =
    | KeyError    // `metadata[key]` on a missing key
    | TypeError   // `None[0]`: `metadata.get(key)` on a missing key, then indexed
    | IndexError  // `[][0]`: the field is present with an empty list
    | ValueError  // a malformed value (a characteristic without ": ")

  /** `metadata.get(key)[0]`. */
  function GetFirst(m: Metadata, key: String): (r: Result<String, MetaError>)
    ensures r.Failure? ==> r.error == (if Get(m, key).None? then TypeError else IndexError)
    ensures r.Success? <==> Get(m, key).Some? && |Get(m, key).value| > 0
    ensures r.Success? ==> r.value == Get(m, key).value[0]
  {
    match Get(m, key)
    case None => Failure(TypeError)
    case Some(vs) => if |vs| == 0 then Failure(IndexError) else Success(vs[0])
  }

  /** `metadata[key][0]`. */
  function IndexFirst(m: Metadata, key: String): (r: Result<String, MetaError>)
    ensures r.Failure? ==> r.error == (if Get(m, key).None? then KeyError else IndexError)
    ensures r.Success? <==> Get(m, key).Some? && |Get(m, key).value| > 0
    ensures r.Success? ==> r.value == Get(m, key).value[0]
  {
    match Get(m, key)
    case None => Failure(KeyError)
    case Some(vs) => if |vs| == 0 then Failure(IndexError) else Success(vs[0])
  }

  /** `metadata.get(key, default)`. */
  function GetOrDefault(m: Metadata, key: String, default: seq<String>): (r: seq<String>)
    ensures Get(m, key).None? ==> r == default
    ensures Get(m, key).Some? ==> r == Get(m, key).value
  {
    match Get(m, key)
    case None => default
    case Some(vs) => vs
  }

  /** `metadata.get(key, [""])[0]`: the empty string when absent. */
  function GetFirstOrEmpty(m: Metadata, key: String): (r: Result<String, MetaError>)
    ensures Get(m, key).None? ==> r == Success("")
    ensures r.Failure? <==> Get(m, key).Some? && |Get(m, key).value| == 0
    ensures r.Failure? ==> r.error == IndexError
  {
    var vs := GetOrDefault(m, key, [""]);
    if |vs| == 0 then Failure(IndexError) else Success(vs[0])
  }
}

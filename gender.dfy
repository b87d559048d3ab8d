/**
 * `get_gender` (src/parsing/gender/get_gender.py): the sex of the organism
 * a sample comes from, read from the "sex" or "gender" characteristic.
 */
module Gender {
  import opened Wrappers
  import opened Strings
  import opened PyDict
  import GeoSamples

  /** `characteristics.get(key)` taken as a Python truth value: absent and "" are both falsy. */
  predicate Truthy(v: Option<String>) {
    v.Some? && v.value != ""
  }

  /** `characteristics.get("sex") or characteristics.get("gender")`. */
  function RawSex(c: Dict<String, String>): (r: Option<String>)
    ensures Truthy(Get(c, "sex")) ==> r == Get(c, "sex")
    ensures !Truthy(Get(c, "sex")) ==> r == Get(c, "gender")
  {
    var sex := Get(c, "sex");
    if Truthy(sex) then sex else Get(c, "gender")
  }

  /** `get_gender(geo_sample)`: "male", "female" or None. */
  function GetGender(sample: GeoSamples.Sample): (r: Option<String>)
    ensures r == None || r == Some("male") || r == Some("female")
  {
    var sex := RawSex(sample.characteristics);
    if !Truthy(sex) then None
    else
      var v := Normalize(sex.value);
      if v == "male" || v == "m" then Some("male")
      else if v == "female" || v == "f" then Some("female")
      else None
  }

  /**
   * The result is decided by the normalised raw value only: "male"/"m" give
   * male, "female"/"f" give female, and anything else, or no usable
   * characteristic, gives None.
   */
  lemma GetGenderCases(sample: GeoSamples.Sample)
    ensures var sex := RawSex(sample.characteristics);
      (GetGender(sample) == Some("male") <==> Truthy(sex) && Normalize(sex.value) in ["male", "m"])
      && (GetGender(sample) == Some("female") <==> Truthy(sex) && Normalize(sex.value) in ["female", "f"])
      && (GetGender(sample).None? <==> !Truthy(sex) || Normalize(sex.value) !in ["male", "m", "female", "f"])
  {
  }

  /** "gender" is consulted only when "sex" is absent or empty. */
  lemma SexTakesPrecedence(sample: GeoSamples.Sample, sample': GeoSamples.Sample)
    requires Truthy(Get(sample.characteristics, "sex"))
    requires Get(sample'.characteristics, "sex") == Get(sample.characteristics, "sex")
    ensures GetGender(sample') == GetGender(sample)
  {
  }

  /** With neither characteristic set to a non-empty string there is no answer. */
  lemma NoCharacteristicNoGender(sample: GeoSamples.Sample)
    requires !Truthy(Get(sample.characteristics, "sex")) && !Truthy(Get(sample.characteristics, "gender"))
    ensures GetGender(sample).None?
  {
  }
}

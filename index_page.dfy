/**
 * The PubMed-id list of the start page (src/app/static/index.js): ids typed
 * into a text box are parsed and added without repeating ids already in the
 * list, single ids and the whole list can be deleted, and submission is
 * refused for an empty list. The page's table, toasts and form are not
 * modelled: the displayed error message is returned instead.
 */
module IndexPage {
  import opened Wrappers
  import opened Strings
  import opened JsValues

  const EmptyInputErrorMessage: String := "Please enter a PubMed ID."

  /** What `parsePubmedIds` does: return the ids, or throw. */
  datatype ParseOutcome =
    | Parsed(ids: seq<JsValue>)
    /** `ParsingError("Invalid PubMed ID", badData)`. */
    | ParsingError(badData: String)
    /**
     * The blank-input branch calls `displayError(errorElement, ...)` with an
     * `errorElement` that is not in scope, which throws before anything is
     * displayed or returned.
     */
    | ReferenceError

  /** The pieces of the trimmed text between delimiters. */
  function Pieces(idsString: String, delimiter: String): seq<String> {
    JsSplit(Trim(idsString), delimiter)
  }

  /** `parsePubmedIds(idsString, delimiter)`. */
  function ParsePubmedIds(idsString: String, delimiter: String): (r: ParseOutcome)
    ensures r.ReferenceError? <==> |Trim(idsString)| == 0
    ensures r.Parsed? ==> r.ids == Numbers(Pieces(idsString, delimiter)) && NaN !in r.ids
  {
    var trimmed := Trim(idsString);
    if |trimmed| == 0 then ReferenceError
    else
      var splitIds := JsSplit(trimmed, delimiter);
      var parsedIds := Numbers(splitIds);
      var invalidIdIndex := FindNaN(parsedIds);
      if invalidIdIndex != -1 then ParsingError(Trim(splitIds[invalidIdIndex]))
      else Parsed(parsedIds)
  }

  /** An invalid id is reported by the first piece that `Number` rejects, trimmed. */
  lemma ParsingErrorNamesFirstInvalid(idsString: String, delimiter: String)
    requires ParsePubmedIds(idsString, delimiter).ParsingError?
    ensures var pieces := Pieces(idsString, delimiter);
      exists k :: 0 <= k < |pieces| && ParsePubmedIds(idsString, delimiter).badData == Trim(pieces[k])
        && NumberOf(pieces[k]) == NaN && forall j :: 0 <= j < k ==> NumberOf(pieces[j]) != NaN
  {
    var pieces := Pieces(idsString, delimiter);
    var parsedIds := Numbers(pieces);
    var k := FindNaN(parsedIds);
    assert forall j :: 0 <= j < k ==> parsedIds[..k][j] == parsedIds[j];
  }

  /** Text with no piece that `Number` rejects is parsed to one number per piece. */
  lemma ParseAcceptsNumbers(idsString: String, delimiter: String)
    requires |Trim(idsString)| > 0
    requires forall p :: p in Pieces(idsString, delimiter) ==> NumberOf(p) != NaN
    ensures ParsePubmedIds(idsString, delimiter) == Parsed(Numbers(Pieces(idsString, delimiter)))
  {
    var pieces := Pieces(idsString, delimiter);
    assert NaN !in Numbers(pieces) by {
      forall i | 0 <= i < |pieces| ensures Numbers(pieces)[i] != NaN {
        assert pieces[i] in pieces;
      }
    }
  }

  /** The message shown for an id that is not valid: `${e.badData} is not a valid PubMed id.` */
  function InvalidIdMessage(o: ParseOutcome): String {
    (if o.ParsingError? then o.badData else "undefined") + " is not a valid PubMed id."
  }

  /** The list holds numbers only: never `NaN` and never `null`. */
  predicate OnlyNumbers(ids: seq<JsValue>) {
    NaN !in ids && Null !in ids
  }

  /** The ids the parser returns are numbers. */
  lemma ParsedAreNumbers(idsString: String, delimiter: String)
    requires ParsePubmedIds(idsString, delimiter).Parsed?
    ensures OnlyNumbers(ParsePubmedIds(idsString, delimiter).ids)
  {
    var ids := ParsePubmedIds(idsString, delimiter).ids;
    assert forall i :: 0 <= i < |ids| ==> ids[i] != Null;
  }

  /** Removing at most one element keeps a list of numbers a list of numbers. */
  lemma RemovedOnceOnlyNumbers(arr: seq<JsValue>, value: JsValue)
    requires OnlyNumbers(arr)
    ensures OnlyNumbers(RemovedOnce(arr, value))
  {
    RemovedOnceSpec(arr, value);
    if value in arr && !value.NaN? {
      assert multiset(RemovedOnce(arr, value)) <= multiset(arr);
      assert NaN !in multiset(RemovedOnce(arr, value)) && Null !in multiset(RemovedOnce(arr, value));
    }
  }

  /** Adding ids that are numbers keeps a list of numbers a list of numbers, and every listed id stays. */
  lemma AddedOnlyNumbers(listed: seq<JsValue>, ids: seq<JsValue>)
    requires OnlyNumbers(listed) && OnlyNumbers(ids)
    ensures OnlyNumbers(listed + NotListed(listed, ids))
  {
    NotListedSpec(listed, ids, NaN);
    NotListedSpec(listed, ids, Null);
  }

  /** The page's global state: the list `pubmedIds`. */
  class IdList {
    var pubmedIds: seq<JsValue>

    ghost predicate Valid()
      reads this
    {
      OnlyNumbers(pubmedIds)
    }

    /** `var pubmedIds = [];` */
    constructor ()
      ensures pubmedIds == [] && Valid()
    {
      pubmedIds := [];
    }

    /**
     * `addPubmedIds(ids)`: the ids not yet listed are appended in order (a
     * batch that repeats an id adds it as often as it occurs).
     */
    method AddPubmedIds(ids: seq<JsValue>)
      modifies this
      ensures pubmedIds == old(pubmedIds) + NotListed(old(pubmedIds), ids)
    {
      var unlisted := NotListed(pubmedIds, ids);
      pubmedIds := pubmedIds + unlisted;
    }

    /**
     * `onClickAddPumbedIds()` for the text-box contents `inputValue`: blank
     * input is refused before parsing, an invalid id is reported, and the
     * parsed ids are added otherwise. The result is the error displayed.
     */
    method OnClickAddPubmedIds(inputValue: String) returns (error: Option<String>)
      requires Valid()
      modifies this
      ensures Valid()
      ensures |Trim(inputValue)| == 0 ==> error == Some(EmptyInputErrorMessage) && pubmedIds == old(pubmedIds)
      ensures |Trim(inputValue)| > 0 ==> ParsePubmedIds(inputValue, ",") != ReferenceError
      ensures |Trim(inputValue)| > 0 && ParsePubmedIds(inputValue, ",").Parsed? ==>
        error == None
        && pubmedIds == old(pubmedIds) + NotListed(old(pubmedIds), ParsePubmedIds(inputValue, ",").ids)
      ensures |Trim(inputValue)| > 0 && ParsePubmedIds(inputValue, ",").ParsingError? ==>
        error == Some(ParsePubmedIds(inputValue, ",").badData + " is not a valid PubMed id.")
        && pubmedIds == old(pubmedIds)
    {
      if |Trim(inputValue)| == 0 {
        return Some(EmptyInputErrorMessage);
      }
      var outcome := ParsePubmedIds(inputValue, ",");
      if outcome.Parsed? {
        ParsedAreNumbers(inputValue, ",");
        AddedOnlyNumbers(pubmedIds, outcome.ids);
        AddPubmedIds(outcome.ids);
        error := None;
      } else {
        error := Some(InvalidIdMessage(outcome));
      }
    }

    /** `removeItemOnce(pubmedIds, value)`: the first element strictly equal to `value` is spliced out. */
    method RemoveItemOnce(value: JsValue)
      modifies this
      ensures pubmedIds == RemovedOnce(old(pubmedIds), value)
    {
      var index := IndexOf(pubmedIds, value);
      if index > -1 {
        pubmedIds := pubmedIds[..index] + pubmedIds[index + 1..];
      }
    }

    /** The list part of `deletePubmedId(pubmedId)`. */
    method DeletePubmedId(pubmedId: JsValue)
      requires Valid()
      modifies this
      ensures Valid() && pubmedIds == RemovedOnce(old(pubmedIds), pubmedId)
    {
      RemovedOnceOnlyNumbers(pubmedIds, pubmedId);
      RemoveItemOnce(pubmedId);
    }

    /** The list part of `deleteAllIds()`. */
    method DeleteAllIds()
      modifies this
      ensures pubmedIds == [] && Valid()
    {
      pubmedIds := [];
    }

    /** `submitPubmedIds(event)`: the ids sent with the form, or None when the list is empty and submission is refused. */
    method SubmitPubmedIds() returns (submitted: Option<seq<JsValue>>)
      ensures submitted.None? <==> |pubmedIds| == 0
      ensures submitted.Some? ==> submitted.value == pubmedIds
    {
      if |pubmedIds| == 0 {
        return None;
      }
      return Some(pubmedIds);
    }
  }
}

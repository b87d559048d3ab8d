/**
 * The earlier PubMed-id list script (src/app/static/script.js): parsing
 * drops ids already listed before it looks for invalid ones, reports an
 * invalid id by displaying a message and returning `null`, and the caller
 * appends whatever the parser returned, `null` included. The page's table
 * is not modelled: the displayed message is returned instead.
 */
module ScriptPage {
  import opened Wrappers
  import opened Strings
  import opened JsValues
  import Scan

  const EmptyInputErrorMessage: String := "Please enter a PubMedId."

  /** The message displayed for an invalid piece. */
  function InvalidIdMessage(piece: String): String {
    piece + " is not a valid PubMedId."
  }

  /** What `parsePubmedIds` returns: the new ids, or `null` after displaying a message. */
  datatype ParseOutcome = Ids(ids: seq<JsValue>) | Rejected(message: String)

  /** The pieces of the trimmed text between delimiters. */
  function Pieces(idsString: String, delimiter: String): seq<String> {
    JsSplit(Trim(idsString), delimiter)
  }

  /**
   * `parsePubmedIds(idsString, delimiter, errorElementId)` while the list
   * holds `listed`, as written: the index of the first `NaN` among the
   * unlisted numbers is used to pick a piece of the unfiltered split.
   */
  function ParsePubmedIdsAsWritten(listed: seq<JsValue>, idsString: String, delimiter: String): (r: ParseOutcome)
    ensures |Trim(idsString)| == 0 ==> r == Rejected(EmptyInputErrorMessage)
    ensures r.Ids? ==> r.ids == NotListed(listed, Numbers(Pieces(idsString, delimiter))) && NaN !in r.ids
  {
    var trimmed := Trim(idsString);
    if |trimmed| == 0 then Rejected(EmptyInputErrorMessage)
    else
      var splitIds := JsSplit(trimmed, delimiter);
      var parsedIds := NotListed(listed, Numbers(splitIds));
      var invalidIdIndex := FindNaN(parsedIds);
      if invalidIdIndex != -1 then Rejected(InvalidIdMessage(splitIds[invalidIdIndex]))
      else Ids(parsedIds)
  }

  /** `xs.map(number)` for a conversion `number`. */
  function MapTo(number: String -> JsValue, xs: seq<String>): (r: seq<JsValue>)
    ensures |r| == |xs| && forall i :: 0 <= i < |xs| ==> r[i] == number(xs[i])
  {
    seq(|xs|, i requires 0 <= i < |xs| => number(xs[i]))
  }

  /** The pieces whose numbers are not listed, in order: the pieces that survive the filter. */
  function UnlistedPieces(number: String -> JsValue, listed: seq<JsValue>, pieces: seq<String>): (r: seq<String>)
    ensures |r| <= |pieces|
    decreases |pieces|
  {
    if |pieces| == 0 then []
    else if Includes(listed, number(pieces[0])) then UnlistedPieces(number, listed, pieces[1..])
    else [pieces[0]] + UnlistedPieces(number, listed, pieces[1..])
  }

  /** The surviving pieces are exactly the pieces of the surviving numbers. */
  lemma {:induction false} UnlistedPiecesNumbers(number: String -> JsValue, listed: seq<JsValue>, pieces: seq<String>)
    ensures MapTo(number, UnlistedPieces(number, listed, pieces)) == NotListed(listed, MapTo(number, pieces))
    ensures forall p :: p in UnlistedPieces(number, listed, pieces) ==> p in pieces
    decreases |pieces|
  {
    if |pieces| > 0 {
      UnlistedPiecesNumbers(number, listed, pieces[1..]);
      assert MapTo(number, pieces)[1..] == MapTo(number, pieces[1..]);
      var rest := UnlistedPieces(number, listed, pieces[1..]);
      if !Includes(listed, number(pieces[0])) {
        assert MapTo(number, [pieces[0]] + rest) == [number(pieces[0])] + MapTo(number, rest);
      }
    }
  }

  /** `Numbers` is the map of `NumberOf`. */
  lemma NumbersMap(xs: seq<String>)
    ensures Numbers(xs) == MapTo(NumberOf, xs)
  {
  }

  /** `parsePubmedIds` with the invalid piece taken from the pieces that survive the filter. */
  function ParsePubmedIds(listed: seq<JsValue>, idsString: String, delimiter: String): (r: ParseOutcome)
    ensures |Trim(idsString)| == 0 ==> r == Rejected(EmptyInputErrorMessage)
    ensures r.Ids? ==> r.ids == NotListed(listed, Numbers(Pieces(idsString, delimiter))) && NaN !in r.ids
  {
    var trimmed := Trim(idsString);
    if |trimmed| == 0 then Rejected(EmptyInputErrorMessage)
    else
      var splitIds := JsSplit(trimmed, delimiter);
      var parsedIds := NotListed(listed, Numbers(splitIds));
      var invalidIdIndex := FindNaN(parsedIds);
      if invalidIdIndex != -1 then
        UnlistedPiecesNumbers(NumberOf, listed, splitIds);
        NumbersMap(splitIds);
        Rejected(InvalidIdMessage(UnlistedPieces(NumberOf, listed, splitIds)[invalidIdIndex]))
      else Ids(parsedIds)
  }

  /** The corrected parser names a piece of the input that `Number` rejects. */
  lemma ParseNamesInvalidPiece(listed: seq<JsValue>, idsString: String, delimiter: String)
    requires |Trim(idsString)| > 0 && ParsePubmedIds(listed, idsString, delimiter).Rejected?
    ensures exists p :: (p in Pieces(idsString, delimiter) && NumberOf(p) == NaN
      && ParsePubmedIds(listed, idsString, delimiter).message == InvalidIdMessage(p))
  {
    var pieces := Pieces(idsString, delimiter);
    UnlistedPiecesNumbers(NumberOf, listed, pieces);
    NumbersMap(pieces);
    var kept := UnlistedPieces(NumberOf, listed, pieces);
    var k := FindNaN(NotListed(listed, Numbers(pieces)));
    assert MapTo(NumberOf, kept)[k] == NumberOf(kept[k]);
    assert kept[k] in kept;
  }

  /** Both parsers agree except on the message for an invalid piece. */
  lemma ParsersAgree(listed: seq<JsValue>, idsString: String, delimiter: String)
    ensures ParsePubmedIdsAsWritten(listed, idsString, delimiter).Ids? == ParsePubmedIds(listed, idsString, delimiter).Ids?
    ensures ParsePubmedIdsAsWritten(listed, idsString, delimiter).Ids? ==>
      ParsePubmedIdsAsWritten(listed, idsString, delimiter) == ParsePubmedIds(listed, idsString, delimiter)
  {
  }

  /** Two pieces without commas, joined by a comma and not padded, split back into those pieces. */
  lemma TwoPieces(first: String, second: String, idsString: String)
    requires idsString == first + "," + second
    requires ',' !in first && ',' !in second
    requires |first| > 0 && first[0] !in JsWhitespace
    requires |second| > 0 && second[|second| - 1] !in JsWhitespace
    ensures |Trim(idsString)| > 0 && Pieces(idsString, ",") == [first, second]
  {
    assert idsString[0] == first[0];
    assert idsString[|idsString| - 1] == second[|second| - 1];
    TrimNoop(idsString, JsWhitespace);
    ContainsChar(second, ',');
    SplitTwo(first, ",", second);
  }

  /** The two parsers on an input whose pieces are a listed id followed by an invalid one. */
  lemma ListedThenInvalid(listed: seq<JsValue>, first: String, second: String, idsString: String)
    requires |Trim(idsString)| > 0 && Pieces(idsString, ",") == [first, second]
    requires NumberOf(first) in listed && NaN !in listed && NumberOf(second) == NaN
    ensures ParsePubmedIdsAsWritten(listed, idsString, ",") == Rejected(InvalidIdMessage(first))
    ensures ParsePubmedIds(listed, idsString, ",") == Rejected(InvalidIdMessage(second))
  {
    var pieces := [first, second];
    assert Numbers(pieces) == [NumberOf(first), NaN];
    assert NotListed(listed, [NaN]) == [NaN];
    assert NotListed(listed, Numbers(pieces)) == [NaN];
    assert UnlistedPieces(NumberOf, listed, [second]) == [second];
    assert UnlistedPieces(NumberOf, listed, pieces) == [second];
  }

  /**
   * As written, when an id that is already listed comes before an invalid
   * piece, the message names the listed id instead of the invalid piece.
   */
  lemma AsWrittenNamesWrongPiece(listed: seq<JsValue>, first: String, second: String, idsString: String)
    requires idsString == first + "," + second
    requires ',' !in first && ',' !in second
    requires |first| > 0 && first[0] !in JsWhitespace
    requires |second| > 0 && second[|second| - 1] !in JsWhitespace
    requires NumberOf(first) in listed && NaN !in listed && NumberOf(second) == NaN
    ensures ParsePubmedIdsAsWritten(listed, idsString, ",") == Rejected(InvalidIdMessage(first))
    ensures ParsePubmedIds(listed, idsString, ",") == Rejected(InvalidIdMessage(second))
    ensures NumberOf(first) != NaN && first != second
  {
    TwoPieces(first, second, idsString);
    ListedThenInvalid(listed, first, second, idsString);
  }

  /** An instance: with 1 listed, the input "1,x" is reported as "1 is not a valid PubMedId.". */
  lemma WrongPieceInstance(first: String, second: String)
    requires first == "1" && second == "x"
    ensures ParsePubmedIdsAsWritten([Num(1.0)], first + "," + second, ",") == Rejected(InvalidIdMessage(first))
    ensures ParsePubmedIds([Num(1.0)], first + "," + second, ",") == Rejected(InvalidIdMessage(second))
  {
    NumberOfDigit(first);
    assert Scan.DigitValue(first[0]) == 1;
    NumberOfLetter(second);
    AsWrittenNamesWrongPiece([Num(1.0)], first, second, first + "," + second);
  }

  /** The list never holds `NaN`. */
  predicate NoNaN(ids: seq<JsValue>) {
    NaN !in ids
  }

  /** The script's global state: the list `pubmedIds`. */
  class IdList {
    var pubmedIds: seq<JsValue>

    ghost predicate Valid()
      reads this
    {
      NoNaN(pubmedIds)
    }

    /** `var pubmedIds = [];` */
    constructor ()
      ensures pubmedIds == [] && Valid()
    {
      pubmedIds := [];
    }

    /**
     * The list part of `onAddPumbedIds()` for the input `inputValue`: the
     * parsed ids are concatenated; a rejected input concatenates `null`, and
     * the following `ids.map` then throws a TypeError (`threw`).  The ids
     * come from `parsePubmedIds` as written; ParsersAgree shows its ids and
     * outcome kind are those of the corrected parser.
     */
    method OnAddPubmedIds(inputValue: String) returns (message: Option<String>, threw: bool)
      requires Valid()
      modifies this
      ensures Valid()
      ensures var parsed := ParsePubmedIdsAsWritten(old(pubmedIds), inputValue, ",");
        (parsed.Ids? ==> message == None && !threw && pubmedIds == old(pubmedIds) + parsed.ids)
        && (parsed.Rejected? ==> message == Some(parsed.message) && threw && pubmedIds == old(pubmedIds) + [Null])
    {
      var ids := ParsePubmedIdsAsWritten(pubmedIds, inputValue, ",");
      if ids.Ids? {
        pubmedIds := pubmedIds + ids.ids;
        message, threw := None, false;
      } else {
        pubmedIds := pubmedIds + [Null];
        message, threw := Some(ids.message), true;
      }
    }

    /** `removeItemOnce(pubmedIds, value)`. */
    method RemoveItemOnce(value: JsValue)
      modifies this
      ensures pubmedIds == RemovedOnce(old(pubmedIds), value)
    {
      var index := IndexOf(pubmedIds, value);
      if index > -1 {
        pubmedIds := pubmedIds[..index] + pubmedIds[index + 1..];
      }
    }

    /** The list part of `deletePubmedId(pubmedId)`. */
    method DeletePubmedId(pubmedId: JsValue)
      requires Valid()
      modifies this
      ensures Valid() && pubmedIds == RemovedOnce(old(pubmedIds), pubmedId)
    {
      RemovedOnceSpec(pubmedIds, pubmedId);
      if pubmedId in pubmedIds && !pubmedId.NaN? {
        assert multiset(RemovedOnce(pubmedIds, pubmedId)) <= multiset(pubmedIds);
        assert NaN !in multiset(RemovedOnce(pubmedIds, pubmedId));
      }
      RemoveItemOnce(pubmedId);
    }
  }

  /** Parsed ids are never already listed: the list only grows by new ids or by `null`. */
  lemma ParsedIdsAreNew(listed: seq<JsValue>, idsString: String, x: JsValue)
    requires ParsePubmedIds(listed, idsString, ",").Ids? && x in ParsePubmedIds(listed, idsString, ",").ids
    ensures x !in listed
  {
    NotListedSpec(listed, Numbers(Pieces(idsString, ",")), x);
  }
}

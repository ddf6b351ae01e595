/**
 * The post-crawl checks of go_wiki_reader.go: the size rule of
 * `validateOutputFile` and the field rule of `validateJSONLStructure`,
 * applied to the values the streaming JSON decoder yields.
 */
module OutputCheck {
  import opened Outcomes
  import opened Aggregation

  /** One value read by the decoder: a record, or a value it failed to decode. */
  datatype Decoded = Decoded(data: PageData) | Undecodable

  /**
   * Why the artifact is refused. Positions count decoded values from 1,
   * which is what the source reports as "line".
   */
  datatype OutputError =
    | OutputMissing
    | OutputEmpty
    | InvalidJSON(position: nat)
    | MissingFields(position: nat)

  /**
   * `validateOutputFile`: `size` is what `os.Stat` reports, `None` when the
   * file cannot be found. A missing or zero-length artifact is refused.
   */
  function ValidateOutputFile(size: Option<nat>): (r: Outcome<OutputError>)
    ensures r == Pass <==> size.Some? && size.value > 0
    ensures size.None? ==> r == Fail(OutputMissing)
    ensures size == Some(0) ==> r == Fail(OutputEmpty)
  {
    match size
    case None => Fail(OutputMissing)
    case Some(n) => if n == 0 then Fail(OutputEmpty) else Pass
  }

  /** Both required fields are present and non-empty. */
  predicate HasRequiredFields(p: PageData)
  {
    p.url != "" && p.text != ""
  }

  predicate WellFormed(d: Decoded)
  {
    d.Decoded? && HasRequiredFields(d.data)
  }

  /** The position (from 0) of the first value the check refuses, if any. */
  function FirstMalformed(items: seq<Decoded>): (r: Option<nat>)
    ensures r == None <==> forall k :: 0 <= k < |items| ==> WellFormed(items[k])
    ensures r.Some? ==>
      (r.value < |items| && !WellFormed(items[r.value])
       && forall k :: 0 <= k < r.value ==> WellFormed(items[k]))
  {
    if items == [] then None
    else if !WellFormed(items[0]) then Some(0)
    else match FirstMalformed(items[1..])
      case None => None
      case Some(k) => Some(k + 1)
  }

  /**
   * `validateJSONLStructure` over the decoded stream: it succeeds exactly
   * when every value decodes to a record with both fields set; otherwise it
   * reports the first bad value, by its 1-based position, as undecodable or
   * as missing a field.
   */
  method ValidateJSONLStructure(items: seq<Decoded>) returns (r: Outcome<OutputError>)
    ensures r == Pass <==> forall k :: 0 <= k < |items| ==> WellFormed(items[k])
    ensures r.Fail? ==>
      FirstMalformed(items).Some? &&
      var k := FirstMalformed(items).value;
      r.error == if items[k].Undecodable? then InvalidJSON(k + 1) else MissingFields(k + 1)
  {
    var lineNumber := 0;
    while lineNumber < |items|
      invariant 0 <= lineNumber <= |items|
      invariant forall k :: 0 <= k < lineNumber ==> WellFormed(items[k])
    {
      var item := items[lineNumber];
      if item.Undecodable? {
        return Fail(InvalidJSON(lineNumber + 1));
      }
      if item.data.url == "" || item.data.text == "" {
        return Fail(MissingFields(lineNumber + 1));
      }
      lineNumber := lineNumber + 1;
    }
    return Pass;
  }

  /** The stream a decoder reads back from the records the writer encoded, one value per record. */
  function ReadBack(records: seq<PageData>): seq<Decoded>
  {
    seq(|records|, k requires 0 <= k < |records| => Decoded(records[k]))
  }

  /**
   * Every record the merge produces passes the structure check, provided
   * every request URL is non-empty: texts are never empty, and every record's
   * URL is one a fragment was seen on.
   */
  lemma MergedRecordsPassStructureCheck(calls: seq<Fragment>)
    requires forall k :: 0 <= k < |calls| ==> calls[k].url != ""
    ensures FirstMalformed(ReadBack(Aggregated(calls))) == None
  {
    var records := Aggregated(calls);
    AggregatedTextsNonEmpty(calls);
    forall k | 0 <= k < |records|
      ensures WellFormed(ReadBack(records)[k])
    {
      FirstSeenMember(calls, FirstSeen(calls)[k]);
    }
  }

  /** The tests' well-formed two-record file passes. */
  lemma TestValidFileAccepted()
    ensures FirstMalformed([
      Decoded(PageData("https://example.com", "test content")),
      Decoded(PageData("https://example.org", "more content"))]) == None
  {
  }

  /** The tests' malformed file is refused at its second value, whose URL is empty. */
  lemma TestInvalidFileRejected()
    ensures FirstMalformed([
      Decoded(PageData("https://example.com", "test content")),
      Decoded(PageData("", "missing url")),
      Undecodable]) == Some(1)
  {
  }
}

/**
 * The body positioner: finds the body after the blank line and hands it,
 * with its absolute start, to exactly one of the JSON, XML and mixed
 * processors.
 */
module BodyPositioner {
  import opened Text
  import opened Ranges
  import opened Http
  import opened JsonParser
  import opened ContentTypeUtils
  import JsonBodyProcessor
  import XmlBodyProcessor
  import MixedBodyProcessor
  import PlaceholderApplier

  /** The three processors, each given the parser or pattern matchers it uses. */
  datatype BodyProcessors = BodyProcessors(
    json: JsonLibrary,
    xml: XmlBodyProcessor.XmlMatchers,
    mixed: MixedBodyProcessor.MixedMatchers)
  {
    /** The pattern matchers keep to their patterns' shapes. */
    ghost predicate Valid()
    {
      xml.Valid() && mixed.Valid()
    }
  }

  /** Which processor a body goes to. */
  datatype BodyFormat = JsonBody | XmlBody | MixedBody

  /** JSON wins over XML; whatever is neither goes to the mixed scanner. */
  function FormatOf(contentType: string, body: string): BodyFormat
  {
    if PlaceholderApplier.LooksJson(contentType, body) then JsonBody
    else if PlaceholderApplier.LooksXml(contentType, body) then XmlBody
    else MixedBody
  }

  /** indexOf("\r\n\r\n") + 4: the body's start, or a value at most 4 when there is no usable blank line. */
  function RequestBodyStart(requestString: string): int
  {
    IndexOf(requestString, BLANK_LINE) + 4
  }

  /** The guard of addBodyPositions: a blank line not at the very start, followed by a non-empty body. */
  predicate HasBody(requestString: string)
  {
    4 < RequestBodyStart(requestString) < |requestString|
  }

  /** What addBodyPositions appends to a list already holding `size` entries. */
  function BodyRanges(request: HttpRequest, requestString: string, size: nat, ps: BodyProcessors): seq<Range>
    requires ps.Valid()
  {
    var requestBodyStart := RequestBodyStart(requestString);
    if !HasBody(requestString) then []
    else
      var requestBody := requestString[requestBodyStart..];
      match FormatOf(GetContentType(request), requestBody)
      case JsonBody => JsonBodyProcessor.ProcessRanges(requestBody, requestBodyStart, size, ps.json)
      case XmlBody => XmlBodyProcessor.XmlRanges(requestBody, requestBodyStart, ps.xml)
      case MixedBody =>
        MixedBodyProcessor.MixedRanges(requestBody, requestBodyStart, size, ps.json, ps.xml, ps.mixed)
  }

  // ---------------------------------------------------------------------------
  // Properties
  // ---------------------------------------------------------------------------

  /**
   * The guard holds exactly when the first blank line starts after offset 0
   * and something follows it; the body is then everything after that line.
   */
  lemma HasBodySpec(requestString: string)
    ensures HasBody(requestString) <==>
      exists k :: 0 < k && k + 4 < |requestString| && OccursAt(requestString, BLANK_LINE, k)
        && forall j :: 0 <= j < k ==> !OccursAt(requestString, BLANK_LINE, j)
  {
    IndexOfFirst(requestString, BLANK_LINE);
    var k := IndexOf(requestString, BLANK_LINE);
    if !HasBody(requestString) {
      forall k' | 0 < k' && k' + 4 < |requestString| && OccursAt(requestString, BLANK_LINE, k')
        ensures exists j :: 0 <= j < k' && OccursAt(requestString, BLANK_LINE, j)
      {
        assert 0 <= k < k';
      }
    }
  }

  /** Without a usable body nothing is added; otherwise every range lies inside the body. */
  lemma BodyRangesWithin(request: HttpRequest, requestString: string, size: nat, ps: BodyProcessors)
    requires ps.Valid()
    ensures !HasBody(requestString) ==> BodyRanges(request, requestString, size, ps) == []
    ensures AllWithin(BodyRanges(request, requestString, size, ps), RequestBodyStart(requestString), |requestString|)
  {
    var rs := BodyRanges(request, requestString, size, ps);
    if HasBody(requestString) {
      var start := RequestBodyStart(requestString);
      var body := requestString[start..];
      assert start + |body| == |requestString|;
      match FormatOf(GetContentType(request), body)
      case JsonBody =>
        JsonBodyProcessor.ProcessRangesBounded(body, start, size, ps.json);
      case XmlBody =>
        XmlBodyProcessor.XmlRangesEmitted(body, start, ps.xml);
      case MixedBody =>
        MixedBodyProcessor.MixedRangesWithin(body, start, size, ps.json, ps.xml, ps.mixed);
    }
  }

  /**
   * The body the processors see is the one the placeholder planner sees, and
   * the choice agrees with its own: the JSON processor runs exactly when the
   * planner scans a JSON body, and the mixed scanner exactly when the planner
   * runs its key=value scan.
   */
  lemma FormatAgreesWithPlanner(request: HttpRequest, requestString: string)
    requires HasBody(requestString)
    ensures var body := requestString[RequestBodyStart(requestString)..];
      var contentType := GetContentType(request);
      && body == PlaceholderApplier.BodyOf(requestString)
      && (FormatOf(contentType, body) == JsonBody <==> PlaceholderApplier.ScansJsonBody(contentType, requestString))
      && (FormatOf(contentType, body) == MixedBody <==> PlaceholderApplier.CanScanKeyValueBody(contentType, requestString))
  {
    assert PlaceholderApplier.BodyStart(requestString) == RequestBodyStart(requestString);
  }

  // ---------------------------------------------------------------------------
  // addBodyPositions
  // ---------------------------------------------------------------------------

  /** addBodyPositions(request, requestString, positions). */
  method AddBodyPositions(ps: BodyProcessors, request: HttpRequest, requestString: string, positions: RangeList)
    requires ps.Valid()
    modifies positions
    ensures positions.items == old(positions.items) + BodyRanges(request, requestString, old(|positions.items|), ps)
  {
    var requestBodyStart := IndexOf(requestString, BLANK_LINE) + 4;
    if requestBodyStart <= 4 || requestBodyStart >= |requestString| {
      return;
    }

    var requestBody := requestString[requestBodyStart..];
    var contentType := GetContentType(request);

    if Contains(contentType, "json") || StartsWith(Trim(requestBody), "{") || StartsWith(Trim(requestBody), "[") {
      JsonBodyProcessor.Process(ps.json, requestBody, requestBodyStart, positions);
    } else if Contains(contentType, "xml") || StartsWith(Trim(requestBody), "<") {
      XmlBodyProcessor.Process(ps.xml, requestBody, requestBodyStart, positions);
    } else {
      MixedBodyProcessor.Process(ps.json, ps.xml, ps.mixed, requestBody, requestBodyStart, positions);
    }
  }
}

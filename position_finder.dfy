/**
 * The position finder: runs the method, URL, parameter, body and header
 * positioners, each only when the mode asks for it, appending to one list.
 */
module PositionFinder {
  import opened Ranges
  import opened Http
  import opened PayloadPositionMode
  import opened ModeRules
  import MethodPositioner
  import UrlPositioner
  import ParamPositioner
  import HeaderPositioner
  import opened BodyPositioner

  /**
   * What each positioner would append: the method ranges, the URL ranges in
   * last-segment and in full-path form, the parameter offsets, the body
   * ranges as a function of the list's size when the body processors start
   * (the JSON processor stops at 5000 entries in all), and the header ranges.
   */
  datatype Contributions = Contributions(
    methodRanges: seq<Range>,
    lastSegment: seq<Range>,
    fullPath: seq<Range>,
    parameters: seq<Range>,
    bodyAt: nat -> seq<Range>,
    headers: seq<Range>)

  /** The contributions of the real positioners for this request. */
  function ContributionsOf(request: HttpRequest, requestString: string, ps: BodyProcessors): Contributions
    requires ps.Valid()
  {
    Contributions(
      MethodPositioner.MethodRanges(request, requestString),
      UrlPositioner.UrlRanges(request, requestString, false),
      UrlPositioner.UrlRanges(request, requestString, true),
      request.parameterValueOffsets,
      (size: nat) => BodyRanges(request, requestString, size, ps),
      HeaderPositioner.AllHeaderRanges(request.headers, requestString))
  }

  /** The URL ranges in the form the mode asks for. */
  function UrlPart(c: Contributions, mode: Mode): seq<Range>
  {
    if !ShouldIncludeUrlPath(mode) then [] else if ShouldUseFullUrlPath(mode) then c.fullPath else c.lastSegment
  }

  /** What comes before the body: the method, URL path and parameter parts the mode asks for, in turn. */
  function BeforeBody(c: Contributions, mode: Mode): seq<Range>
  {
    (if ShouldIncludeMethod(mode) then c.methodRanges else [])
    + UrlPart(c, mode)
    + (if ShouldIncludeParameters(mode) then c.parameters else [])
  }

  /**
   * What the gated positioners append, in the order method, URL path,
   * parameters, body, headers, to a list that held `size` entries before.
   */
  function Gathered(c: Contributions, mode: Mode, size: nat): seq<Range>
  {
    var before := BeforeBody(c, mode);
    before
    + (if ShouldIncludeBody(mode) then c.bodyAt(size + |before|) else [])
    + (if ShouldIncludeHeaders(mode) then c.headers else [])
  }

  /** findPositions: what the positioners append to a fresh, empty list. */
  function FoundPositions(request: HttpRequest, requestString: string, mode: Mode, ps: BodyProcessors): seq<Range>
    requires ps.Valid()
  {
    Gathered(ContributionsOf(request, requestString, ps), mode, 0)
  }

  // ---------------------------------------------------------------------------
  // Properties
  // ---------------------------------------------------------------------------

  /**
   * The list is the plain concatenation of the contributions, nothing
   * filtered or merged: the method's, URL path's and parameters' first, then
   * the body's, and the headers' last, in every mode.
   */
  lemma HeadersLast(c: Contributions, mode: Mode, size: nat)
    ensures var before := BeforeBody(c, mode);
      Gathered(c, mode, size)
      == before + (if ShouldIncludeBody(mode) then c.bodyAt(size + |before|) else []) + c.headers
  {
    HeadersAlways(mode);
  }

  /**
   * The header-only modes without the method give exactly their URL and
   * header ranges: HEADERS_ONLY the headers alone, the URL modes the last
   * segment or the full path before them.
   */
  lemma HeaderModesExact(c: Contributions, size: nat)
    ensures Gathered(c, HEADERS_ONLY, size) == c.headers
    ensures Gathered(c, HEADERS_URL_LAST, size) == c.lastSegment + c.headers
    ensures Gathered(c, HEADERS_FULL_PATH, size) == c.fullPath + c.headers
  {
    HeadersAlways(HEADERS_ONLY);
    assert [] + [] + [] + [] + c.headers == c.headers;
    HeadersAlways(HEADERS_URL_LAST);
    assert [] + c.lastSegment + [] + [] + c.headers == c.lastSegment + c.headers;
    HeadersAlways(HEADERS_FULL_PATH);
    assert [] + c.fullPath + [] + [] + c.headers == c.fullPath + c.headers;
  }

  /** The header-only modes with the method put the method ranges first and are otherwise the same. */
  lemma HeaderMethodModesExact(c: Contributions, size: nat)
    ensures Gathered(c, HEADERS_METHOD, size) == c.methodRanges + c.headers
    ensures Gathered(c, HEADERS_URL_LAST_METHOD, size) == c.methodRanges + c.lastSegment + c.headers
    ensures Gathered(c, HEADERS_FULL_PATH_METHOD, size) == c.methodRanges + c.fullPath + c.headers
  {
    HeadersAlways(HEADERS_METHOD);
    assert c.methodRanges + [] + [] + [] + c.headers == c.methodRanges + c.headers;
    HeadersAlways(HEADERS_URL_LAST_METHOD);
    assert c.methodRanges + c.lastSegment + [] + [] + c.headers == c.methodRanges + c.lastSegment + c.headers;
    HeadersAlways(HEADERS_FULL_PATH_METHOD);
    assert c.methodRanges + c.fullPath + [] + [] + c.headers == c.methodRanges + c.fullPath + c.headers;
  }

  /**
   * EVERYTHING is DEFAULT with the method ranges in front, the body seeing a
   * list longer by them; so the two agree outright when there is no method
   * range, or when the body's ranges do not depend on the list's size.
   */
  lemma EverythingIsDefaultAfterMethod(c: Contributions, size: nat)
    ensures Gathered(c, EVERYTHING, size) == c.methodRanges + Gathered(c, DEFAULT, size + |c.methodRanges|)
    ensures c.methodRanges == [] ==> Gathered(c, EVERYTHING, size) == Gathered(c, DEFAULT, size)
  {
    HeadersAlways(EVERYTHING);
    HeadersAlways(DEFAULT);
    var rest := BeforeBody(c, DEFAULT);
    assert BeforeBody(c, EVERYTHING) == c.methodRanges + rest;
    var b := c.bodyAt(size + |c.methodRanges| + |rest|);
    assert Gathered(c, EVERYTHING, size) == (c.methodRanges + rest) + b + c.headers;
    assert Gathered(c, DEFAULT, size + |c.methodRanges|) == rest + b + c.headers;
  }

  /** The same for the full-path pair. */
  lemma EverythingFullPathIsDefaultFullPathAfterMethod(c: Contributions, size: nat)
    ensures Gathered(c, EVERYTHING_FULL_PATH, size)
      == c.methodRanges + Gathered(c, DEFAULT_FULL_PATH, size + |c.methodRanges|)
    ensures c.methodRanges == [] ==> Gathered(c, EVERYTHING_FULL_PATH, size) == Gathered(c, DEFAULT_FULL_PATH, size)
  {
    HeadersAlways(EVERYTHING_FULL_PATH);
    HeadersAlways(DEFAULT_FULL_PATH);
    var rest := BeforeBody(c, DEFAULT_FULL_PATH);
    assert BeforeBody(c, EVERYTHING_FULL_PATH) == c.methodRanges + rest;
    var b := c.bodyAt(size + |c.methodRanges| + |rest|);
    assert Gathered(c, EVERYTHING_FULL_PATH, size) == (c.methodRanges + rest) + b + c.headers;
    assert Gathered(c, DEFAULT_FULL_PATH, size + |c.methodRanges|) == rest + b + c.headers;
  }

  // ---------------------------------------------------------------------------
  // findPositions
  // ---------------------------------------------------------------------------

  /** findPositions(request, requestString, mode): a new list the gated positioners fill in turn. */
  method FindPositions(ps: BodyProcessors, request: HttpRequest, requestString: string, mode: Mode)
    returns (positions: RangeList)
    requires ps.Valid()
    ensures fresh(positions)
    ensures positions.items == FoundPositions(request, requestString, mode, ps)
  {
    ghost var c := ContributionsOf(request, requestString, ps);
    positions := new RangeList();

    if ShouldIncludeMethod(mode) {
      MethodPositioner.Add(request, requestString, positions);
    }
    ghost var afterMethod := positions.items;
    assert afterMethod == (if ShouldIncludeMethod(mode) then c.methodRanges else []);

    if ShouldIncludeUrlPath(mode) {
      UrlPositioner.Add(request, requestString, ShouldUseFullUrlPath(mode), positions);
    }
    ghost var afterUrl := positions.items;
    assert afterUrl == afterMethod + UrlPart(c, mode);

    if ShouldIncludeParameters(mode) {
      ParamPositioner.Add(request, positions);
    }
    ghost var afterParams := positions.items;
    BeforeParts(c, mode, afterMethod, afterUrl, afterParams);

    if ShouldIncludeBody(mode) {
      AddBodyPositions(ps, request, requestString, positions);
      assert positions.items == afterParams + c.bodyAt(|afterParams|);
    }
    ghost var afterBody := positions.items;

    if ShouldIncludeHeaders(mode) {
      HeaderPositioner.Add(request, requestString, positions);
    }
    FoundParts(c, mode, afterParams, afterBody, positions.items);
  }

  /** The first three steps in turn build exactly what comes before the body. */
  lemma BeforeParts(c: Contributions, mode: Mode, afterMethod: seq<Range>, afterUrl: seq<Range>, afterParams: seq<Range>)
    requires afterMethod == (if ShouldIncludeMethod(mode) then c.methodRanges else [])
    requires afterUrl == afterMethod + UrlPart(c, mode)
    requires afterParams == afterUrl + (if ShouldIncludeParameters(mode) then c.parameters else [])
    ensures afterParams == BeforeBody(c, mode)
  {
  }

  /** The body and header steps after the first three build exactly the gathered list. */
  lemma FoundParts(c: Contributions, mode: Mode, afterParams: seq<Range>, afterBody: seq<Range>, after: seq<Range>)
    requires afterParams == BeforeBody(c, mode)
    requires afterBody == afterParams + (if ShouldIncludeBody(mode) then c.bodyAt(|afterParams|) else [])
    requires after == afterBody + (if ShouldIncludeHeaders(mode) then c.headers else [])
    ensures after == Gathered(c, mode, 0)
  {
  }
}

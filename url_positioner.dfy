/**
 * The URL path: either the whole path, or only its last segment (a path
 * ending in '/' gives the segment before that slash), so that no range is
 * ever empty.
 */
module UrlPositioner {
  import opened Text
  import opened Ranges
  import opened Http

  /** What add appends for the path `request.pathWithoutQuery`. */
  function UrlRanges(request: HttpRequest, requestString: string, useFullUrlPath: bool): (rs: seq<Range>)
    ensures |rs| <= 1
    ensures !useFullUrlPath ==> forall r :: r in rs ==> r.start < r.end
  {
    var urlPath := request.pathWithoutQuery;
    var urlPathStart := IndexOf(requestString, urlPath);
    if urlPathStart < 0 then []
    else if useFullUrlPath then [Range(urlPathStart, urlPathStart + |urlPath|)]
    else
      // the last segment, or the one before a trailing '/', relative to the path
      var (segFrom, segTo) := SegmentOf(urlPath);
      var segStart := urlPathStart + segFrom;
      var segEnd := urlPathStart + segTo;
      if segStart < segEnd then [Range(segStart, segEnd)] else []
  }

  /** add(request, requestString, useFullUrlPath, positions): appends UrlRanges. */
  method Add(request: HttpRequest, requestString: string, useFullUrlPath: bool, positions: RangeList)
    modifies positions
    ensures positions.items == old(positions.items) + UrlRanges(request, requestString, useFullUrlPath)
  {
    var urlPath := request.pathWithoutQuery;
    var urlPathStart := IndexOf(requestString, urlPath);
    if urlPathStart < 0 {
      return;
    }

    if useFullUrlPath {
      positions.Add(Range(urlPathStart, urlPathStart + |urlPath|));
      return;
    }

    if EndsWith(urlPath, "/") {
      var pathWithoutTrailingSlash := urlPath[..|urlPath| - 1];
      var secondLastSlashIdx := LastIndexOfChar(pathWithoutTrailingSlash, '/') + 1;
      var segStart := urlPathStart + secondLastSlashIdx;
      var segEnd := urlPathStart + |urlPath| - 1;
      if segStart < segEnd {
        positions.Add(Range(segStart, segEnd));
      }
    } else {
      var lastSlashIdx := LastIndexOfChar(urlPath, '/') + 1;
      var segStart := urlPathStart + lastSlashIdx;
      var segEnd := urlPathStart + |urlPath|;
      if segStart < segEnd {
        positions.Add(Range(segStart, segEnd));
      }
    }
  }

  /**
   * Nothing is added when the path does not occur; otherwise the range lies
   * inside the path's first occurrence and covers the same text as that part
   * of the path; in full-path mode it is the whole occurrence.
   */
  lemma UrlRangesWithinPath(request: HttpRequest, requestString: string, useFullUrlPath: bool)
    ensures var rs := UrlRanges(request, requestString, useFullUrlPath);
      var path := request.pathWithoutQuery;
      var p := IndexOf(requestString, path);
      && ((forall k :: !OccursAt(requestString, path, k)) ==> rs == [])
      && (useFullUrlPath ==> (rs == [] <==> p < 0))
      && (useFullUrlPath && rs != [] ==> rs[0] == Range(p, p + |path|))
      && (rs != [] ==>
        && 0 <= p <= rs[0].start <= rs[0].end <= p + |path| <= |requestString|
        && requestString[rs[0].start..rs[0].end] == path[rs[0].start - p..rs[0].end - p])
  {
    var rs := UrlRanges(request, requestString, useFullUrlPath);
    var path := request.pathWithoutQuery;
    var p := IndexOf(requestString, path);
    IndexOfFirst(requestString, path);
    UrlRangesInPath(request, requestString, useFullUrlPath);
    WithinOccurrence(requestString, path, p, rs);
  }

  /** A range inside an occurrence of the path covers the same text as the path there. */
  lemma WithinOccurrence(s: string, path: string, p: int, rs: seq<Range>)
    requires p >= 0 ==> OccursAt(s, path, p)
    requires rs != [] ==> 0 <= p <= rs[0].start <= rs[0].end <= p + |path|
    ensures rs != [] ==>
      && p + |path| <= |s|
      && s[rs[0].start..rs[0].end] == path[rs[0].start - p..rs[0].end - p]
  {
    if rs != [] {
      OccurrenceSlice(s, path, p, rs[0].start - p, rs[0].end - p);
    }
  }

  /** A range, when there is one, lies within the path's first occurrence. */
  lemma UrlRangesInPath(request: HttpRequest, requestString: string, useFullUrlPath: bool)
    ensures var rs := UrlRanges(request, requestString, useFullUrlPath);
      var path := request.pathWithoutQuery;
      var p := IndexOf(requestString, path);
      && (rs == [] <==> p < 0 || (!useFullUrlPath && SegmentOf(path).0 >= SegmentOf(path).1))
      && (rs != [] ==> 0 <= p <= rs[0].start <= rs[0].end <= p + |path|)
      && (useFullUrlPath && rs != [] ==> rs[0] == Range(p, p + |path|))
  {
  }

  /** The path's last segment is empty: the path is "" or "/" or ends in "//". */
  predicate EmptyLastSegment(path: string)
  {
    path == [] || (EndsWith(path, "/") && (|path| == 1 || path[|path| - 2] == '/'))
  }

  /**
   * path[a..b] is the last segment: slash-free, at the path start or after a
   * '/', and at the path end or just before a trailing '/'.
   */
  predicate IsLastSegment(path: string, a: int, b: int)
  {
    && 0 <= a < b <= |path|
    && (forall j :: a <= j < b ==> path[j] != '/')
    && (a == 0 || path[a - 1] == '/')
    && (b == |path| || (b == |path| - 1 && path[b] == '/'))
  }

  /**
   * The segment bounds relative to the path: for a path ending in '/', from
   * after the previous slash to just before the trailing one; otherwise from
   * after the last slash to the end.
   */
  function SegmentOf(path: string): (bounds: (int, int))
    ensures 0 <= bounds.0 && bounds.1 <= |path|
  {
    if EndsWith(path, "/") then
      var pathWithoutTrailingSlash := path[..|path| - 1];
      (LastIndexOfChar(pathWithoutTrailingSlash, '/') + 1, |path| - 1)
    else (LastIndexOfChar(path, '/') + 1, |path|)
  }

  lemma SegmentOfShape(path: string)
    ensures var (a, b) := SegmentOf(path);
      (a < b <==> !EmptyLastSegment(path)) && (a < b ==> IsLastSegment(path, a, b))
  {
    LastIndexOfCharLast(path, '/');
    if EndsWith(path, "/") {
      var w := path[..|path| - 1];
      LastIndexOfCharLast(w, '/');
      assert forall j :: 0 <= j < |w| ==> path[j] == w[j];
      if |path| >= 2 && path[|path| - 2] == '/' {
        assert w[|w| - 1] == '/';
      }
    }
  }

  /**
   * In last-segment mode the range covers exactly the path's last segment
   * (UrlRanges says it is that part of the path's first occurrence), and it
   * is missing exactly when that segment is empty.
   */
  lemma LastSegment(request: HttpRequest, requestString: string)
    requires IndexOf(requestString, request.pathWithoutQuery) >= 0
    ensures var path := request.pathWithoutQuery;
      var p := IndexOf(requestString, path);
      var rs := UrlRanges(request, requestString, false);
      && (rs == [] <==> EmptyLastSegment(path))
      && (rs != [] ==> IsLastSegment(path, rs[0].start - p, rs[0].end - p))
  {
    var path := request.pathWithoutQuery;
    var p := IndexOf(requestString, path);
    var rs := UrlRanges(request, requestString, false);
    SegmentOfShape(path);
  }

  lemma ExampleRequestLine()
    ensures IndexOf("GET /api/users/ HTTP/1.1", "/api/users/") == 4
  {
    var requestString := "GET /api/users/ HTTP/1.1";
    var path := "/api/users/";
    assert requestString[4..4 + |path|] == path;
    assert OccursAt(requestString, path, 4);
    IndexOfFirst(requestString, path);
    forall k | 0 <= k < 4 ensures !OccursAt(requestString, path, k) {
      assert requestString[k..k + |path|][0] == requestString[k] != '/';
    }
  }

  lemma ExampleLastSlash()
    ensures LastIndexOfChar("/api/users", '/') == 4
  {
    var w := "/api/users";
    LastIndexOfCharLast(w, '/');
    assert w[4] == '/' && forall j :: 5 <= j < |w| ==> w[j] != '/';
  }

  /** "/api/users/" in last-segment mode gives "users". */
  lemma TrailingSlashExample()
    ensures var request := HttpRequest("GET", "/api/users/", [], [], "");
      var requestString := "GET /api/users/ HTTP/1.1";
      UrlRanges(request, requestString, false) == [Range(9, 14)] && requestString[9..14] == "users"
  {
    ExampleRequestLine();
    ExampleLastSlash();
    var path := "/api/users/";
    assert path[..|path| - 1] == "/api/users";
  }
}

/**
 * Header values, located through the reconstructed "Name: Value" line:
 * each cookie value, the Authorization credential after its scheme, or the
 * whole value of any other header.
 */
module HeaderPositioner {
  import opened Wrappers
  import opened Text
  import opened Ranges
  import opened Http

  function HeaderLine(h: Header): string
  {
    h.name + ": " + h.value
  }

  /** Cookie handling: the name is "Cookie" ignoring case, or contains lowercase "cookie". */
  predicate IsCookieHeader(name: string)
  {
    EqualsIgnoreCase(name, "Cookie") || Contains(name, "cookie")
  }

  /** String.split(" ", 2): the text before the first space and the rest, or the whole value. */
  function SplitAtFirstSpace(value: string): (parts: seq<string>)
    ensures |parts| == 2 <==> ' ' in value
  {
    var space := IndexOfCharFrom(value, ' ', 0);
    IndexOfCharFromFirst(value, ' ', 0);
    if space < 0 then [value] else [value[..space], value[space + 1..]]
  }

  /**
   * The range for one "; "-separated cookie pair: only when '=' is neither
   * first nor last; it starts after the '=' inside the pair's first
   * occurrence in the header value and is as long as the trimmed value; it is
   * kept only inside [valueStart, lineEnd].
   */
  function CookiePairRange(headerValue: string, pair: string, valueStart: int, lineEnd: int): (r: Option<Range>)
    ensures r.Some? ==> valueStart <= r.value.start <= r.value.end <= lineEnd
  {
    var equalPos := IndexOfCharFrom(pair, '=', 0);
    if equalPos > 0 && equalPos < |pair| - 1 then
      var value := Trim(pair[equalPos + 1..]);
      var pairStart := IndexOf(headerValue, pair);
      if pairStart >= 0 then
        var actualValueStart := valueStart + pairStart + equalPos + 1;
        var actualValueEnd := actualValueStart + |value|;
        if actualValueStart >= valueStart && actualValueEnd <= lineEnd then
          Some(Range(actualValueStart, actualValueEnd))
        else None
      else None
    else None
  }

  function CookieRanges(headerValue: string, pairs: seq<string>, valueStart: int, lineEnd: int): seq<Range>
  {
    if pairs == [] then []
    else
      var last := CookiePairRange(headerValue, pairs[|pairs| - 1], valueStart, lineEnd);
      CookieRanges(headerValue, pairs[..|pairs| - 1], valueStart, lineEnd) + (if last.Some? then [last.value] else [])
  }

  /** A cookie pair whose first '=' is neither its first nor its last character. */
  predicate WellFormedPair(pair: string)
  {
    0 < IndexOfCharFrom(pair, '=', 0) < |pair| - 1
  }

  /** The well-formed pairs, in order. */
  function WellFormedPairs(pairs: seq<string>): (wf: seq<string>)
    ensures forall p :: p in wf ==> p in pairs && WellFormedPair(p)
  {
    if pairs == [] then []
    else
      var last := pairs[|pairs| - 1];
      WellFormedPairs(pairs[..|pairs| - 1]) + (if WellFormedPair(last) then [last] else [])
  }

  /**
   * `rs` holds one range per pair of `wf`, in order: the value range
   * CookiePairRange finds for that pair in a value starting at `valueStart`.
   */
  predicate RangesOfPairs(headerValue: string, wf: seq<string>, valueStart: int, rs: seq<Range>)
  {
    && |rs| == |wf|
    && forall k :: 0 <= k < |rs| ==> CookiePairRange(headerValue, wf[k], valueStart, valueStart + |headerValue|) == Some(rs[k])
  }

  /** What add appends for one header. */
  function HeaderRanges(h: Header, requestString: string): seq<Range>
  {
    var headerLine := HeaderLine(h);
    var headerStart := IndexOf(requestString, headerLine);
    if headerStart < 0 then []
    else
      var valueStart := headerStart + |h.name| + 2;
      var lineEnd := headerStart + |headerLine|;
      if IsCookieHeader(h.name) then
        CookieRanges(h.value, Split(h.value, "; "), valueStart, lineEnd)
      else if EqualsIgnoreCase(h.name, "Authorization") then
        var parts := SplitAtFirstSpace(h.value);
        if |parts| == 2 then [Range(valueStart + |parts[0]| + 1, lineEnd)]
        else [Range(valueStart, lineEnd)]
      else [Range(valueStart, lineEnd)]
  }

  /** What add appends for the headers in order. */
  function AllHeaderRanges(headers: seq<Header>, requestString: string): seq<Range>
  {
    if headers == [] then []
    else AllHeaderRanges(headers[..|headers| - 1], requestString) + HeaderRanges(headers[|headers| - 1], requestString)
  }

  /** add(request, requestString, positions): the loop over the headers. */
  method Add(request: HttpRequest, requestString: string, positions: RangeList)
    modifies positions
    ensures positions.items == old(positions.items) + AllHeaderRanges(request.headers, requestString)
  {
    var headers := request.headers;
    var i := 0;
    while i < |headers|
      invariant 0 <= i <= |headers|
      invariant positions.items == old(positions.items) + AllHeaderRanges(headers[..i], requestString)
    {
      assert headers[..i + 1][..i] == headers[..i];
      AddHeader(headers[i], requestString, positions);
      i := i + 1;
    }
    assert headers[..i] == headers;
  }

  /** The body of add's loop for one header. */
  method AddHeader(header: Header, requestString: string, positions: RangeList)
    modifies positions
    ensures positions.items == old(positions.items) + HeaderRanges(header, requestString)
  {
    var headerLine := header.name + ": " + header.value;
    var headerStart := IndexOf(requestString, headerLine);
    if headerStart < 0 {
      return;
    }

    var headerValue := header.value;
    var valueStart := headerStart + |header.name| + 2;

    if EqualsIgnoreCase(header.name, "Cookie") || Contains(header.name, "cookie") {
      AddCookiePairs(headerValue, valueStart, headerStart + |headerLine|, positions);
    } else if EqualsIgnoreCase(header.name, "Authorization") {
      var parts := SplitAtFirstSpace(headerValue);
      if |parts| == 2 {
        var tokenStart := valueStart + |parts[0]| + 1;
        var tokenEnd := headerStart + |headerLine|;
        positions.Add(Range(tokenStart, tokenEnd));
      } else {
        positions.Add(Range(valueStart, headerStart + |headerLine|));
      }
    } else {
      positions.Add(Range(valueStart, headerStart + |headerLine|));
    }
  }

  /** The cookie branch of add: the loop over the "; "-separated pairs. */
  method AddCookiePairs(headerValue: string, valueStart: int, lineEnd: int, positions: RangeList)
    modifies positions
    ensures positions.items == old(positions.items) + CookieRanges(headerValue, Split(headerValue, "; "), valueStart, lineEnd)
  {
    var pairs := Split(headerValue, "; ");
    var j := 0;
    while j < |pairs|
      invariant 0 <= j <= |pairs|
      invariant positions.items == old(positions.items) + CookieRanges(headerValue, pairs[..j], valueStart, lineEnd)
    {
      AddCookiePair(headerValue, pairs[j], valueStart, lineEnd, positions);
      CookieRangesStep(headerValue, pairs, j, valueStart, lineEnd);
      j := j + 1;
    }
    assert pairs[..j] == pairs;
  }

  /** One more pair adds its range, if it has one, at the end. */
  lemma CookieRangesStep(headerValue: string, pairs: seq<string>, j: int, valueStart: int, lineEnd: int)
    requires 0 <= j < |pairs|
    ensures var r := CookiePairRange(headerValue, pairs[j], valueStart, lineEnd);
      CookieRanges(headerValue, pairs[..j + 1], valueStart, lineEnd)
      == CookieRanges(headerValue, pairs[..j], valueStart, lineEnd) + (if r.Some? then [r.value] else [])
  {
    assert pairs[..j + 1][..j] == pairs[..j];
  }

  /** The body of the cookie loop for one pair. */
  method AddCookiePair(headerValue: string, pair: string, valueStart: int, lineEnd: int, positions: RangeList)
    modifies positions
    ensures var r := CookiePairRange(headerValue, pair, valueStart, lineEnd);
      positions.items == old(positions.items) + (if r.Some? then [r.value] else [])
  {
    var equalPos := IndexOfCharFrom(pair, '=', 0);
    if equalPos > 0 && equalPos < |pair| - 1 {
      var value := Trim(pair[equalPos + 1..]);
      var pairStart := IndexOf(headerValue, pair);
      if pairStart >= 0 {
        var actualValueStart := valueStart + pairStart + equalPos + 1;
        var actualValueEnd := actualValueStart + |value|;
        if actualValueStart >= valueStart && actualValueEnd <= lineEnd {
          positions.Add(Range(actualValueStart, actualValueEnd));
        }
      }
    }
  }

  /** Where the header value sits inside the request text, given the line's occurrence. */
  lemma ValueInsideLine(h: Header, requestString: string, headerStart: int)
    requires OccursAt(requestString, HeaderLine(h), headerStart)
    ensures OccursAt(requestString, h.value, headerStart + |h.name| + 2)
  {
    var line := HeaderLine(h);
    OccurrenceSlice(requestString, line, headerStart, |h.name| + 2, |line|);
    assert line[|h.name| + 2..] == h.value;
  }

  /**
   * Nothing is added for a header whose "Name: Value" line does not occur;
   * otherwise every range lies inside the value part of the line's first
   * occurrence, and a header other than a cookie header gets exactly one.
   */
  lemma HeaderRangesWithin(h: Header, requestString: string)
    ensures var rs := HeaderRanges(h, requestString);
      var p := IndexOf(requestString, HeaderLine(h));
      && ((forall k :: !OccursAt(requestString, HeaderLine(h), k)) ==> rs == [])
      && (p >= 0 ==> AllWithin(rs, p + |h.name| + 2, p + |h.name| + 2 + |h.value|))
      && (p >= 0 && !IsCookieHeader(h.name) ==> |rs| == 1)
  {
    var line := HeaderLine(h);
    var p := IndexOf(requestString, line);
    IndexOfFirst(requestString, line);
    if p >= 0 && IsCookieHeader(h.name) {
      var valueStart := p + |h.name| + 2;
      CookieRangesWithin(h.value, Split(h.value, "; "), valueStart, valueStart + |h.value|);
    }
  }

  /** A header other than Cookie and Authorization: the range covers exactly its value. */
  lemma PlainHeaderValue(h: Header, requestString: string)
    requires IndexOf(requestString, HeaderLine(h)) >= 0
    requires !IsCookieHeader(h.name) && !EqualsIgnoreCase(h.name, "Authorization")
    ensures var rs := HeaderRanges(h, requestString);
      |rs| == 1 && requestString[rs[0].start..rs[0].end] == h.value
  {
    var p := IndexOf(requestString, HeaderLine(h));
    IndexOfFirst(requestString, HeaderLine(h));
    ValueInsideLine(h, requestString, p);
    OccurrenceSlice(requestString, h.value, p + |h.name| + 2, 0, |h.value|);
  }

  /**
   * Authorization with a space in the value: the range covers the text after
   * the first space (the credential after its scheme).
   */
  lemma AuthorizationCredential(h: Header, requestString: string)
    requires IndexOf(requestString, HeaderLine(h)) >= 0
    requires !IsCookieHeader(h.name) && EqualsIgnoreCase(h.name, "Authorization")
    requires ' ' in h.value
    ensures var rs := HeaderRanges(h, requestString);
      |rs| == 1 && requestString[rs[0].start..rs[0].end] == h.value[IndexOfCharFrom(h.value, ' ', 0) + 1..]
  {
    var p := IndexOf(requestString, HeaderLine(h));
    var space := IndexOfCharFrom(h.value, ' ', 0);
    assert HeaderRanges(h, requestString) == [Range(p + |h.name| + 2 + space + 1, p + |HeaderLine(h)|)] by {
      assert SplitAtFirstSpace(h.value) == [h.value[..space], h.value[space + 1..]];
    }
    ValueSuffix(h, requestString, space + 1);
  }

  /** The text from offset `a` of the value to the end of the line's first occurrence. */
  lemma ValueSuffix(h: Header, requestString: string, a: nat)
    requires IndexOf(requestString, HeaderLine(h)) >= 0
    requires a <= |h.value|
    ensures var p := IndexOf(requestString, HeaderLine(h));
      p + |HeaderLine(h)| <= |requestString| &&
      requestString[p + |h.name| + 2 + a..p + |HeaderLine(h)|] == h.value[a..]
  {
    var p := IndexOf(requestString, HeaderLine(h));
    IndexOfFirst(requestString, HeaderLine(h));
    ValueInsideLine(h, requestString, p);
    OccurrenceSlice(requestString, h.value, p + |h.name| + 2, a, |h.value|);
  }

  /** Authorization without a space in the value: the range covers the whole value. */
  lemma AuthorizationWithoutScheme(h: Header, requestString: string)
    requires IndexOf(requestString, HeaderLine(h)) >= 0
    requires !IsCookieHeader(h.name) && EqualsIgnoreCase(h.name, "Authorization")
    requires ' ' !in h.value
    ensures var rs := HeaderRanges(h, requestString);
      |rs| == 1 && requestString[rs[0].start..rs[0].end] == h.value
  {
    var p := IndexOf(requestString, HeaderLine(h));
    IndexOfFirst(requestString, HeaderLine(h));
    ValueInsideLine(h, requestString, p);
    OccurrenceSlice(requestString, h.value, p + |h.name| + 2, 0, |h.value|);
  }

  lemma {:induction false} CookieRangesWithin(headerValue: string, pairs: seq<string>, valueStart: int, lineEnd: int)
    ensures AllWithin(CookieRanges(headerValue, pairs, valueStart, lineEnd), valueStart, lineEnd)
  {
    if pairs != [] {
      CookieRangesWithin(headerValue, pairs[..|pairs| - 1], valueStart, lineEnd);
    }
  }

  /**
   * A cookie range starts just after the pair's '=' within the pair's first
   * occurrence in the header value and is as long as the trimmed value: it
   * covers the first |trimmed| characters after the '='; those are the
   * trimmed value itself when the value does not start with a trimmable
   * character.
   */
  lemma CookiePairText(requestString: string, headerValue: string, pair: string, valueStart: int, lineEnd: int)
    requires OccursAt(requestString, headerValue, valueStart)
    ensures var r := CookiePairRange(headerValue, pair, valueStart, lineEnd);
      var equalPos := IndexOfCharFrom(pair, '=', 0);
      var value := Trim(pair[equalPos + 1..]);
      r.Some? ==>
        && 0 < equalPos < |pair| - 1
        && r.value.Length() == |value|
        && requestString[r.value.start..r.value.end] == pair[equalPos + 1..equalPos + 1 + |value|]
        && (!IsTrimmable(pair[equalPos + 1]) ==> requestString[r.value.start..r.value.end] == value)
  {
    var r := CookiePairRange(headerValue, pair, valueStart, lineEnd);
    if r.Some? {
      var equalPos := IndexOfCharFrom(pair, '=', 0);
      var rest := pair[equalPos + 1..];
      var value := Trim(rest);
      var pairStart := IndexOf(headerValue, pair);
      var a := equalPos + 1;
      var b := equalPos + 1 + |value|;
      assert r.value == Range(valueStart + pairStart + a, valueStart + pairStart + b);
      TrimmedPrefix(pair, a);
      assert OccursAt(headerValue, pair, pairStart) by {
        IndexOfFirst(headerValue, pair);
      }
      NestedOccurrenceSlice(requestString, headerValue, pair, valueStart, pairStart, a, b);
    }
  }

  /**
   * A pair that occurs in the header value gets a range exactly when it is
   * well formed: the trimmed value never reaches past the pair, so the bounds
   * test on the line end never rejects it.
   */
  lemma CookiePairPresent(headerValue: string, pair: string, valueStart: int)
    requires exists j :: OccursAt(headerValue, pair, j)
    ensures CookiePairRange(headerValue, pair, valueStart, valueStart + |headerValue|).Some? <==> WellFormedPair(pair)
  {
    IndexOfFirst(headerValue, pair);
    if WellFormedPair(pair) {
      TrimmedPrefix(pair, IndexOfCharFrom(pair, '=', 0) + 1);
    }
  }

  /**
   * When every pair occurs in the header value, the cookie ranges are the
   * ranges of the well-formed pairs, one each and in the same order.
   */
  lemma {:induction false} CookieRangesComplete(headerValue: string, pairs: seq<string>, valueStart: int)
    requires forall p :: p in pairs ==> exists j :: OccursAt(headerValue, p, j)
    ensures RangesOfPairs(headerValue, WellFormedPairs(pairs), valueStart,
                          CookieRanges(headerValue, pairs, valueStart, valueStart + |headerValue|))
  {
    if pairs != [] {
      var lineEnd := valueStart + |headerValue|;
      var init := pairs[..|pairs| - 1];
      var last := pairs[|pairs| - 1];
      assert forall p :: p in init ==> p in pairs;
      CookieRangesComplete(headerValue, init, valueStart);
      assert last in pairs;
      CookiePairPresent(headerValue, last, valueStart);
      var rs0 := CookieRanges(headerValue, init, valueStart, lineEnd);
      var wf0 := WellFormedPairs(init);
      var r := CookiePairRange(headerValue, last, valueStart, lineEnd);
      if WellFormedPair(last) {
        assert CookieRanges(headerValue, pairs, valueStart, lineEnd) == rs0 + [r.value];
        assert WellFormedPairs(pairs) == wf0 + [last];
      } else {
        assert CookieRanges(headerValue, pairs, valueStart, lineEnd) == rs0;
        assert WellFormedPairs(pairs) == wf0;
      }
    }
  }

  /**
   * A located cookie header: its ranges correspond one to one, in order, to
   * the pairs of `Split(value, "; ")` whose '=' is neither first nor last,
   * each range being that pair's value range.
   */
  lemma CookieHeaderRanges(h: Header, requestString: string)
    requires IndexOf(requestString, HeaderLine(h)) >= 0 && IsCookieHeader(h.name)
    ensures RangesOfPairs(h.value, WellFormedPairs(Split(h.value, "; ")),
                          IndexOf(requestString, HeaderLine(h)) + |h.name| + 2, HeaderRanges(h, requestString))
  {
    var valueStart := IndexOf(requestString, HeaderLine(h)) + |h.name| + 2;
    var pairs := Split(h.value, "; ");
    SplitOccurs(h.value, "; ");
    CookieRangesComplete(h.value, pairs, valueStart);
    CookieHeaderValueRanges(h, requestString);
  }

  /** `Cookie: a=1; b=2` yields one range per pair: the "1" and the "2". */
  lemma TwoCookiePairs(h: Header, requestString: string)
    requires h == Header("Cookie", "a=1; b=2") && requestString == "Cookie: a=1; b=2"
    ensures HeaderRanges(h, requestString) == [Range(10, 11), Range(15, 16)]
  {
    var v := h.value;
    CookieHeaderAtStart();
    CookieHeaderValueRanges(h, requestString);
    SplitTwoPairs();
    assert CookieRanges(v, ["a=1", "b=2"], 8, 16) == [Range(10, 11), Range(15, 16)] by {
      FirstPairRange();
      SecondPairRange();
      assert ["a=1", "b=2"][..1] == ["a=1"];
      assert CookieRanges(v, ["a=1"], 8, 16) == [Range(10, 11)];
    }
  }

  lemma CookieHeaderAtStart()
    ensures IsCookieHeader("Cookie")
    ensures IndexOf("Cookie: a=1; b=2", HeaderLine(Header("Cookie", "a=1; b=2"))) == 0
  {
    var requestString := "Cookie: a=1; b=2";
    var line := HeaderLine(Header("Cookie", "a=1; b=2"));
    assert EqualsIgnoreCase("Cookie", "Cookie");
    assert line == requestString;
    assert OccursAt(requestString, line, 0);
    IndexOfFirst(requestString, line);
  }

  lemma SplitTwoPairs()
    ensures Split("a=1; b=2", "; ") == ["a=1", "b=2"]
  {
    var v := "a=1; b=2";
    assert OccursAt(v, "; ", 3);
    IndexOfFirst(v, "; ");
    assert IndexOf(v, "; ") == 3 by {
      assert forall j :: 0 <= j < 3 ==> v[j] != ';';
    }
    assert v[..3] == "a=1" && v[5..] == "b=2";
    IndexOfFirst("b=2", "; ");
    assert IndexOf("b=2", "; ") == -1 by {
      assert forall j :: 0 <= j < 3 ==> "b=2"[j] != ';';
    }
    assert SplitAll("b=2", "; ") == ["b=2"];
    assert SplitAll(v, "; ") == ["a=1"] + SplitAll("b=2", "; ");
  }

  lemma FirstPairRange()
    ensures CookiePairRange("a=1; b=2", "a=1", 8, 16) == Some(Range(10, 11))
  {
    var v := "a=1; b=2";
    assert IndexOfCharFrom("a=1", '=', 0) == 1;
    assert Trim("a=1"[2..]) == "1";
    assert OccursAt(v, "a=1", 0);
    IndexOfFirst(v, "a=1");
  }

  lemma SecondPairRange()
    ensures CookiePairRange("a=1; b=2", "b=2", 8, 16) == Some(Range(15, 16))
  {
    var v := "a=1; b=2";
    assert IndexOfCharFrom("b=2", '=', 0) == 1;
    assert Trim("b=2"[2..]) == "2";
    assert OccursAt(v, "b=2", 5);
    IndexOfFirst(v, "b=2");
    assert forall j :: 0 <= j < 5 ==> v[j] != 'b';
  }

  /** A located cookie header yields the cookie ranges of its "; "-separated pairs. */
  lemma CookieHeaderValueRanges(h: Header, requestString: string)
    requires IndexOf(requestString, HeaderLine(h)) >= 0 && IsCookieHeader(h.name)
    ensures var valueStart := IndexOf(requestString, HeaderLine(h)) + |h.name| + 2;
      HeaderRanges(h, requestString) == CookieRanges(h.value, Split(h.value, "; "), valueStart, valueStart + |h.value|)
  {
  }

  /** A slice of an occurrence inside an occurrence is the same slice of the inner text. */
  lemma NestedOccurrenceSlice(s: string, outer: string, inner: string, k: int, j: int, a: int, b: int)
    requires OccursAt(s, outer, k) && OccursAt(outer, inner, j)
    requires 0 <= a <= b <= |inner|
    ensures 0 <= k + j + a <= k + j + b <= |s|
    ensures s[k + j + a..k + j + b] == inner[a..b]
  {
    OccurrenceSlice(outer, inner, j, a, b);
    OccurrenceSlice(s, outer, k, j + a, j + b);
  }

  /** A value not starting with a trimmable character trims to a prefix of itself. */
  lemma TrimmedPrefix(pair: string, a: nat)
    requires a < |pair|
    ensures |Trim(pair[a..])| <= |pair| - a
    ensures !IsTrimmable(pair[a]) ==> Trim(pair[a..]) == pair[a..a + |Trim(pair[a..])|]
  {
    var rest := pair[a..];
    TrimStartSpec(rest);
    TrimEndSpec(TrimStart(rest));
    if !IsTrimmable(rest[0]) {
      assert TrimStart(rest) == rest;
      assert rest[..|Trim(rest)|] == pair[a..a + |Trim(rest)|];
    }
  }

  /** All header ranges lie inside the request text. */
  lemma {:induction false} AllHeaderRangesWithin(headers: seq<Header>, requestString: string)
    ensures AllWithin(AllHeaderRanges(headers, requestString), 0, |requestString|)
  {
    if headers != [] {
      var h := headers[|headers| - 1];
      AllHeaderRangesWithin(headers[..|headers| - 1], requestString);
      HeaderRangesWithin(h, requestString);
      var p := IndexOf(requestString, HeaderLine(h));
      if p >= 0 {
        IndexOfFirst(requestString, HeaderLine(h));
        ValueInsideLine(h, requestString, p);
      }
      AllWithinConcat(AllHeaderRanges(headers[..|headers| - 1], requestString), HeaderRanges(h, requestString), 0, |requestString|);
    }
  }
}

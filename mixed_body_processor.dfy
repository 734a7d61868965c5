/**
 * The scanner for bodies that are neither JSON nor XML: bracketed JSON
 * snippets go to the JSON processor, markup snippets to the XML walker, and
 * every `key=value` value becomes a range. The three passes run one after
 * the other over the same body, each with its own cap.
 */
module MixedBodyProcessor {
  import opened Wrappers
  import opened Text
  import opened SeqLemmas
  import opened Ranges
  import opened RegexOracles
  import opened JsonParser
  import JsonBodyProcessor
  import XmlBodyProcessor

  /** At most this many JSON snippets per call. */
  const MAX_JSON_SNIPPETS: nat := 20
  /** At most this many markup snippets per call. */
  const MAX_XML_SNIPPETS: nat := 20
  /** At most this many key=value values per call. */
  const MAX_KEY_VALUE_MATCHES: nat := 30

  /** The two snippet patterns the scanner compiles. */
  datatype MixedMatchers = MixedMatchers(jsonSnippets: JsonSnippetFinder, xmlSnippets: XmlSnippetFinder)
  {
    /** Both finders keep to their pattern's shape. */
    ghost predicate Valid()
    {
      FindsJsonSnippets(jsonSnippets) && FindsXmlSnippets(xmlSnippets)
    }
  }

  // ---------------------------------------------------------------------------
  // ([\w\-]+)=([^&\s]+), matched by hand
  // ---------------------------------------------------------------------------

  /** [\w\-]: an ASCII letter or digit, '_' or '-'. */
  predicate IsKeyChar(c: char)
  {
    'a' <= c <= 'z' || 'A' <= c <= 'Z' || '0' <= c <= '9' || c == '_' || c == '-'
  }

  /** [^&\s] */
  predicate IsValueChar(c: char)
  {
    c != '&' && !IsRegexWhitespace(c)
  }

  /** The end of the run of key characters from i. */
  function KeyRunEnd(s: string, i: nat): (j: nat)
    requires i <= |s|
    ensures i <= j <= |s|
    decreases |s| - i
  {
    if i < |s| && IsKeyChar(s[i]) then KeyRunEnd(s, i + 1) else i
  }

  /** The end of the run of value characters from i. */
  function ValueRunEnd(s: string, i: nat): (j: nat)
    requires i <= |s|
    ensures i <= j <= |s|
    ensures i < |s| && IsValueChar(s[i]) ==> i < j
    decreases |s| - i
  {
    if i < |s| && IsValueChar(s[i]) then ValueRunEnd(s, i + 1) else i
  }

  /** Every character in [i, KeyRunEnd) is a key character and the run cannot be extended. */
  lemma {:induction false} KeyRunEndSpec(s: string, i: nat)
    requires i <= |s|
    ensures var j := KeyRunEnd(s, i);
      (forall k :: i <= k < j ==> IsKeyChar(s[k])) && (j == |s| || !IsKeyChar(s[j]))
    decreases |s| - i
  {
    if i < |s| && IsKeyChar(s[i]) {
      KeyRunEndSpec(s, i + 1);
    }
  }

  /** Every character in [i, ValueRunEnd) is a value character and the run cannot be extended. */
  lemma {:induction false} ValueRunEndSpec(s: string, i: nat)
    requires i <= |s|
    ensures var j := ValueRunEnd(s, i);
      (forall k :: i <= k < j ==> IsValueChar(s[k])) && (j == |s| || !IsValueChar(s[j]))
    decreases |s| - i
  {
    if i < |s| && IsValueChar(s[i]) {
      ValueRunEndSpec(s, i + 1);
    }
  }

  /** A match: where it starts and the span of group 2, the value. */
  datatype KeyValueMatch = KeyValueMatch(start: nat, valueStart: nat, valueEnd: nat)

  /**
   * The match the pattern makes when tried at p: the longest key run from p
   * must stop at '=' and the longest value run after it must not be empty.
   */
  function MatchAt(s: string, p: nat): Option<KeyValueMatch>
    requires p <= |s|
  {
    if p < |s| && IsKeyChar(s[p]) then
      var eq := KeyRunEnd(s, p);
      if eq + 1 < |s| && s[eq] == '=' && IsValueChar(s[eq + 1])
      then Some(KeyValueMatch(p, eq + 1, ValueRunEnd(s, eq + 1)))
      else None
    else None
  }

  /** Matcher.find(): the match at the first position from `from` where there is one. */
  function FindKeyValue(s: string, from: nat): (m: Option<KeyValueMatch>)
    requires from <= |s|
    ensures m.Some? ==> from <= m.value.start < m.value.valueStart < m.value.valueEnd <= |s|
    decreases |s| - from
  {
    if from == |s| then None
    else
      match MatchAt(s, from)
      case Some(m) => Some(m)
      case None => FindKeyValue(s, from + 1)
  }

  /**
   * The pattern, stated on its own: a non-empty key run from p up to '=' at
   * vs - 1, then the value [vs, ve), non-empty, of value characters only, and
   * as long as it can be.
   */
  predicate KeyValueAt(s: string, p: int, vs: int, ve: int)
  {
    && 0 <= p < vs - 1 && vs < ve <= |s|
    && (forall k :: p <= k < vs - 1 ==> IsKeyChar(s[k]))
    && s[vs - 1] == '='
    && (forall k :: vs <= k < ve ==> IsValueChar(s[k]))
    && (ve == |s| || !IsValueChar(s[ve]))
  }

  /** MatchAt finds exactly the match the pattern describes, and finds none where it describes none. */
  lemma MatchAtSpec(s: string, p: nat)
    requires p <= |s|
    ensures MatchAt(s, p).Some? ==>
      var m := MatchAt(s, p).value;
      m.start == p && KeyValueAt(s, p, m.valueStart, m.valueEnd)
    ensures forall vs, ve :: KeyValueAt(s, p, vs, ve) ==> MatchAt(s, p) == Some(KeyValueMatch(p, vs, ve))
  {
    if p < |s| {
      KeyRunEndSpec(s, p);
      var eq := KeyRunEnd(s, p);
      if eq + 1 < |s| {
        ValueRunEndSpec(s, eq + 1);
      }
      forall vs, ve | KeyValueAt(s, p, vs, ve) ensures MatchAt(s, p) == Some(KeyValueMatch(p, vs, ve)) {
        ValueRunEndSpec(s, vs);
      }
    }
  }

  /**
   * find() from `from` reports the leftmost match at or after `from`, and
   * reports none exactly when there is none.
   */
  lemma {:induction false} FindKeyValueSpec(s: string, from: nat)
    requires from <= |s|
    ensures var m := FindKeyValue(s, from);
      && (m.Some? ==> KeyValueAt(s, m.value.start, m.value.valueStart, m.value.valueEnd))
      && (m.Some? ==> forall p, vs, ve :: from <= p < m.value.start ==> !KeyValueAt(s, p, vs, ve))
      && (m.None? ==> forall p, vs, ve :: from <= p ==> !KeyValueAt(s, p, vs, ve))
    decreases |s| - from
  {
    MatchAtSpec(s, from);
    if from < |s| && MatchAt(s, from).None? {
      FindKeyValueSpec(s, from + 1);
    }
  }

  /** What the key=value pass appends: the value of each match from `from`, up to 30 in all. */
  function KeyValueRanges(s: string, base: int, from: nat, count: nat): seq<Range>
    requires from <= |s|
    decreases |s| - from
  {
    match FindKeyValue(s, from)
    case None => []
    case Some(m) =>
      if count >= MAX_KEY_VALUE_MATCHES then []
      else [Range(base + m.valueStart, base + m.valueEnd)] + KeyValueRanges(s, base, m.valueEnd, count + 1)
  }

  /** [a, b) is a whole non-empty value run that follows '=' and a key character. */
  predicate IsValueAfterKey(s: string, a: int, b: int)
  {
    && 2 <= a < b <= |s|
    && s[a - 1] == '=' && IsKeyChar(s[a - 2])
    && (forall c :: c in s[a..b] ==> IsValueChar(c))
    && (b == |s| || !IsValueChar(s[b]))
  }

  /**
   * No more than 30 values in all; each is a whole value run after `key=`,
   * at or after `from`; and they come in ascending order without overlap.
   */
  lemma {:induction false} KeyValueRangesSpec(s: string, base: int, from: nat, count: nat)
    requires from <= |s|
    ensures var rs := KeyValueRanges(s, base, from, count);
      && count + |rs| <= (if count > MAX_KEY_VALUE_MATCHES then count else MAX_KEY_VALUE_MATCHES)
      && (forall r :: r in rs ==> base + from <= r.start && IsValueAfterKey(s, r.start - base, r.end - base))
      && SortedDisjoint(rs)
    decreases |s| - from
  {
    var m := FindKeyValue(s, from);
    if m.Some? && count < MAX_KEY_VALUE_MATCHES {
      var vs, ve := m.value.valueStart, m.value.valueEnd;
      var rest := KeyValueRanges(s, base, ve, count + 1);
      assert KeyValueRanges(s, base, from, count) == [Range(base + vs, base + ve)] + rest;
      KeyValueHead(s, from);
      KeyValueRangesSpec(s, base, ve, count + 1);
      KeyValueCons(s, base, from, count, vs, ve, rest);
    }
  }

  /** A value found at or after `from` in front of the values found after it keeps the properties of KeyValueRangesSpec. */
  lemma KeyValueCons(s: string, base: int, from: int, count: nat, vs: int, ve: int, rest: seq<Range>)
    requires count < MAX_KEY_VALUE_MATCHES
    requires count + 1 + |rest| <= (if count + 1 > MAX_KEY_VALUE_MATCHES then count + 1 else MAX_KEY_VALUE_MATCHES)
    requires from <= vs && IsValueAfterKey(s, vs, ve)
    requires forall x :: x in rest ==> base + ve <= x.start && IsValueAfterKey(s, x.start - base, x.end - base)
    requires SortedDisjoint(rest)
    ensures var rs := [Range(base + vs, base + ve)] + rest;
      && count + |rs| <= (if count > MAX_KEY_VALUE_MATCHES then count else MAX_KEY_VALUE_MATCHES)
      && (forall x :: x in rs ==> base + from <= x.start && IsValueAfterKey(s, x.start - base, x.end - base))
      && SortedDisjoint(rs)
  {
    var r := Range(base + vs, base + ve);
    assert r.start - base == vs && r.end - base == ve;
    SortedCons(r, rest, base + ve);
  }

  /** The value find() reports is a whole value run after `key=`. */
  lemma KeyValueHead(s: string, from: nat)
    requires from <= |s| && FindKeyValue(s, from).Some?
    ensures var m := FindKeyValue(s, from).value; IsValueAfterKey(s, m.valueStart, m.valueEnd)
  {
    FindKeyValueSpec(s, from);
    var m := FindKeyValue(s, from).value;
    assert IsKeyChar(s[m.valueStart - 2]);
    forall c | c in s[m.valueStart..m.valueEnd] ensures IsValueChar(c) {
      var i :| 0 <= i < m.valueEnd - m.valueStart && s[m.valueStart..m.valueEnd][i] == c;
      assert c == s[m.valueStart + i];
    }
  }

  /** A range ending before everything in a sorted, disjoint list keeps it sorted and disjoint in front. */
  lemma SortedCons(r: Range, rs: seq<Range>, bound: int)
    requires r.end <= bound
    requires forall x :: x in rs ==> bound <= x.start
    requires SortedDisjoint(rs)
    ensures SortedDisjoint([r] + rs)
  {
    forall i, j | 0 <= i < j < |[r] + rs| ensures ([r] + rs)[i].end <= ([r] + rs)[j].start {
      if i > 0 {
        assert ([r] + rs)[i] == rs[i - 1];
      }
      assert ([r] + rs)[j] == rs[j - 1];
    }
  }

  // ---------------------------------------------------------------------------
  // The snippet passes
  // ---------------------------------------------------------------------------

  /** Every span lies inside the body. */
  predicate SpansInside(body: string, ms: seq<SpanMatch>)
  {
    forall i :: 0 <= i < |ms| ==> 0 <= ms[i].start <= ms[i].end <= |body|
  }

  /** The check made on a JSON candidate before it is forwarded. */
  predicate IsBracketed(candidate: string)
  {
    (StartsWith(candidate, "{") && EndsWith(candidate, "}")) || (StartsWith(candidate, "[") && EndsWith(candidate, "]"))
  }

  /** What one JSON candidate adds, the shared list holding `size` entries. */
  function SnippetJsonRanges(body: string, base: int, m: SpanMatch, size: nat, lib: JsonLibrary): seq<Range>
    requires 0 <= m.start <= m.end <= |body|
  {
    var candidate := body[m.start..m.end];
    if IsBracketed(candidate) then JsonBodyProcessor.ProcessRanges(candidate, base + m.start, size, lib) else []
  }

  /** The JSON forwarding of one match, as a function of the match and of the number of entries so far. */
  function SnippetStep(body: string, base: int, lib: JsonLibrary): (SpanMatch, nat) -> seq<Range>
  {
    (m: SpanMatch, size: nat) =>
      if 0 <= m.start <= m.end <= |body| then SnippetJsonRanges(body, base, m, size, lib) else []
  }

  /**
   * A pass over the matches from the count-th on that stops after the 20th:
   * each match adds step(match, entries so far).
   */
  function PassFrom(ms: seq<SpanMatch>, count: nat, size: nat, step: (SpanMatch, nat) -> seq<Range>): seq<Range>
    decreases |ms|
  {
    if ms == [] || count >= MAX_JSON_SNIPPETS then []
    else
      var added := step(ms[0], size);
      added + PassFrom(ms[1..], count + 1, size + |added|, step)
  }

  /** The JSON pass from the count-th match on, the shared list holding `size` entries. */
  function JsonPass(body: string, base: int, ms: seq<SpanMatch>, count: nat, size: nat, lib: JsonLibrary): seq<Range>
    requires SpansInside(body, ms)
  {
    PassFrom(ms, count, size, SnippetStep(body, base, lib))
  }

  /** The markup pass from the count-th match on. */
  function XmlPass(body: string, base: int, ms: seq<SpanMatch>, count: nat, xml: XmlBodyProcessor.XmlMatchers)
    : seq<Range>
    requires SpansInside(body, ms) && xml.Valid()
    decreases |ms|
  {
    if ms == [] || count >= MAX_XML_SNIPPETS then []
    else
      XmlBodyProcessor.XmlRanges(body[ms[0].start..ms[0].end], base + ms[0].start, xml)
      + XmlPass(body, base, ms[1..], count + 1, xml)
  }

  /** The markup pass runs only for a body holding both '<' and '>'. */
  predicate HasMarkup(body: string)
  {
    HasChar(body, '<') && HasChar(body, '>')
  }

  /**
   * What process(requestBody, requestBodyStart, positions) appends, the
   * shared list holding `size` entries: the JSON pass, the markup pass, then
   * the key=value pass.
   */
  function MixedRanges(body: string, base: int, size: nat, lib: JsonLibrary, xml: XmlBodyProcessor.XmlMatchers,
                       mm: MixedMatchers): seq<Range>
    requires xml.Valid() && mm.Valid()
  {
    assert Scanned(body);
    var jsonPart := JsonPass(body, base, mm.jsonSnippets(body), 0, size, lib);
    var xmlPart := if HasMarkup(body) then XmlPass(body, base, mm.xmlSnippets(body), 0, xml) else [];
    jsonPart + xmlPart + KeyValueRanges(body, base, 0, 0)
  }

  // ---------------------------------------------------------------------------
  // Properties
  // ---------------------------------------------------------------------------

  /** Every match of the JSON snippet pattern passes the bracket check, so every one is forwarded. */
  lemma BracketCheckHolds(s: string, m: SpanMatch)
    requires JsonSnippetShaped(s, m)
    ensures IsBracketed(s[m.start..m.end])
  {
    var c := s[m.start..m.end];
    assert c[..1] == [s[m.start]];
    assert c[|c| - 1..] == [s[m.end - 1]];
  }

  /** A pass stopping after the 20th match sees only the first 20 - count matches. */
  lemma {:induction false} PassFromCap(ms: seq<SpanMatch>, count: nat, size: nat, step: (SpanMatch, nat) -> seq<Range>)
    requires count <= MAX_JSON_SNIPPETS
    ensures var n := if |ms| < MAX_JSON_SNIPPETS - count then |ms| else MAX_JSON_SNIPPETS - count;
      PassFrom(ms, count, size, step) == PassFrom(ms[..n], count, size, step)
    decreases |ms|
  {
    var n := if |ms| < MAX_JSON_SNIPPETS - count then |ms| else MAX_JSON_SNIPPETS - count;
    if ms != [] && count < MAX_JSON_SNIPPETS {
      var added := step(ms[0], size);
      PassFromCap(ms[1..], count + 1, size + |added|, step);
      assert ms[..n][1..] == ms[1..][..n - 1];
    }
  }

  /** Only the first 20 JSON snippets count. */
  lemma JsonPassCap(body: string, base: int, ms: seq<SpanMatch>, count: nat, size: nat, lib: JsonLibrary)
    requires SpansInside(body, ms)
    requires count <= MAX_JSON_SNIPPETS
    ensures var n := if |ms| < MAX_JSON_SNIPPETS - count then |ms| else MAX_JSON_SNIPPETS - count;
      && SpansInside(body, ms[..n])
      && JsonPass(body, base, ms, count, size, lib) == JsonPass(body, base, ms[..n], count, size, lib)
  {
    PassFromCap(ms, count, size, SnippetStep(body, base, lib));
  }

  /** Only the first 20 markup snippets count. */
  lemma {:induction false} XmlPassCap(body: string, base: int, ms: seq<SpanMatch>, count: nat,
                                      xml: XmlBodyProcessor.XmlMatchers)
    requires SpansInside(body, ms) && xml.Valid()
    requires count <= MAX_XML_SNIPPETS
    ensures var n := if |ms| < MAX_XML_SNIPPETS - count then |ms| else MAX_XML_SNIPPETS - count;
      XmlPass(body, base, ms, count, xml) == XmlPass(body, base, ms[..n], count, xml)
    decreases |ms|
  {
    var n := if |ms| < MAX_XML_SNIPPETS - count then |ms| else MAX_XML_SNIPPETS - count;
    if ms != [] && count < MAX_XML_SNIPPETS {
      XmlPassCap(body, base, ms[1..], count + 1, xml);
      assert ms[..n][1..] == ms[1..][..n - 1];
    }
  }

  /** A pass whose every step stays inside [lo, hi] stays inside [lo, hi]. */
  lemma {:induction false} PassFromWithin(ms: seq<SpanMatch>, count: nat, size: nat,
                                          step: (SpanMatch, nat) -> seq<Range>, lo: int, hi: int)
    requires forall m, sz :: m in ms ==> AllWithin(step(m, sz), lo, hi)
    ensures AllWithin(PassFrom(ms, count, size, step), lo, hi)
    decreases |ms|
  {
    if ms != [] && count < MAX_JSON_SNIPPETS {
      var added := step(ms[0], size);
      assert ms[0] in ms;
      PassFromWithin(ms[1..], count + 1, size + |added|, step, lo, hi);
      AllWithinConcat(added, PassFrom(ms[1..], count + 1, size + |added|, step), lo, hi);
    }
  }

  /** Every range of the JSON pass lies inside the body. */
  lemma JsonPassWithin(body: string, base: int, ms: seq<SpanMatch>, count: nat, size: nat, lib: JsonLibrary)
    requires SpansInside(body, ms)
    ensures AllWithin(JsonPass(body, base, ms, count, size, lib), base, base + |body|)
  {
    var step := SnippetStep(body, base, lib);
    forall m, sz: nat | m in ms
      ensures AllWithin(step(m, sz), base, base + |body|)
    {
      var i :| 0 <= i < |ms| && ms[i] == m;
      SnippetWithin(body, base, m, sz, lib);
    }
    PassFromWithin(ms, count, size, step, base, base + |body|);
  }

  /** Every range one JSON candidate adds lies inside the body. */
  lemma SnippetWithin(body: string, base: int, m: SpanMatch, size: nat, lib: JsonLibrary)
    requires 0 <= m.start <= m.end <= |body|
    ensures AllWithin(SnippetJsonRanges(body, base, m, size, lib), base, base + |body|)
  {
    var candidate := body[m.start..m.end];
    JsonBodyProcessor.ProcessRangesBounded(candidate, base + m.start, size, lib);
  }

  /** Every range of the markup pass lies inside the body. */
  lemma {:induction false} XmlPassWithin(body: string, base: int, ms: seq<SpanMatch>, count: nat,
                                         xml: XmlBodyProcessor.XmlMatchers)
    requires SpansInside(body, ms) && xml.Valid()
    ensures AllWithin(XmlPass(body, base, ms, count, xml), base, base + |body|)
    decreases |ms|
  {
    if ms != [] && count < MAX_XML_SNIPPETS {
      var m := ms[0];
      var added := XmlBodyProcessor.XmlRanges(body[m.start..m.end], base + m.start, xml);
      XmlBodyProcessor.XmlRangesEmitted(body[m.start..m.end], base + m.start, xml);
      XmlPassWithin(body, base, ms[1..], count + 1, xml);
      AllWithinConcat(added, XmlPass(body, base, ms[1..], count + 1, xml), base, base + |body|);
    }
  }

  /** Every range the scanner adds lies inside the body; the key=value part is as KeyValueRangesSpec says. */
  lemma MixedRangesWithin(body: string, base: int, size: nat, lib: JsonLibrary, xml: XmlBodyProcessor.XmlMatchers,
                          mm: MixedMatchers)
    requires xml.Valid() && mm.Valid()
    ensures AllWithin(MixedRanges(body, base, size, lib, xml, mm), base, base + |body|)
  {
    assert Scanned(body);
    var jsonPart := JsonPass(body, base, mm.jsonSnippets(body), 0, size, lib);
    var xmlPart := if HasMarkup(body) then XmlPass(body, base, mm.xmlSnippets(body), 0, xml) else [];
    var keyValuePart := KeyValueRanges(body, base, 0, 0);
    JsonPassWithin(body, base, mm.jsonSnippets(body), 0, size, lib);
    if HasMarkup(body) {
      XmlPassWithin(body, base, mm.xmlSnippets(body), 0, xml);
    }
    KeyValueRangesSpec(body, base, 0, 0);
    AllWithinConcat(jsonPart, xmlPart, base, base + |body|);
    AllWithinConcat(jsonPart + xmlPart, keyValuePart, base, base + |body|);
  }

  // ---------------------------------------------------------------------------
  // process
  // ---------------------------------------------------------------------------

  /** process(requestBody, requestBodyStart, positions): the three passes in turn. */
  method Process(lib: JsonLibrary, xml: XmlBodyProcessor.XmlMatchers, mm: MixedMatchers,
                 requestBody: string, requestBodyStart: int, positions: RangeList)
    requires xml.Valid() && mm.Valid()
    modifies positions
    ensures positions.items == old(positions.items) + MixedRanges(requestBody, requestBodyStart, old(|positions.items|), lib, xml, mm)
  {
    assert Scanned(requestBody);
    ProcessJsonSnippets(lib, mm, requestBody, requestBodyStart, positions);
    ghost var afterJson := positions.items;
    if HasChar(requestBody, '<') && HasChar(requestBody, '>') {
      ProcessXmlSnippets(xml, mm, requestBody, requestBodyStart, positions);
    }
    ghost var afterXml := positions.items;
    ProcessKeyValues(requestBody, requestBodyStart, positions);
    ProcessParts(requestBody, requestBodyStart, lib, xml, mm, old(positions.items), afterJson, afterXml, positions.items);
  }

  /** The three passes in turn append exactly the scanner's ranges. */
  lemma ProcessParts(body: string, base: int, lib: JsonLibrary, xml: XmlBodyProcessor.XmlMatchers, mm: MixedMatchers,
                     start: seq<Range>, afterJson: seq<Range>, afterXml: seq<Range>, after: seq<Range>)
    requires xml.Valid() && mm.Valid()
    requires SpansInside(body, mm.jsonSnippets(body)) && SpansInside(body, mm.xmlSnippets(body))
    requires afterJson == start + JsonPass(body, base, mm.jsonSnippets(body), 0, |start|, lib)
    requires afterXml == afterJson + (if HasMarkup(body) then XmlPass(body, base, mm.xmlSnippets(body), 0, xml) else [])
    requires after == afterXml + KeyValueRanges(body, base, 0, 0)
    ensures after == start + MixedRanges(body, base, |start|, lib, xml, mm)
  {
    assert Scanned(body);
    var jsonPart := JsonPass(body, base, mm.jsonSnippets(body), 0, |start|, lib);
    var xmlPart := if HasMarkup(body) then XmlPass(body, base, mm.xmlSnippets(body), 0, xml) else [];
    var keyValuePart := KeyValueRanges(body, base, 0, 0);
    assert MixedRanges(body, base, |start|, lib, xml, mm) == jsonPart + xmlPart + keyValuePart;
    ConcatAssoc4(start, jsonPart, xmlPart, keyValuePart);
  }

  /** The JSON snippet loop of process. */
  method ProcessJsonSnippets(lib: JsonLibrary, mm: MixedMatchers, requestBody: string, requestBodyStart: int,
                             positions: RangeList)
    requires mm.Valid()
    modifies positions
    ensures SpansInside(requestBody, mm.jsonSnippets(requestBody))
    ensures positions.items == old(positions.items)
      + JsonPass(requestBody, requestBodyStart, mm.jsonSnippets(requestBody), 0, old(|positions.items|), lib)
  {
    var ms := mm.jsonSnippets(requestBody);
    assert Scanned(requestBody);
    ghost var all := JsonPass(requestBody, requestBodyStart, ms, 0, |positions.items|, lib);
    var matchCount := 0;
    while matchCount < |ms| && matchCount < MAX_JSON_SNIPPETS
      invariant 0 <= matchCount <= |ms|
      invariant positions.items + JsonPass(requestBody, requestBodyStart, ms[matchCount..], matchCount, |positions.items|, lib)
             == old(positions.items) + all
    {
      var m := ms[matchCount];
      ghost var before := positions.items;
      ProcessJsonSnippet(lib, requestBody, requestBodyStart, m, positions);
      JsonLoopStep(requestBody, requestBodyStart, ms, matchCount, lib, before, positions.items, old(positions.items) + all);
      matchCount := matchCount + 1;
    }
  }

  /** One JSON candidate: processed as JSON only when its brackets match at both ends. */
  method ProcessJsonSnippet(lib: JsonLibrary, requestBody: string, requestBodyStart: int, m: SpanMatch,
                            positions: RangeList)
    requires 0 <= m.start <= m.end <= |requestBody|
    modifies positions
    ensures positions.items == old(positions.items)
      + SnippetJsonRanges(requestBody, requestBodyStart, m, old(|positions.items|), lib)
  {
    var jsonCandidate := requestBody[m.start..m.end];
    if (StartsWith(jsonCandidate, "{") && EndsWith(jsonCandidate, "}"))
       || (StartsWith(jsonCandidate, "[") && EndsWith(jsonCandidate, "]")) {
      JsonBodyProcessor.Process(lib, jsonCandidate, requestBodyStart + m.start, positions);
    }
  }

  /** The JSON loop's step: after one more snippet's ranges the rest of the pass still completes the target. */
  lemma JsonLoopStep(body: string, base: int, ms: seq<SpanMatch>, i: nat, lib: JsonLibrary,
                     before: seq<Range>, after: seq<Range>, target: seq<Range>)
    requires SpansInside(body, ms)
    requires i < |ms| && i < MAX_JSON_SNIPPETS
    requires before + JsonPass(body, base, ms[i..], i, |before|, lib) == target
    requires after == before + SnippetJsonRanges(body, base, ms[i], |before|, lib)
    ensures after + JsonPass(body, base, ms[i + 1..], i + 1, |after|, lib) == target
  {
    assert ms[i..][1..] == ms[i + 1..];
    var added := SnippetJsonRanges(body, base, ms[i], |before|, lib);
    Reassociate(before, added, after, JsonPass(body, base, ms[i + 1..], i + 1, |after|, lib),
                JsonPass(body, base, ms[i..], i, |before|, lib), target);
  }

  /** The markup loop's step, in the same way. */
  lemma XmlLoopStep(body: string, base: int, ms: seq<SpanMatch>, i: nat, xml: XmlBodyProcessor.XmlMatchers,
                    before: seq<Range>, after: seq<Range>, target: seq<Range>)
    requires SpansInside(body, ms) && xml.Valid()
    requires i < |ms| && i < MAX_XML_SNIPPETS
    requires before + XmlPass(body, base, ms[i..], i, xml) == target
    requires after == before + XmlBodyProcessor.XmlRanges(body[ms[i].start..ms[i].end], base + ms[i].start, xml)
    ensures after + XmlPass(body, base, ms[i + 1..], i + 1, xml) == target
  {
    assert ms[i..][1..] == ms[i + 1..];
    Reassociate(before, XmlBodyProcessor.XmlRanges(body[ms[i].start..ms[i].end], base + ms[i].start, xml), after,
                XmlPass(body, base, ms[i + 1..], i + 1, xml), XmlPass(body, base, ms[i..], i, xml), target);
  }

  /** The markup snippet loop of process. */
  method ProcessXmlSnippets(xml: XmlBodyProcessor.XmlMatchers, mm: MixedMatchers, requestBody: string,
                            requestBodyStart: int, positions: RangeList)
    requires xml.Valid() && mm.Valid()
    modifies positions
    ensures SpansInside(requestBody, mm.xmlSnippets(requestBody))
    ensures positions.items == old(positions.items) + XmlPass(requestBody, requestBodyStart, mm.xmlSnippets(requestBody), 0, xml)
  {
    var ms := mm.xmlSnippets(requestBody);
    assert Scanned(requestBody);
    ghost var all := XmlPass(requestBody, requestBodyStart, ms, 0, xml);
    var matchCount := 0;
    while matchCount < |ms| && matchCount < MAX_XML_SNIPPETS
      invariant 0 <= matchCount <= |ms|
      invariant positions.items + XmlPass(requestBody, requestBodyStart, ms[matchCount..], matchCount, xml)
             == old(positions.items) + all
    {
      var m := ms[matchCount];
      ghost var before := positions.items;
      var xmlCandidate := requestBody[m.start..m.end];
      XmlBodyProcessor.Process(xml, xmlCandidate, requestBodyStart + m.start, positions);
      XmlLoopStep(requestBody, requestBodyStart, ms, matchCount, xml, before, positions.items, old(positions.items) + all);
      matchCount := matchCount + 1;
    }
  }

  /** The key=value loop of process. */
  method ProcessKeyValues(requestBody: string, requestBodyStart: int, positions: RangeList)
    modifies positions
    ensures positions.items == old(positions.items) + KeyValueRanges(requestBody, requestBodyStart, 0, 0)
  {
    var from := 0;
    var matchCount := 0;
    var found := FindKeyValue(requestBody, from);
    while found.Some? && matchCount < MAX_KEY_VALUE_MATCHES
      invariant from <= |requestBody|
      invariant found == FindKeyValue(requestBody, from)
      invariant positions.items + KeyValueRanges(requestBody, requestBodyStart, from, matchCount)
             == old(positions.items) + KeyValueRanges(requestBody, requestBodyStart, 0, 0)
      decreases |requestBody| - from
    {
      var r := Range(requestBodyStart + found.value.valueStart, requestBodyStart + found.value.valueEnd);
      ghost var before := positions.items;
      positions.Add(r);
      Reassociate(before, [r], positions.items,
                  KeyValueRanges(requestBody, requestBodyStart, found.value.valueEnd, matchCount + 1),
                  KeyValueRanges(requestBody, requestBodyStart, from, matchCount),
                  old(positions.items) + KeyValueRanges(requestBody, requestBodyStart, 0, 0));
      from := found.value.valueEnd;
      matchCount := matchCount + 1;
      found := FindKeyValue(requestBody, from);
    }
  }
}

/**
 * The JSON body processor: it walks the parser's tokens over the body and
 * records the raw content of every string value and the text of every number
 * and boolean. A string (value or field name) whose unescaped content is
 * itself JSON text is parsed once more; the ranges found inside it are
 * carried back through a per-character map to the raw, escaped text, and
 * then replace the string's own range.
 */
module JsonBodyProcessor {
  import opened Wrappers
  import opened Text
  import opened SeqLemmas
  import opened Ranges
  import opened JsonUnescape
  import opened JsonParser
  import opened JsonTokenUtils

  const MAX_JSON_BODY_CHARS: nat := 500000
  const MAX_JSON_INSERTION_POINTS: nat := 5000
  const MAX_EMBEDDED_JSON_CHARS: nat := 150000

  // ---------------------------------------------------------------------
  // Unescaping with a map back to the raw text

  /** The unescaped text and, for its k-th character, the raw span [rawStart[k], rawEnd[k]) it came from. */
  datatype UnescapedStringMapping = UnescapedStringMapping(
    unescaped: string,
    rawStartByUnescapedIndex: seq<int>,
    rawEndExclusiveByUnescapedIndex: seq<int>)
  {
    /** Both offset arrays are as long as the unescaped text. */
    predicate Consistent()
    {
      |rawStartByUnescapedIndex| == |unescaped| && |rawEndExclusiveByUnescapedIndex| == |unescaped|
    }
  }

  /** m is the mapping of raw: its k-th character is token k of raw, which spans [Advance(k), Advance(k + 1)). */
  predicate IsMappingOf(m: UnescapedStringMapping, raw: string)
  {
    && m.unescaped == Unescape(raw)
    && m.Consistent()
    && forall k :: 0 <= k < |m.unescaped| ==>
         && m.rawStartByUnescapedIndex[k] == Advance(raw, 0, k)
         && m.rawEndExclusiveByUnescapedIndex[k] == Advance(raw, 0, k + 1)
  }

  /** The mapping of raw, as a value. */
  function MappingOf(raw: string): (m: UnescapedStringMapping)
    ensures m.Consistent()
  {
    var u := Unescape(raw);
    UnescapedStringMapping(
      u,
      seq(|u|, k requires 0 <= k => Advance(raw, 0, k)),
      seq(|u|, k requires 0 <= k => Advance(raw, 0, k + 1)))
  }

  /** A raw text has exactly one mapping. */
  lemma MappingUnique(m: UnescapedStringMapping, raw: string)
    ensures IsMappingOf(m, raw) <==> m == MappingOf(raw)
  {
    var n := MappingOf(raw);
    assert IsMappingOf(n, raw);
    if IsMappingOf(m, raw) {
      assert m.rawStartByUnescapedIndex == n.rawStartByUnescapedIndex;
      assert m.rawEndExclusiveByUnescapedIndex == n.rawEndExclusiveByUnescapedIndex;
    }
  }

  /**
   * One step of unescapeJsonStringWithMapping at raw index i: the character
   * appended and how many raw characters it consumes.
   */
  method DecodeToken(rawContent: string, i: nat) returns (decoded: char, width: nat)
    requires i < |rawContent|
    ensures i + width <= |rawContent|
    ensures rawContent[i] != '\\' ==> decoded == rawContent[i] && width == 1
    ensures rawContent[i] == '\\' && i + 1 == |rawContent| ==> decoded == '\\' && width == 1
    ensures width == 6 <==> rawContent[i] == '\\' && i + 5 < |rawContent| && rawContent[i + 1] == 'u'
    ensures width == 2 <==> rawContent[i] == '\\' && i + 1 < |rawContent| && !(rawContent[i + 1] == 'u' && i + 5 < |rawContent|)
    ensures width == 2 ==> decoded == EscapedChar(rawContent[i + 1])
    ensures width == 6 ==>
      var parsed := ParseHex4(rawContent[i + 2], rawContent[i + 3], rawContent[i + 4], rawContent[i + 5]);
      decoded == (if parsed.Some? then CodeUnitChar(parsed.value) else 'u')
    ensures decoded == TokenChar(rawContent, i) && width == TokenWidth(rawContent, i)
  {
    var c := rawContent[i];
    if c != '\\' {
      decoded, width := c, 1;
    } else if i + 1 >= |rawContent| {
      // a lone backslash at the end stays as it is
      decoded, width := '\\', 1;
    } else {
      var esc := rawContent[i + 1];
      if esc == 'u' && i + 5 < |rawContent| {
        var parsed := ParseHex4(rawContent[i + 2], rawContent[i + 3], rawContent[i + 4], rawContent[i + 5]);
        decoded := if parsed.Some? then CodeUnitChar(parsed.value) else 'u';
        width := 6;
      } else {
        decoded, width := EscapedChar(esc), 2;
      }
    }
  }

  /**
   * The first |out| tokens of raw are done: out holds their characters,
   * starts and ends their raw spans, and i is where the next token starts.
   */
  predicate Progress(raw: string, out: string, starts: seq<int>, ends: seq<int>, i: nat)
  {
    && |starts| == |out| && |ends| == |out|
    && i <= |raw| && i == Advance(raw, 0, |out|)
    && Unescape(raw) == out + UnescapeFrom(raw, i)
    && forall k :: 0 <= k < |out| ==> starts[k] == Advance(raw, 0, k) && ends[k] == Advance(raw, 0, k + 1)
  }

  /** One token further keeps the progress. */
  lemma ProgressStep(raw: string, out: string, starts: seq<int>, ends: seq<int>, i: nat)
    requires Progress(raw, out, starts, ends, i) && i < |raw|
    ensures var w := TokenWidth(raw, i);
      Progress(raw, out + [TokenChar(raw, i)], starts + [i], ends + [i + w], i + w)
  {
    var w := TokenWidth(raw, i);
    AdvanceAdd(raw, 0, |out|, 1);
    ConcatAssoc(out, [TokenChar(raw, i)], UnescapeFrom(raw, i + w));
  }

  /** rawStart[n] = s; rawEnd[n] = e: records the raw span of the n-th unescaped character. */
  method Record(rawStart: array<int>, rawEnd: array<int>, n: nat, s: int, e: int)
    requires rawStart != rawEnd && n < rawStart.Length && n < rawEnd.Length
    modifies rawStart, rawEnd
    ensures rawStart[..n + 1] == old(rawStart[..n]) + [s]
    ensures rawEnd[..n + 1] == old(rawEnd[..n]) + [e]
  {
    rawStart[n] := s;
    rawEnd[n] := e;
    assert rawStart[..n + 1] == rawStart[..n] + [s];
  }

  /**
   * unescapeJsonStringWithMapping(rawContent): one pass over the raw content
   * that appends one character per token and records the token's raw span.
   */
  method UnescapeJsonStringWithMapping(rawContent: string) returns (mapping: UnescapedStringMapping)
    ensures IsMappingOf(mapping, rawContent)
  {
    var out: string := [];
    var rawStart := new int[|rawContent|];
    var rawEnd := new int[|rawContent|];
    var outLen := 0;
    var i := 0;
    ghost var starts: seq<int> := [];
    ghost var ends: seq<int> := [];
    while i < |rawContent|
      invariant Progress(rawContent, out, starts, ends, i)
      invariant outLen == |out| && outLen <= i
      invariant rawStart != rawEnd
      invariant rawStart[..outLen] == starts && rawEnd[..outLen] == ends
      decreases |rawContent| - i
    {
      var decoded, width := DecodeToken(rawContent, i);
      ProgressStep(rawContent, out, starts, ends, i);
      Record(rawStart, rawEnd, outLen, i, i + width);
      out := out + [decoded];
      starts, ends := starts + [i], ends + [i + width];
      outLen := outLen + 1;
      i := i + width;
    }
    assert out + [] == out;
    mapping := UnescapedStringMapping(out, rawStart[..outLen], rawEnd[..outLen]);
  }

  /**
   * The raw spans tile the raw content: the unescaped text is never longer,
   * is empty only for empty raw content, the first span starts at 0, each
   * span ends where the next one starts, the last one ends at the raw
   * length, and each span is one token (width 1, 2 or 6) yielding its
   * character.
   */
  lemma MappingTiles(m: UnescapedStringMapping, raw: string)
    requires IsMappingOf(m, raw)
    ensures var u, rawStart, rawEnd := m.unescaped, m.rawStartByUnescapedIndex, m.rawEndExclusiveByUnescapedIndex;
      && |u| <= |raw|
      && (u == [] <==> raw == [])
      && (u != [] ==> rawStart[0] == 0 && rawEnd[|u| - 1] == |raw|)
      && (forall k :: 0 <= k < |u| - 1 ==> rawEnd[k] == rawStart[k + 1])
      && (forall k :: 0 <= k < |u| ==>
           && 0 <= rawStart[k] < rawEnd[k] <= |raw|
           && rawEnd[k] - rawStart[k] == TokenWidth(raw, rawStart[k])
           && u[k] == TokenChar(raw, rawStart[k]))
  {
    UnescapeNoLonger(raw, 0);
    UnescapeNonEmpty(raw);
    AdvanceAll(raw, 0);
    forall k | 0 <= k < |m.unescaped|
      ensures && 0 <= m.rawStartByUnescapedIndex[k] < m.rawEndExclusiveByUnescapedIndex[k] <= |raw|
              && m.rawEndExclusiveByUnescapedIndex[k] - m.rawStartByUnescapedIndex[k] == TokenWidth(raw, m.rawStartByUnescapedIndex[k])
              && m.unescaped[k] == TokenChar(raw, m.rawStartByUnescapedIndex[k])
    {
      AdvanceStep(raw, 0, k);
    }
  }

  /** Content without a backslash unescapes to itself with the identity mapping. */
  lemma BackslashFreeMapping(m: UnescapedStringMapping, raw: string)
    requires IsMappingOf(m, raw)
    requires '\\' !in raw
    ensures m.unescaped == raw
    ensures forall k :: 0 <= k < |raw| ==>
      m.rawStartByUnescapedIndex[k] == k && m.rawEndExclusiveByUnescapedIndex[k] == k + 1
  {
    BackslashFree(raw);
    forall k | 0 <= k < |raw|
      ensures m.rawStartByUnescapedIndex[k] == k && m.rawEndExclusiveByUnescapedIndex[k] == k + 1
    {
      assert Advance(raw, 0, k) == k && Advance(raw, 0, k + 1) == k + 1;
    }
  }

  /**
   * mapUnescapedSpanToRaw(mapping, a, b): the raw span from the start of
   * character a to the end of character b - 1; None for a span that is empty
   * or leaves the unescaped text, or whose raw end is not after its start.
   */
  function MapUnescapedSpanToRaw(mapping: UnescapedStringMapping, unescapedStart: int, unescapedEndExclusive: int)
    : (rawSpan: Option<Range>)
    requires mapping.Consistent()
  {
    if unescapedStart < 0 || unescapedEndExclusive > |mapping.unescaped| then None
    else if unescapedEndExclusive <= unescapedStart then None
    else
      var rawStart := mapping.rawStartByUnescapedIndex[unescapedStart];
      var rawEnd := mapping.rawEndExclusiveByUnescapedIndex[unescapedEndExclusive - 1];
      if rawEnd <= rawStart then None else Some(Range(rawStart, rawEnd))
  }

  /**
   * On the mapping of raw, a span is carried back exactly when it is
   * non-empty and inside the unescaped text; the raw span is non-empty,
   * inside raw, runs from the start of token a to the end of token b - 1,
   * and unescapes to exactly the characters a..b-1.
   */
  lemma MapSpanRoundTrip(raw: string, a: int, b: int)
    ensures var m := MappingOf(raw);
      var r := MapUnescapedSpanToRaw(m, a, b);
      && (r.Some? <==> 0 <= a < b <= |m.unescaped|)
      && (r.Some? ==>
        && r.value.start == Advance(raw, 0, a) && r.value.end == Advance(raw, 0, b)
        && 0 <= r.value.start < r.value.end <= |raw|
        && Unescape(raw[r.value.start..r.value.end]) == m.unescaped[a..b])
  {
    if 0 <= a < b <= |Unescape(raw)| {
      SliceRoundTrip(raw, a, b);
    }
  }

  // ---------------------------------------------------------------------
  // Numbers and booleans

  /** The characters findNonStringTokenEnd stops at: ',', '}', ']' and whitespace. */
  predicate EndsScalar(c: char)
  {
    c == ',' || c == '}' || c == ']' || c == ' ' || c == '\n' || c == '\r' || c == '\t'
  }

  /** The first index from i on holding a character that ends a scalar, or the length. */
  function NonStringTokenEnd(json: string, i: nat): (e: nat)
    ensures i <= e && (i <= |json| ==> e <= |json|)
    decreases |json| - i
  {
    if i < |json| && !EndsScalar(json[i]) then NonStringTokenEnd(json, i + 1) else i
  }

  lemma {:induction false} NonStringTokenEndFirst(json: string, i: nat)
    requires i <= |json|
    ensures var e := NonStringTokenEnd(json, i);
      && (forall j :: i <= j < e ==> !EndsScalar(json[j]))
      && (e == |json| || EndsScalar(json[e]))
    decreases |json| - i
  {
    if i < |json| && !EndsScalar(json[i]) {
      NonStringTokenEndFirst(json, i + 1);
    }
  }

  /** findNonStringTokenEnd(json, startIdx) */
  method FindNonStringTokenEnd(json: string, startIdx: nat) returns (end: nat)
    ensures end == NonStringTokenEnd(json, startIdx)
  {
    var i := startIdx;
    while i < |json|
      invariant startIdx <= i
      invariant NonStringTokenEnd(json, i) == NonStringTokenEnd(json, startIdx)
      decreases |json| - i
    {
      var c := json[i];
      if EndsScalar(c) {
        break;
      }
      i := i + 1;
    }
    return i;
  }

  /** The characters adjustScalarTokenStart skips: ':' and whitespace. */
  predicate SkippedBeforeScalar(c: char)
  {
    c == ':' || c == ' ' || c == '\n' || c == '\r' || c == '\t'
  }

  function SkipToScalar(json: string, i: nat): (e: nat)
    ensures i <= e && (i <= |json| ==> e <= |json|)
    decreases |json| - i
  {
    if i < |json| && SkippedBeforeScalar(json[i]) then SkipToScalar(json, i + 1) else i
  }

  lemma {:induction false} SkipToScalarFirst(json: string, i: nat)
    requires i <= |json|
    ensures var e := SkipToScalar(json, i);
      && (forall j :: i <= j < e ==> SkippedBeforeScalar(json[j]))
      && (e == |json| || !SkippedBeforeScalar(json[e]))
    decreases |json| - i
  {
    if i < |json| && SkippedBeforeScalar(json[i]) {
      SkipToScalarFirst(json, i + 1);
    }
  }

  /** Math.max(0, Math.min(startIdx, json.length() - 1)) */
  function ClampedStart(json: string, startIdx: int): (i: nat)
    ensures i <= |json| && (json != [] ==> i < |json|)
  {
    var m := if startIdx < |json| - 1 then startIdx else |json| - 1;
    if m < 0 then 0 else m
  }

  /** What adjustScalarTokenStart(json, startIdx) returns. */
  function ScalarTokenStart(json: string, startIdx: int): (i: nat)
    ensures i <= |json|
  {
    SkipToScalar(json, ClampedStart(json, startIdx))
  }

  /** adjustScalarTokenStart(json, startIdx) */
  method AdjustScalarTokenStart(json: string, startIdx: int) returns (start: nat)
    ensures start == ScalarTokenStart(json, startIdx)
  {
    var m := if startIdx < |json| - 1 then startIdx else |json| - 1;
    var i: nat := if m < 0 then 0 else m;
    while i < |json|
      invariant SkipToScalar(json, i) == ScalarTokenStart(json, startIdx)
      decreases |json| - i
    {
      var c := json[i];
      if SkippedBeforeScalar(c) {
        i := i + 1;
      } else {
        break;
      }
    }
    return i;
  }

  /**
   * The span addNonStringScalarPosition takes in `text` for a token starting
   * at startHint: from the first character after ':' and whitespace up to
   * the next ',', '}', ']' or whitespace; None for a start outside the text
   * or an empty span.
   */
  function ScalarSpan(text: string, startHint: int): (span: Option<Range>)
    ensures span.Some? ==> 0 <= span.value.start < span.value.end <= |text|
  {
    if startHint < 0 || startHint >= |text| then None
    else
      var s := ScalarTokenStart(text, startHint);
      var e := NonStringTokenEnd(text, s);
      if e <= s then None else Some(Range(s, e))
  }

  /**
   * A scalar span exists exactly for a start hint inside the text whose
   * adjusted start is not at a terminator; it starts after only ':' and
   * whitespace from the hint, holds no terminator and ends at one or at the
   * end of the text.
   */
  lemma ScalarSpanShape(text: string, startHint: int)
    ensures var span := ScalarSpan(text, startHint);
      && (span.Some? <==>
           0 <= startHint < |text| && var s := ScalarTokenStart(text, startHint); s < |text| && !EndsScalar(text[s]))
      && (span.Some? ==>
           var s, e := span.value.start, span.value.end;
           && startHint <= s
           && (forall j :: startHint <= j < s ==> SkippedBeforeScalar(text[j]))
           && (forall j :: s <= j < e ==> !EndsScalar(text[j]))
           && (e == |text| || EndsScalar(text[e])))
  {
    if 0 <= startHint < |text| {
      assert ClampedStart(text, startHint) == startHint;
      var s := ScalarTokenStart(text, startHint);
      SkipToScalarFirst(text, startHint);
      NonStringTokenEndFirst(text, s);
    }
  }

  // ---------------------------------------------------------------------
  // Embedded JSON text

  /** looksLikeJsonText(s): the trimmed text is {...} or [...]. */
  predicate LooksLikeJsonText(s: string)
  {
    var t := Trim(s);
    |t| >= 2 && ((StartsWith(t, "{") && EndsWith(t, "}")) || (StartsWith(t, "[") && EndsWith(t, "]")))
  }

  /**
   * With s[i] the first and s[j] the last character above U+0020, s looks
   * like JSON text exactly when those two are a matching pair of braces or
   * brackets and are distinct characters.
   */
  lemma LooksLikeJsonTextAt(s: string, i: nat, j: nat)
    requires i <= j < |s|
    requires !IsTrimmable(s[i]) && !IsTrimmable(s[j])
    requires forall k :: 0 <= k < i ==> IsTrimmable(s[k])
    requires forall k :: j < k < |s| ==> IsTrimmable(s[k])
    ensures LooksLikeJsonText(s) <==> i < j && ((s[i] == '{' && s[j] == '}') || (s[i] == '[' && s[j] == ']'))
  {
    TrimmedBetween(s, i, j);
    var t := s[i..j + 1];
    assert t[0] == s[i] && t[|t| - 1] == s[j];
    StartsWithChar(t, '{');
    StartsWithChar(t, '[');
    EndsWithChar(t, '}');
    EndsWithChar(t, ']');
  }

  lemma StartsWithChar(t: string, c: char)
    requires t != []
    ensures StartsWith(t, [c]) <==> t[0] == c
  {
    assert t[..1] == [t[0]];
  }

  lemma EndsWithChar(t: string, c: char)
    requires t != []
    ensures EndsWith(t, [c]) <==> t[|t| - 1] == c
  {
    assert t[|t| - 1..] == [t[|t| - 1]];
  }

  /** Trimming keeps exactly s[i..j + 1] when s[i] and s[j] are the outermost characters above U+0020. */
  lemma TrimmedBetween(s: string, i: nat, j: nat)
    requires i <= j < |s|
    requires !IsTrimmable(s[i]) && !IsTrimmable(s[j])
    requires forall k :: 0 <= k < i ==> IsTrimmable(s[k])
    requires forall k :: j < k < |s| ==> IsTrimmable(s[k])
    ensures Trim(s) == s[i..j + 1]
  {
    var u := TrimStart(s);
    TrimStartSpec(s);
    var a := |s| - |u|;
    assert a <= i;
    assert u[0] == s[a];
    assert a == i;
    var t := TrimEnd(u);
    TrimEndSpec(u);
    var b := i + |t|;
    assert b > j;
    assert t[|t| - 1] == s[b - 1];
    assert b == j + 1;
    assert t == s[i..j + 1];
  }

  // ---------------------------------------------------------------------
  // The specification of the token walk

  function AsSeq(r: Option<Range>): (rs: seq<Range>)
    ensures |rs| <= 1 && (rs == [] <==> r.None?)
  {
    if r.Some? then [r.value] else []
  }

  function Offset(span: Option<Range>, base: int): Option<Range>
  {
    if span.None? then None else Some(Range(base + span.value.start, base + span.value.end))
  }

  /**
   * The content span of a string token in `text`: the located bounds,
   * when they are non-empty; they sit between two quotes.
   */
  function ContentSpan(text: string, t: JsonToken, writeString: string -> string): (span: Option<Range>)
    ensures span.Some? ==> 1 <= span.value.start < span.value.end <= |text| - 1
    ensures span.Some? ==> text[span.value.start - 1] == '"' && text[span.value.end] == '"'
    ensures t.text == Some([]) ==> span.None?
  {
    LocateShape(text, t.startHint, t.endHint, t.text, writeString);
    EmptyTextEmptyBounds(text, t.startHint, t.endHint, t.text, writeString);
    var b := Locate(text, t.startHint, t.endHint, t.text, writeString);
    if b.None? || b.value.end <= b.value.start then None else Some(Range(b.value.start, b.value.end))
  }

  /** Carries a span of the unescaped text back to the raw content that starts at base. */
  function CarryBack(m: UnescapedStringMapping, span: Option<Range>, base: int): Option<Range>
    requires m.Consistent()
  {
    if span.None? then None else Offset(MapUnescapedSpanToRaw(m, span.value.start, span.value.end), base)
  }

  // ---------------------------------------------------------------------
  // What the walk over the tokens appends

  /**
   * Where the text being walked lives: the body itself, whose offsets are
   * shifted by base, or the unescaped text of one string of the body, whose
   * offsets are carried back through the mapping to the raw content that
   * starts at base. Only a string of the body is tried as embedded JSON.
   */
  datatype Layer = Body(base: int) | Embedded(mapping: UnescapedStringMapping, base: int)

  predicate LayerOk(layer: Layer)
  {
    layer.Embedded? ==> layer.mapping.Consistent()
  }

  function Rank(layer: Layer): nat
  {
    if layer.Body? then 1 else 0
  }

  /** Where a span of the layer's text lands in the request. */
  function Place(layer: Layer, span: Option<Range>): Option<Range>
    requires LayerOk(layer)
  {
    if layer.Body? then Offset(span, layer.base) else CarryBack(layer.mapping, span, layer.base)
  }

  /**
   * The loop of processJsonWithStreamingOffsets (body) and of
   * extractEmbeddedJsonInsertionPoints (embedded text), while the shared
   * list holds `count` entries: it stops at the end of the tokens or once
   * the list holds 5000 entries.
   */
  function Walk(text: string, layer: Layer, tokens: seq<JsonToken>, count: nat, lib: JsonLibrary): seq<Range>
    requires LayerOk(layer)
    decreases Rank(layer), 2, |tokens|
  {
    if tokens == [] || count >= MAX_JSON_INSERTION_POINTS then []
    else
      var added := TokenRanges(text, layer, tokens[0], count, lib);
      added + Walk(text, layer, tokens[1..], count + |added|, lib)
  }

  /** What one token adds: strings by StringTokenRanges, numbers and booleans their own text, nothing else. */
  function TokenRanges(text: string, layer: Layer, t: JsonToken, count: nat, lib: JsonLibrary): seq<Range>
    requires LayerOk(layer)
    decreases Rank(layer), 1, 0
  {
    if t.kind == FieldName then StringTokenRanges(text, layer, t, true, count, lib)
    else if t.kind == ValueString then StringTokenRanges(text, layer, t, false, count, lib)
    else if IsNonStringScalar(t.kind) then AsSeq(Place(layer, ScalarSpan(text, t.startHint)))
    else []
  }

  /**
   * What a string token adds (processPossiblyEmbeddedJsonStringToken in the
   * body, addEmbeddedStringValue in embedded text): in the body, the ranges
   * extracted from its content when there are any; otherwise its content,
   * except for a field name.
   */
  function StringTokenRanges(text: string, layer: Layer, t: JsonToken, isFieldName: bool, count: nat, lib: JsonLibrary)
    : seq<Range>
    requires LayerOk(layer)
    decreases Rank(layer), 0, 1
  {
    SpanRanges(text, layer, ContentSpan(text, t, lib.writeString), isFieldName, count, lib)
  }

  /** What a string token adds once its content span has been located (None: not located). */
  function SpanRanges(text: string, layer: Layer, span: Option<Range>, isFieldName: bool, count: nat, lib: JsonLibrary)
    : seq<Range>
    requires LayerOk(layer)
    requires span.Some? ==> 0 <= span.value.start <= span.value.end <= |text|
    decreases Rank(layer), 0, 0
  {
    if span.None? then []
    else
      var s, e := span.value.start, span.value.end;
      var extracted := if layer.Body? then EmbeddedExtraction(text[s..e], layer.base + s, count, lib) else [];
      if extracted != [] then extracted
      else if isFieldName then []
      else AsSeq(Place(layer, span))
  }

  /**
   * The ranges extracted from raw content starting at base: tried only for
   * content of at most 150000 characters whose unescaped text looks like
   * JSON text, which is then walked on its own.
   */
  function EmbeddedExtraction(raw: string, base: int, count: nat, lib: JsonLibrary): seq<Range>
    decreases 0, 3, 0
  {
    var u := Unescape(raw);
    if |raw| <= MAX_EMBEDDED_JSON_CHARS && LooksLikeJsonText(u) then
      Walk(u, Embedded(MappingOf(raw), base), lib.tokens(u), count, lib)
    else []
  }

  /** What process(requestBody, requestBodyStart, positions) appends. */
  function ProcessRanges(body: string, base: int, count: nat, lib: JsonLibrary): seq<Range>
  {
    if |body| > MAX_JSON_BODY_CHARS then [] else Walk(body, Body(base), lib.tokens(body), count, lib)
  }

  /** The span an embedded token is carried back from: string values and scalars only. */
  function EmbeddedTokenSpan(u: string, t: JsonToken, writeString: string -> string): (span: Option<Range>)
    ensures span.Some? ==> 0 <= span.value.start < span.value.end <= |u|
  {
    if t.kind == ValueString then ContentSpan(u, t, writeString)
    else if IsNonStringScalar(t.kind) then ScalarSpan(u, t.startHint)
    else None
  }

  // ---------------------------------------------------------------------
  // Properties of the walk

  /** The most entries the shared list can hold after a walk that starts at `count`. */
  function CapFrom(count: nat): nat
  {
    if count > MAX_JSON_INSERTION_POINTS then count else MAX_JSON_INSERTION_POINTS
  }

  /** Every span of the layer's text lands inside [lo, hi]. */
  predicate LayerWithin(text: string, layer: Layer, lo: int, hi: int)
  {
    match layer
    case Body(base) => lo == base && hi == base + |text|
    case Embedded(m, base) =>
      && m.Consistent() && lo == base
      && forall k :: 0 <= k < |m.unescaped| ==>
           0 <= m.rawStartByUnescapedIndex[k] && m.rawEndExclusiveByUnescapedIndex[k] <= hi - base
  }

  /** A span inside the layer's text lands, when it lands at all, as a non-empty range inside [lo, hi]. */
  lemma PlaceWithin(text: string, layer: Layer, span: Option<Range>, lo: int, hi: int)
    requires LayerWithin(text, layer, lo, hi)
    requires span.Some? ==> 0 <= span.value.start < span.value.end <= |text|
    ensures AllNonEmptyWithin(AsSeq(Place(layer, span)), lo, hi)
  {
  }

  /** The mapping of raw lands every character inside the raw content. */
  lemma MappingWithin(raw: string, base: int)
    ensures LayerWithin(Unescape(raw), Embedded(MappingOf(raw), base), base, base + |raw|)
  {
    MappingUnique(MappingOf(raw), raw);
    MappingTiles(MappingOf(raw), raw);
  }

  /**
   * A walk never takes the shared list past max(count, 5000), adds nothing
   * once it holds 5000 entries, and adds only non-empty ranges inside the
   * walked text's place in the request.
   */
  lemma {:induction false} WalkBounded(text: string, layer: Layer, tokens: seq<JsonToken>, count: nat, lib: JsonLibrary,
                                       lo: int, hi: int)
    requires LayerWithin(text, layer, lo, hi)
    ensures var rs := Walk(text, layer, tokens, count, lib);
      && (count >= MAX_JSON_INSERTION_POINTS ==> rs == [])
      && count + |rs| <= CapFrom(count)
      && AllNonEmptyWithin(rs, lo, hi)
    decreases Rank(layer), 2, |tokens|
  {
    if tokens != [] && count < MAX_JSON_INSERTION_POINTS {
      var added := TokenRanges(text, layer, tokens[0], count, lib);
      TokenRangesBounded(text, layer, tokens[0], count, lib, lo, hi);
      WalkBounded(text, layer, tokens[1..], count + |added|, lib, lo, hi);
      AllNonEmptyWithinConcat(added, Walk(text, layer, tokens[1..], count + |added|, lib), lo, hi);
    }
  }

  /** A token seen below the cap adds no more than the cap allows, and only non-empty ranges inside [lo, hi]. */
  lemma {:induction false} TokenRangesBounded(text: string, layer: Layer, t: JsonToken, count: nat, lib: JsonLibrary,
                                              lo: int, hi: int)
    requires LayerWithin(text, layer, lo, hi)
    requires count < MAX_JSON_INSERTION_POINTS
    ensures var rs := TokenRanges(text, layer, t, count, lib);
      count + |rs| <= MAX_JSON_INSERTION_POINTS && AllNonEmptyWithin(rs, lo, hi)
    decreases Rank(layer), 1, 0
  {
    if t.kind == FieldName {
      StringTokenRangesBounded(text, layer, t, true, count, lib, lo, hi);
    } else if t.kind == ValueString {
      StringTokenRangesBounded(text, layer, t, false, count, lib, lo, hi);
    } else if IsNonStringScalar(t.kind) {
      PlaceWithin(text, layer, ScalarSpan(text, t.startHint), lo, hi);
    }
  }

  lemma StringTokenRangesBounded(text: string, layer: Layer, t: JsonToken, isFieldName: bool,
                                 count: nat, lib: JsonLibrary, lo: int, hi: int)
    requires LayerWithin(text, layer, lo, hi)
    requires count < MAX_JSON_INSERTION_POINTS
    ensures var rs := StringTokenRanges(text, layer, t, isFieldName, count, lib);
      count + |rs| <= MAX_JSON_INSERTION_POINTS && AllNonEmptyWithin(rs, lo, hi)
    decreases Rank(layer), 0, 1
  {
    SpanRangesBounded(text, layer, ContentSpan(text, t, lib.writeString), isFieldName, count, lib, lo, hi);
  }

  /** Whatever span is located inside the text, the ranges it yields keep the cap and the bounds. */
  lemma {:induction false} SpanRangesBounded(text: string, layer: Layer, span: Option<Range>, isFieldName: bool,
                                             count: nat, lib: JsonLibrary, lo: int, hi: int)
    requires LayerWithin(text, layer, lo, hi)
    requires span.Some? ==> 0 <= span.value.start < span.value.end <= |text|
    requires count < MAX_JSON_INSERTION_POINTS
    ensures var rs := SpanRanges(text, layer, span, isFieldName, count, lib);
      count + |rs| <= MAX_JSON_INSERTION_POINTS && AllNonEmptyWithin(rs, lo, hi)
    decreases Rank(layer), 0, 0
  {
    if span.Some? {
      var s, e := span.value.start, span.value.end;
      var extracted := if layer.Body? then EmbeddedExtraction(text[s..e], layer.base + s, count, lib) else [];
      assert count + |extracted| <= CapFrom(count) && AllNonEmptyWithin(extracted, lo, hi) by {
        if layer.Body? {
          BodyExtractionBounded(text, layer.base, s, e, count, lib, lo, hi);
        }
      }
      assert AllNonEmptyWithin(AsSeq(Place(layer, span)), lo, hi) by {
        PlaceWithin(text, layer, span, lo, hi);
      }
      ChosenBounded(SpanRanges(text, layer, span, isFieldName, count, lib), extracted, AsSeq(Place(layer, span)),
                    isFieldName, count, lo, hi);
    }
  }

  /** The extraction from a span of the body stays within the cap and inside the body. */
  lemma BodyExtractionBounded(text: string, base: int, s: int, e: int, count: nat, lib: JsonLibrary, lo: int, hi: int)
    requires 0 <= s <= e <= |text| && lo == base && hi == base + |text|
    ensures var x := EmbeddedExtraction(text[s..e], base + s, count, lib);
      count + |x| <= CapFrom(count) && AllNonEmptyWithin(x, lo, hi)
    decreases 0, 4, 0
  {
    ExtractionBounded(text[s..e], base + s, count, lib);
    AllNonEmptyWithinWiden(EmbeddedExtraction(text[s..e], base + s, count, lib), base + s, base + e, lo, hi);
  }

  /** Whichever of the extracted and the placed ranges a string token keeps, the cap and the bounds hold. */
  lemma ChosenBounded(rs: seq<Range>, extracted: seq<Range>, placed: seq<Range>, isFieldName: bool, count: nat,
                      lo: int, hi: int)
    requires count < MAX_JSON_INSERTION_POINTS
    requires count + |extracted| <= CapFrom(count) && AllNonEmptyWithin(extracted, lo, hi)
    requires |placed| <= 1 && AllNonEmptyWithin(placed, lo, hi)
    requires rs == if extracted != [] then extracted else if isFieldName then [] else placed
    ensures count + |rs| <= MAX_JSON_INSERTION_POINTS && AllNonEmptyWithin(rs, lo, hi)
  {
  }

  /** The embedded extraction from raw content stays within the cap and inside the content. */
  lemma {:induction false} ExtractionBounded(raw: string, base: int, count: nat, lib: JsonLibrary)
    ensures var rs := EmbeddedExtraction(raw, base, count, lib);
      count + |rs| <= CapFrom(count) && AllNonEmptyWithin(rs, base, base + |raw|)
    decreases 0, 3, 0
  {
    var u := Unescape(raw);
    if |raw| <= MAX_EMBEDDED_JSON_CHARS && LooksLikeJsonText(u) {
      MappingWithin(raw, base);
      WalkBounded(u, Embedded(MappingOf(raw), base), lib.tokens(u), count, lib, base, base + |raw|);
    }
  }

  /**
   * A body over 500000 characters adds nothing, a shared list already at
   * 5000 entries gets nothing more, no call takes it past 5000, and every
   * range added is non-empty and inside the body.
   */
  lemma ProcessRangesBounded(body: string, base: int, count: nat, lib: JsonLibrary)
    ensures var rs := ProcessRanges(body, base, count, lib);
      && (|body| > MAX_JSON_BODY_CHARS ==> rs == [])
      && (count >= MAX_JSON_INSERTION_POINTS ==> rs == [])
      && count + |rs| <= CapFrom(count)
      && AllNonEmptyWithin(rs, base, base + |body|)
  {
    if |body| <= MAX_JSON_BODY_CHARS {
      WalkBounded(body, Body(base), lib.tokens(body), count, lib, base, base + |body|);
    }
  }

  /**
   * A span of the unescaped text is carried back exactly: it lands exactly
   * when it is there, inside the raw content, non-empty, and its raw text
   * unescapes to the span's characters.
   */
  lemma CarryBackExact(raw: string, base: int, span: Option<Range>)
    requires span.Some? ==> 0 <= span.value.start < span.value.end <= |Unescape(raw)|
    ensures var u := Unescape(raw);
      var r := CarryBack(MappingOf(raw), span, base);
      && (r.Some? <==> span.Some?)
      && (r.Some? ==>
        && base <= r.value.start < r.value.end <= base + |raw|
        && Unescape(raw[r.value.start - base..r.value.end - base]) == u[span.value.start..span.value.end])
  {
    if span.Some? {
      MapSpanRoundTrip(raw, span.value.start, span.value.end);
    }
  }

  /**
   * In embedded text, a string value or scalar adds exactly one range when
   * it has a span there, and that range's raw text unescapes to the span's
   * characters; field names and every other token add nothing.
   */
  lemma EmbeddedTokenOutcome(raw: string, base: int, t: JsonToken, count: nat, lib: JsonLibrary)
    ensures var u := Unescape(raw);
      var rs := TokenRanges(u, Embedded(MappingOf(raw), base), t, count, lib);
      var span := EmbeddedTokenSpan(u, t, lib.writeString);
      && (rs == [] <==> span.None?)
      && (span.Some? ==>
        && |rs| == 1 && base <= rs[0].start < rs[0].end <= base + |raw|
        && Unescape(raw[rs[0].start - base..rs[0].end - base]) == u[span.value.start..span.value.end])
  {
    var u := Unescape(raw);
    EmbeddedTokenRanges(u, MappingOf(raw), base, t, count, lib);
    CarryBackExact(raw, base, EmbeddedTokenSpan(u, t, lib.writeString));
  }

  /** In embedded text a token adds its EmbeddedTokenSpan carried back, if it has one; a field name adds nothing. */
  lemma EmbeddedTokenRanges(text: string, mapping: UnescapedStringMapping, base: int, t: JsonToken, count: nat,
                            lib: JsonLibrary)
    requires mapping.Consistent()
    ensures TokenRanges(text, Embedded(mapping, base), t, count, lib)
         == AsSeq(CarryBack(mapping, EmbeddedTokenSpan(text, t, lib.writeString), base))
  {
    var layer := Embedded(mapping, base);
    if t.kind == FieldName || t.kind == ValueString {
      var isFieldName := t.kind == FieldName;
      assert StringTokenRanges(text, layer, t, isFieldName, count, lib)
          == SpanRanges(text, layer, ContentSpan(text, t, lib.writeString), isFieldName, count, lib);
    }
  }

  /**
   * The outcome for one string token of the body: nothing without
   * non-empty located bounds (so nothing for an empty string); embedded
   * ranges only when the content is short enough and looks like JSON text,
   * and then they replace the string's own range; a field name never gets
   * its own range; a string value without embedded ranges gets exactly its
   * content between the quotes.
   */
  lemma StringTokenOutcome(json: string, base: int, t: JsonToken, isFieldName: bool, count: nat, lib: JsonLibrary)
    ensures var rs := StringTokenRanges(json, Body(base), t, isFieldName, count, lib);
      var span := ContentSpan(json, t, lib.writeString);
      && (t.text == Some([]) ==> rs == [])
      && (span.None? ==> rs == [])
      && (span.Some? ==>
        var s, e := span.value.start, span.value.end;
        var extracted := EmbeddedExtraction(json[s..e], base + s, count, lib);
        && json[s - 1] == '"' && json[e] == '"'
        && (extracted != [] ==>
             && e - s <= MAX_EMBEDDED_JSON_CHARS && LooksLikeJsonText(Unescape(json[s..e]))
             && rs == extracted)
        && (isFieldName ==> rs == extracted)
        && (!isFieldName && extracted == [] ==> rs == [Range(base + s, base + e)]))
  {
    var span := ContentSpan(json, t, lib.writeString);
    if span.Some? {
      var s, e := span.value.start, span.value.end;
      var extracted := EmbeddedExtraction(json[s..e], base + s, count, lib);
      if extracted != [] {
        assert e - s <= MAX_EMBEDDED_JSON_CHARS && LooksLikeJsonText(Unescape(json[s..e]));
      }
    }
  }

  /** One step of a walk below the cap: the token's ranges, then the rest of the walk from the new count. */
  lemma WalkUnfold(text: string, layer: Layer, tokens: seq<JsonToken>, count: nat, next: nat, lib: JsonLibrary)
    requires LayerOk(layer)
    requires tokens != [] && count < MAX_JSON_INSERTION_POINTS
    requires next == count + |TokenRanges(text, layer, tokens[0], count, lib)|
    ensures Walk(text, layer, tokens, count, lib) ==
      TokenRanges(text, layer, tokens[0], count, lib) + Walk(text, layer, tokens[1..], next, lib)
  {
  }

  /**
   * One more token of a walk: what the list holds after it, followed by
   * the rest of the walk, is what it held before followed by the walk.
   */
  lemma WalkAdvance(text: string, layer: Layer, before: seq<Range>, after: seq<Range>, tokens: seq<JsonToken>, n: nat,
                    lib: JsonLibrary)
    requires LayerOk(layer)
    requires n < |tokens| && |before| < MAX_JSON_INSERTION_POINTS
    requires after == before + TokenRanges(text, layer, tokens[n], |before|, lib)
    ensures before + Walk(text, layer, tokens[n..], |before|, lib) == after + Walk(text, layer, tokens[n + 1..], |after|, lib)
  {
    var ts := tokens[n..];
    assert ts[0] == tokens[n] && ts[1..] == tokens[n + 1..];
    var added := TokenRanges(text, layer, ts[0], |before|, lib);
    assert |after| == |before| + |added|;
    WalkUnfold(text, layer, ts, |before|, |after|, lib);
    ConcatAssoc(before, added, Walk(text, layer, ts[1..], |after|, lib));
  }

  // ---------------------------------------------------------------------
  // The walk

  /** addNonStringScalarPosition(json, baseOffset, positions, parser) */
  method AddNonStringScalarPosition(json: string, baseOffset: int, positions: RangeList, token: JsonToken)
    modifies positions
    ensures positions.items == old(positions.items) + AsSeq(Place(Body(baseOffset), ScalarSpan(json, token.startHint)))
  {
    var start := token.startHint;
    if start < 0 || start >= |json| {
      return;
    }
    var startIdx := AdjustScalarTokenStart(json, start);
    var endIdx := FindNonStringTokenEnd(json, startIdx);
    if endIdx <= startIdx {
      return;
    }
    positions.Add(Range(baseOffset + startIdx, baseOffset + endIdx));
  }

  /** The located content bounds of a string token, when they are non-empty. */
  method LocateContentSpan(json: string, token: JsonToken, writeString: string -> string) returns (span: Option<Range>)
    ensures span == ContentSpan(json, token, writeString)
  {
    var contentBounds := LocateStringTokenContentBounds(json, token.startHint, token.endHint, token.text, writeString);
    if contentBounds.None? || contentBounds.value.end <= contentBounds.value.start {
      return None;
    }
    return Some(Range(contentBounds.value.start, contentBounds.value.end));
  }

  /** addEmbeddedStringValue(unescapedJson, mapping, rawContentBaseOffset, positions, parser) */
  method AddEmbeddedStringValue(lib: JsonLibrary, unescapedJson: string, mapping: UnescapedStringMapping,
                                rawContentBaseOffset: int, positions: RangeList, token: JsonToken)
    requires mapping.Consistent()
    modifies positions
    ensures positions.items == old(positions.items) +
      StringTokenRanges(unescapedJson, Embedded(mapping, rawContentBaseOffset), token, false, old(|positions.items|), lib)
  {
    var contentBounds := LocateContentSpan(unescapedJson, token, lib.writeString);
    if contentBounds.None? {
      return;
    }
    var rawSpan := MapUnescapedSpanToRaw(mapping, contentBounds.value.start, contentBounds.value.end);
    if rawSpan.None? {
      return;
    }
    positions.Add(Range(rawContentBaseOffset + rawSpan.value.start, rawContentBaseOffset + rawSpan.value.end));
  }

  /** addEmbeddedNonStringScalar(unescapedJson, mapping, rawContentBaseOffset, positions, parser) */
  method AddEmbeddedNonStringScalar(unescapedJson: string, mapping: UnescapedStringMapping,
                                    rawContentBaseOffset: int, positions: RangeList, token: JsonToken)
    requires mapping.Consistent()
    modifies positions
    ensures positions.items == old(positions.items) +
      AsSeq(Place(Embedded(mapping, rawContentBaseOffset), ScalarSpan(unescapedJson, token.startHint)))
  {
    var start := token.startHint;
    if start < 0 || start >= |unescapedJson| {
      return;
    }
    var startIdx := AdjustScalarTokenStart(unescapedJson, start);
    var endIdx := FindNonStringTokenEnd(unescapedJson, startIdx);
    if endIdx <= startIdx {
      return;
    }
    var rawSpan := MapUnescapedSpanToRaw(mapping, startIdx, endIdx);
    if rawSpan.None? {
      return;
    }
    positions.Add(Range(rawContentBaseOffset + rawSpan.value.start, rawContentBaseOffset + rawSpan.value.end));
  }

  /** The body of the loop in extractEmbeddedJsonInsertionPoints, for one token. */
  method AddEmbeddedToken(lib: JsonLibrary, unescapedJson: string, mapping: UnescapedStringMapping,
                          rawContentBaseOffset: int, positions: RangeList, token: JsonToken)
    requires mapping.Consistent()
    modifies positions
    ensures positions.items == old(positions.items) +
      TokenRanges(unescapedJson, Embedded(mapping, rawContentBaseOffset), token, old(|positions.items|), lib)
  {
    EmbeddedTokenRanges(unescapedJson, mapping, rawContentBaseOffset, token, |positions.items|, lib);
    if token.kind == ValueString {
      AddEmbeddedStringValue(lib, unescapedJson, mapping, rawContentBaseOffset, positions, token);
    } else if IsNonStringScalar(token.kind) {
      AddEmbeddedNonStringScalar(unescapedJson, mapping, rawContentBaseOffset, positions, token);
    }
  }

  /**
   * extractEmbeddedJsonInsertionPoints(unescapedJson, mapping,
   * rawContentBaseOffset, positions): the loop over the embedded text's
   * tokens; true when it added anything.
   */
  method ExtractEmbeddedJsonInsertionPoints(lib: JsonLibrary, unescapedJson: string, mapping: UnescapedStringMapping,
                                            rawContentBaseOffset: int, positions: RangeList)
    returns (extractedAny: bool)
    requires mapping.Consistent()
    modifies positions
    ensures positions.items == old(positions.items) +
      Walk(unescapedJson, Embedded(mapping, rawContentBaseOffset), lib.tokens(unescapedJson), old(|positions.items|), lib)
    ensures extractedAny <==> |positions.items| > old(|positions.items|)
  {
    var addedBefore := positions.Size();
    var tokens := lib.tokens(unescapedJson);
    ghost var layer := Embedded(mapping, rawContentBaseOffset);
    ghost var all := Walk(unescapedJson, layer, tokens, addedBefore, lib);
    var n := 0;
    while n < |tokens|
      invariant n <= |tokens|
      invariant old(positions.items) + all == positions.items + Walk(unescapedJson, layer, tokens[n..], |positions.items|, lib)
      decreases |tokens| - n
    {
      var token := tokens[n];
      if positions.Size() >= MAX_JSON_INSERTION_POINTS {
        break;
      }
      ghost var before := positions.items;
      AddEmbeddedToken(lib, unescapedJson, mapping, rawContentBaseOffset, positions, token);
      WalkAdvance(unescapedJson, layer, before, positions.items, tokens, n, lib);
      n := n + 1;
    }
    assert old(positions.items) + all == positions.items + [];
    extractedAny := positions.Size() > addedBefore;
  }

  /**
   * The embedded-JSON attempt of processPossiblyEmbeddedJsonStringToken on
   * a string's raw content: true when it added anything.
   */
  method TryEmbeddedExtraction(lib: JsonLibrary, rawContent: string, rawContentBaseOffset: int, positions: RangeList)
    returns (extractedAny: bool)
    modifies positions
    ensures positions.items ==
      old(positions.items) + EmbeddedExtraction(rawContent, rawContentBaseOffset, old(|positions.items|), lib)
    ensures extractedAny <==> EmbeddedExtraction(rawContent, rawContentBaseOffset, old(|positions.items|), lib) != []
  {
    extractedAny := false;
    if |rawContent| <= MAX_EMBEDDED_JSON_CHARS {
      var mapping := UnescapeJsonStringWithMapping(rawContent);
      MappingUnique(mapping, rawContent);
      var unescaped := mapping.unescaped;
      if LooksLikeJsonText(unescaped) {
        extractedAny := ExtractEmbeddedJsonInsertionPoints(lib, unescaped, mapping, rawContentBaseOffset, positions);
      }
    }
  }

  /**
   * processPossiblyEmbeddedJsonStringToken(json, baseOffset, positions,
   * parser, isFieldName)
   */
  method ProcessPossiblyEmbeddedJsonStringToken(lib: JsonLibrary, json: string, baseOffset: int, positions: RangeList,
                                                token: JsonToken, isFieldName: bool)
    modifies positions
    ensures positions.items == old(positions.items) +
      StringTokenRanges(json, Body(baseOffset), token, isFieldName, old(|positions.items|), lib)
  {
    var span := LocateContentSpan(json, token, lib.writeString);
    if span.None? {
      return;
    }
    var contentStart := span.value.start;
    var contentEnd := span.value.end;
    var rawContent := json[contentStart..contentEnd];
    var extractedAny := TryEmbeddedExtraction(lib, rawContent, baseOffset + contentStart, positions);
    if extractedAny {
      return;
    }

    // not embedded JSON: the whole string content; field names get nothing
    if !isFieldName {
      positions.Add(Range(baseOffset + contentStart, baseOffset + contentEnd));
    }
  }

  /** The body of the loop in processJsonWithStreamingOffsets, for one token. */
  method ProcessToken(lib: JsonLibrary, json: string, baseOffset: int, positions: RangeList, token: JsonToken)
    modifies positions
    ensures positions.items == old(positions.items) + TokenRanges(json, Body(baseOffset), token, old(|positions.items|), lib)
  {
    if token.kind == FieldName {
      ProcessPossiblyEmbeddedJsonStringToken(lib, json, baseOffset, positions, token, true);
    } else if token.kind == ValueString {
      ProcessPossiblyEmbeddedJsonStringToken(lib, json, baseOffset, positions, token, false);
    } else if IsNonStringScalar(token.kind) {
      AddNonStringScalarPosition(json, baseOffset, positions, token);
    }
  }

  /** processJsonWithStreamingOffsets(json, baseOffset, positions) */
  method ProcessJsonWithStreamingOffsets(lib: JsonLibrary, json: string, baseOffset: int, positions: RangeList)
    modifies positions
    ensures positions.items == old(positions.items) + Walk(json, Body(baseOffset), lib.tokens(json), old(|positions.items|), lib)
  {
    var tokens := lib.tokens(json);
    ghost var layer := Body(baseOffset);
    ghost var all := Walk(json, layer, tokens, |positions.items|, lib);
    var n := 0;
    while n < |tokens|
      invariant n <= |tokens|
      invariant old(positions.items) + all == positions.items + Walk(json, layer, tokens[n..], |positions.items|, lib)
      decreases |tokens| - n
    {
      var token := tokens[n];
      if positions.Size() >= MAX_JSON_INSERTION_POINTS {
        break;
      }
      ghost var before := positions.items;
      ProcessToken(lib, json, baseOffset, positions, token);
      WalkAdvance(json, layer, before, positions.items, tokens, n, lib);
      n := n + 1;
    }
    assert old(positions.items) + all == positions.items + [];
  }

  /**
   * process(requestBody, requestBodyStart, positions): nothing for a body
   * over 500000 characters, otherwise the loop over its tokens.
   */
  method Process(lib: JsonLibrary, requestBody: string, requestBodyStart: int, positions: RangeList)
    modifies positions
    ensures positions.items == old(positions.items) + ProcessRanges(requestBody, requestBodyStart, old(|positions.items|), lib)
  {
    if |requestBody| > MAX_JSON_BODY_CHARS {
      return;
    }
    ProcessJsonWithStreamingOffsets(lib, requestBody, requestBodyStart, positions);
  }
}

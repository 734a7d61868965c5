/**
 * Locating the raw content of a string token (a field name or a string
 * value) in the JSON text from the parser's offset hints and text: a
 * backward search for a pair of unescaped quotes whose content unescapes to
 * the token text, then a forward search for the serialized text between
 * quotes near the hints.
 */
module JsonTokenUtils {
  import opened Wrappers
  import opened Text
  import opened SeqLemmas
  import opened JsonUnescape

  /** int[]{start, endExclusive}: the token content, quotes excluded. */
  datatype ContentBounds = ContentBounds(start: int, end: int)

  /** How many backslashes stand right before index q. */
  function BackslashRun(s: string, q: nat): (n: nat)
    requires q <= |s|
    ensures n <= q
  {
    if q == 0 || s[q - 1] != '\\' then 0 else 1 + BackslashRun(s, q - 1)
  }

  /** The run is exactly the backslashes before q: all of them, and no more. */
  lemma {:induction false} BackslashRunExact(s: string, q: nat)
    requires q <= |s|
    ensures var n := BackslashRun(s, q);
      && (forall j :: q - n <= j < q ==> s[j] == '\\')
      && (n < q ==> s[q - n - 1] != '\\')
  {
    if q > 0 && s[q - 1] == '\\' {
      BackslashRunExact(s, q - 1);
    }
  }

  /** The character at q is escaped: an odd number of backslashes precede it. */
  predicate Escaped(s: string, q: nat)
    requires q <= |s|
  {
    BackslashRun(s, q) % 2 == 1
  }

  /** isEscapedQuote(s, quoteIdx): count the backslashes before quoteIdx, report an odd count. */
  method IsEscapedQuote(s: string, quoteIdx: nat) returns (escaped: bool)
    requires quoteIdx <= |s|
    ensures escaped == Escaped(s, quoteIdx)
  {
    var backslashes := 0;
    var i := quoteIdx - 1;
    while i >= 0 && s[i] == '\\'
      invariant -1 <= i < quoteIdx
      invariant BackslashRun(s, quoteIdx) == backslashes + BackslashRun(s, i + 1)
      decreases i
    {
      backslashes := backslashes + 1;
      i := i - 1;
    }
    escaped := backslashes % 2 == 1;
  }

  /**
   * unescapeJsonStringContent(rawContent): the input itself when it holds no
   * backslash, otherwise the characters of its tokens, one per token.
   */
  method UnescapeJsonStringContent(rawContent: string) returns (out: string)
    ensures out == Unescape(rawContent)
  {
    if '\\' !in rawContent {
      BackslashFree(rawContent);
      return rawContent;
    }
    out := [];
    var i := 0;
    while i < |rawContent|
      invariant 0 <= i <= |rawContent|
      invariant Unescape(rawContent) == out + UnescapeFrom(rawContent, i)
      decreases |rawContent| - i
    {
      var c := rawContent[i];
      var decoded, width;
      if c != '\\' || i + 1 >= |rawContent| {
        decoded, width := c, 1;
      } else if rawContent[i + 1] == 'u' && i + 5 < |rawContent| {
        var parsed := ParseHex4(rawContent[i + 2], rawContent[i + 3], rawContent[i + 4], rawContent[i + 5]);
        decoded := if parsed.Some? then CodeUnitChar(parsed.value) else 'u';
        width := 6;
      } else {
        decoded, width := EscapedChar(rawContent[i + 1]), 2;
      }
      assert UnescapeFrom(rawContent, i) == [decoded] + UnescapeFrom(rawContent, i + width);
      ConcatAssoc(out, [decoded], UnescapeFrom(rawContent, i + width));
      out := out + [decoded];
      i := i + width;
    }
  }

  /** The raw content between open and close unescapes to the token text, when that text is known. */
  predicate Accepts(json: string, open: int, close: int, text: Option<string>)
    requires 0 <= open < close <= |json|
  {
    text.None? || text.value == Unescape(json[open + 1..close])
  }

  /** json[q] is a quote that no backslash escapes. */
  predicate UnescapedQuote(json: string, q: int)
  {
    0 <= q < |json| && json[q] == '"' && !Escaped(json, q)
  }

  /** An opening quote at `open` pairs with the closing quote at `close`. */
  predicate Pairs(json: string, open: int, close: int, text: Option<string>)
  {
    0 <= open < close < |json| && UnescapedQuote(json, open) && Accepts(json, open, close, text)
  }

  /** The lowest opening quote position searched for a closing quote at `close`. */
  function OpenSearchTo(close: int): int
  {
    if close - 8192 > 0 then close - 8192 else 0
  }

  /**
   * The inner loop: from `open` down to OpenSearchTo(close), the first
   * opening quote that pairs with the closing quote at `close`.
   */
  function SearchOpen(json: string, close: int, open: int, text: Option<string>): (b: Option<ContentBounds>)
    requires 0 <= close < |json|
    requires open < close
    decreases open + 1
  {
    if open < OpenSearchTo(close) then None
    else if Pairs(json, open, close, text) then Some(ContentBounds(open + 1, close))
    else SearchOpen(json, close, open - 1, text)
  }

  /**
   * The outer loop: from `close` down to closeTo, the first unescaped quote
   * that some opening quote pairs with, paired with the first such opening quote.
   */
  function SearchClose(json: string, close: int, closeTo: int, text: Option<string>): (b: Option<ContentBounds>)
    requires close < |json|
    requires 0 <= closeTo
    decreases close + 1
  {
    if close < closeTo then None
    else if UnescapedQuote(json, close) && SearchOpen(json, close, close - 1, text).Some? then
      SearchOpen(json, close, close - 1, text)
    else SearchClose(json, close - 1, closeTo, text)
  }

  /** The start hint clamped into the text. */
  function StartHint(json: string, startHintLong: int): int
    requires json != []
  {
    if startHintLong < 0 then 0 else if startHintLong > |json| - 1 then |json| - 1 else startHintLong
  }

  /** The end hint clamped into [0, |json|]; an unknown (negative) end hint is the text's end. */
  function EndHint(json: string, endHintLong: int): int
  {
    if endHintLong < 0 then |json| else if endHintLong > |json| then |json| else endHintLong
  }

  function CloseSearchFrom(json: string, endHint: int): int
    requires json != []
  {
    if endHint > |json| - 1 then |json| - 1 else if endHint < 0 then 0 else endHint
  }

  function CloseSearchTo(startHint: int): int
  {
    if startHint - 4096 > 0 then startHint - 4096 else 0
  }

  /** The primary strategy: the backward quote-pair search between the hints. */
  function Primary(json: string, startHint: int, endHint: int, text: Option<string>): Option<ContentBounds>
    requires json != []
  {
    SearchClose(json, CloseSearchFrom(json, endHint), CloseSearchTo(startHint), text)
  }

  /** escapeAsJsonStringContent: the serialized string with its surrounding quotes removed. */
  function StripQuotes(quoted: string): string
  {
    if |quoted| >= 2 && quoted[0] == '"' && quoted[|quoted| - 1] == '"' then quoted[1..|quoted| - 1] else quoted
  }

  /** The serialized content sits between two quotes at idx. */
  predicate QuotedAt(json: string, idx: int, len: nat)
  {
    0 <= idx - 1 && idx + len < |json| && json[idx - 1] == '"' && json[idx + len] == '"'
  }

  /** The fallback loop: the first occurrence at or after idx, below fallbackEnd, that quotes enclose. */
  function FallbackScan(json: string, escaped: string, idx: int, fallbackEnd: int): (b: Option<ContentBounds>)
    requires -1 <= idx <= |json|
    requires fallbackEnd <= |json|
    decreases if idx < 0 then 0 else |json| + 1 - idx
  {
    if idx < 0 || idx >= fallbackEnd then None
    else if QuotedAt(json, idx, |escaped|) then Some(ContentBounds(idx, idx + |escaped|))
    else FallbackScan(json, escaped, IndexOfFrom(json, escaped, idx + 1), fallbackEnd)
  }

  function FallbackStart(startHint: int): int
  {
    if startHint - 256 > 0 then startHint - 256 else 0
  }

  function FallbackEnd(json: string, startHint: int, endHint: int): int
  {
    var far := if endHint + 2048 > startHint + 2048 then endHint + 2048 else startHint + 2048;
    if far < |json| then far else |json|
  }

  /** The fallback strategy: the serialized token text between quotes near the hints. */
  function Fallback(json: string, startHint: int, endHint: int, text: Option<string>, writeString: string -> string): Option<ContentBounds>
  {
    if text.Some? && text.value != [] then
      var escapedContent := StripQuotes(writeString(text.value));
      var fallbackEnd := FallbackEnd(json, startHint, endHint);
      FallbackScan(json, escapedContent, IndexOfFrom(json, escapedContent, FallbackStart(startHint)), fallbackEnd)
    else None
  }

  /**
   * locateStringTokenContentBounds(json, parser): None for empty text or a
   * negative start hint; otherwise the primary result, else the fallback one.
   */
  function Locate(json: string, startHintLong: int, endHintLong: int, text: Option<string>,
                  writeString: string -> string): Option<ContentBounds>
  {
    if json == [] || startHintLong < 0 then None
    else
      var startHint := StartHint(json, startHintLong);
      var endHint := EndHint(json, endHintLong);
      var primary := Primary(json, startHint, endHint, text);
      if primary.Some? then primary else Fallback(json, startHint, endHint, text, writeString)
  }

  /**
   * The inner loop finds the highest opening quote in the window that pairs
   * with `close`, and None means that no quote in the window pairs with it.
   */
  lemma {:induction false} SearchOpenFound(json: string, close: int, open: int, text: Option<string>)
    requires 0 <= close < |json|
    requires open < close
    ensures var r := SearchOpen(json, close, open, text);
      && (r.Some? ==>
        && r.value.end == close
        && OpenSearchTo(close) <= r.value.start - 1 <= open
        && Pairs(json, r.value.start - 1, close, text)
        && forall o :: r.value.start - 1 < o <= open ==> !Pairs(json, o, close, text))
      && (r.None? ==> forall o :: OpenSearchTo(close) <= o <= open ==> !Pairs(json, o, close, text))
    decreases open + 1
  {
    if open >= OpenSearchTo(close) && !Pairs(json, open, close, text) {
      SearchOpenFound(json, close, open - 1, text);
    }
  }

  /**
   * The outer loop stops at the highest unescaped quote in its window that
   * some opening quote pairs with; None means there is no such quote.
   */
  lemma {:induction false} SearchCloseFound(json: string, close: int, closeTo: int, text: Option<string>)
    requires close < |json|
    requires 0 <= closeTo
    ensures var r := SearchClose(json, close, closeTo, text);
      && (r.Some? ==>
        && closeTo <= r.value.end <= close
        && UnescapedQuote(json, r.value.end)
        && r == SearchOpen(json, r.value.end, r.value.end - 1, text)
        && forall c :: r.value.end < c <= close ==>
             !(UnescapedQuote(json, c) && SearchOpen(json, c, c - 1, text).Some?))
      && (r.None? ==> forall c :: closeTo <= c <= close ==>
             !(UnescapedQuote(json, c) && SearchOpen(json, c, c - 1, text).Some?))
    decreases close + 1
  {
    if close >= closeTo {
      if UnescapedQuote(json, close) && SearchOpen(json, close, close - 1, text).Some? {
        SearchOpenFound(json, close, close - 1, text);
      } else {
        SearchCloseFound(json, close - 1, closeTo, text);
      }
    }
  }

  /**
   * A primary result lies strictly between two unescaped quotes, the closing
   * one inside the close-quote window and the opening one at most 8192
   * characters before it, and its content unescapes to the token text when
   * that text is known.
   */
  lemma PrimaryShape(json: string, startHint: int, endHint: int, text: Option<string>)
    requires json != []
    ensures var r := Primary(json, startHint, endHint, text);
      r.Some? ==>
        var s, e := r.value.start, r.value.end;
        && 1 <= s <= e <= |json| - 1
        && UnescapedQuote(json, s - 1) && UnescapedQuote(json, e)
        && CloseSearchTo(startHint) <= e <= CloseSearchFrom(json, endHint)
        && e - 8192 <= s - 1
        && (text.Some? ==> Unescape(json[s..e]) == text.value)
  {
    var r := Primary(json, startHint, endHint, text);
    SearchCloseFound(json, CloseSearchFrom(json, endHint), CloseSearchTo(startHint), text);
    if r.Some? {
      var e := r.value.end;
      SearchOpenFound(json, e, e - 1, text);
    }
  }

  /**
   * The fallback scan, started at the first occurrence at or after `from`,
   * returns the first occurrence below fallbackEnd that quotes enclose, and
   * None when there is no such occurrence.
   */
  lemma {:induction false} FallbackScanFound(json: string, escaped: string, from: int, fallbackEnd: int)
    requires 0 <= from <= |json|
    requires fallbackEnd <= |json|
    ensures var r := FallbackScan(json, escaped, IndexOfFrom(json, escaped, from), fallbackEnd);
      && (r.Some? ==>
        && from <= r.value.start < fallbackEnd
        && r.value.end == r.value.start + |escaped|
        && OccursAt(json, escaped, r.value.start)
        && QuotedAt(json, r.value.start, |escaped|)
        && forall j :: from <= j < r.value.start ==> !(OccursAt(json, escaped, j) && QuotedAt(json, j, |escaped|)))
      && (r.None? ==> forall j :: from <= j < fallbackEnd ==> !(OccursAt(json, escaped, j) && QuotedAt(json, j, |escaped|)))
    decreases |json| + 1 - from
  {
    var idx := IndexOfFrom(json, escaped, from);
    IndexOfFromFirst(json, escaped, from);
    if 0 <= idx < fallbackEnd && !QuotedAt(json, idx, |escaped|) {
      FallbackScanFound(json, escaped, idx + 1, fallbackEnd);
    }
  }

  /**
   * A fallback result is an occurrence of the serialized token text that
   * lies strictly between two quotes and starts inside the fallback window;
   * the fallback runs only for a known, non-empty token text.
   */
  lemma FallbackShape(json: string, startHint: int, endHint: int, text: Option<string>, writeString: string -> string)
    requires 0 <= startHint <= |json|
    ensures var r := Fallback(json, startHint, endHint, text, writeString);
      r.Some? ==>
        var s, e := r.value.start, r.value.end;
        && text.Some? && text.value != []
        && 1 <= s <= e <= |json| - 1
        && json[s - 1] == '"' && json[e] == '"'
        && json[s..e] == StripQuotes(writeString(text.value))
        && FallbackStart(startHint) <= s < FallbackEnd(json, startHint, endHint)
  {
    if text.Some? && text.value != [] {
      FallbackScanFound(json, StripQuotes(writeString(text.value)), FallbackStart(startHint), FallbackEnd(json, startHint, endHint));
    }
  }

  /** Empty text or a negative start hint: nothing is located. */
  lemma LocateRejects(json: string, startHintLong: int, endHintLong: int, text: Option<string>, writeString: string -> string)
    requires json == [] || startHintLong < 0
    ensures Locate(json, startHintLong, endHintLong, text, writeString).None?
  {
  }

  /**
   * Whatever strategy finds them, the bounds exclude the quotes:
   * 1 <= start <= end <= |json| - 1 with a quote on either side.
   */
  lemma LocateShape(json: string, startHintLong: int, endHintLong: int, text: Option<string>, writeString: string -> string)
    ensures var r := Locate(json, startHintLong, endHintLong, text, writeString);
      r.Some? ==>
        && 1 <= r.value.start <= r.value.end <= |json| - 1
        && json[r.value.start - 1] == '"' && json[r.value.end] == '"'
  {
    if json != [] && startHintLong >= 0 {
      var startHint := StartHint(json, startHintLong);
      var endHint := EndHint(json, endHintLong);
      PrimaryShape(json, startHint, endHint, text);
      FallbackShape(json, startHint, endHint, text, writeString);
    }
  }

  /**
   * For an empty token text the bounds are empty (start == end): the
   * fallback needs a non-empty text, and non-empty raw content never
   * unescapes to the empty string.
   */
  lemma EmptyTextEmptyBounds(json: string, startHintLong: int, endHintLong: int, text: Option<string>,
                             writeString: string -> string)
    ensures var r := Locate(json, startHintLong, endHintLong, text, writeString);
      text == Some([]) && r.Some? ==> r.value.start == r.value.end
  {
    var r := Locate(json, startHintLong, endHintLong, text, writeString);
    if text == Some([]) && r.Some? {
      var startHint := StartHint(json, startHintLong);
      var endHint := EndHint(json, endHintLong);
      PrimaryShape(json, startHint, endHint, text);
      FallbackShape(json, startHint, endHint, text, writeString);
      UnescapeNonEmpty(json[r.value.start..r.value.end]);
    }
  }

  /** The inner loop, from close - 1 down to the opening-quote window's bottom. */
  method SearchOpenQuote(json: string, close: int, text: Option<string>) returns (bounds: Option<ContentBounds>)
    requires 0 <= close < |json|
    ensures bounds == SearchOpen(json, close, close - 1, text)
  {
    var open := close - 1;
    var openSearchTo := if close - 8192 > 0 then close - 8192 else 0;
    while open >= openSearchTo
      invariant openSearchTo - 1 <= open < close
      invariant SearchOpen(json, close, close - 1, text) == SearchOpen(json, close, open, text)
      decreases open
    {
      if json[open] == '"' {
        var escaped := IsEscapedQuote(json, open);
        if !escaped {
          var rawContent := json[open + 1..close];
          var unescaped := UnescapeJsonStringContent(rawContent);
          if text.None? || text.value == unescaped {
            return Some(ContentBounds(open + 1, close));
          }
        }
      }
      open := open - 1;
    }
    return None;
  }

  /** The fallback loop over the occurrences of the serialized text, from idx on. */
  method ScanFallback(json: string, escapedContent: string, idx0: int, fallbackEnd: int)
    returns (bounds: Option<ContentBounds>)
    requires -1 <= idx0 <= |json|
    requires fallbackEnd <= |json|
    ensures bounds == FallbackScan(json, escapedContent, idx0, fallbackEnd)
  {
    var idx := idx0;
    while idx >= 0 && idx < fallbackEnd
      invariant -1 <= idx <= |json|
      invariant FallbackScan(json, escapedContent, idx0, fallbackEnd) == FallbackScan(json, escapedContent, idx, fallbackEnd)
      decreases if idx < 0 then 0 else |json| + 1 - idx
    {
      var leftQuote := idx - 1;
      var rightQuote := idx + |escapedContent|;
      if leftQuote >= 0 && rightQuote < |json| && json[leftQuote] == '"' && json[rightQuote] == '"' {
        assert QuotedAt(json, idx, |escapedContent|);
        return Some(ContentBounds(idx, idx + |escapedContent|));
      }
      var next := IndexOfFrom(json, escapedContent, idx + 1);
      assert FallbackScan(json, escapedContent, idx, fallbackEnd) == FallbackScan(json, escapedContent, next, fallbackEnd);
      idx := next;
    }
    return None;
  }

  /**
   * locateStringTokenContentBounds(json, parser), with the parser's two
   * offsets and text passed in and ObjectMapper's serializer as writeString.
   */
  method LocateStringTokenContentBounds(json: string, startHintLong: int, endHintLong: int,
                                        tokenText: Option<string>, writeString: string -> string)
    returns (bounds: Option<ContentBounds>)
    ensures bounds == Locate(json, startHintLong, endHintLong, tokenText, writeString)
  {
    if json == [] || startHintLong < 0 {
      return None;
    }
    var jsonLen := |json|;
    var startHint := if startHintLong < 0 then 0 else if startHintLong > jsonLen - 1 then jsonLen - 1 else startHintLong;
    var endHint := if endHintLong < 0 then jsonLen else if endHintLong > jsonLen then jsonLen else endHintLong;

    var closeSearchFrom := if endHint > jsonLen - 1 then jsonLen - 1 else if endHint < 0 then 0 else endHint;
    var closeSearchTo := if startHint - 4096 > 0 then startHint - 4096 else 0;
    var close := closeSearchFrom;
    while close >= closeSearchTo
      invariant close <= closeSearchFrom
      invariant Primary(json, startHint, endHint, tokenText) == SearchClose(json, close, closeSearchTo, tokenText)
      decreases close
    {
      if json[close] == '"' {
        var escaped := IsEscapedQuote(json, close);
        if !escaped {
          var found := SearchOpenQuote(json, close, tokenText);
          if found.Some? {
            return found;
          }
        }
      }
      close := close - 1;
    }

    bounds := LocateFallback(json, startHint, endHint, tokenText, writeString);
  }

  /** The fallback block of locateStringTokenContentBounds. */
  method LocateFallback(json: string, startHint: int, endHint: int, tokenText: Option<string>,
                        writeString: string -> string)
    returns (bounds: Option<ContentBounds>)
    requires 0 <= startHint <= |json|
    ensures bounds == Fallback(json, startHint, endHint, tokenText, writeString)
  {
    if tokenText.Some? && tokenText.value != [] {
      var jsonLen := |json|;
      var escapedContent := StripQuotes(writeString(tokenText.value));
      var fallbackStart := if startHint - 256 > 0 then startHint - 256 else 0;
      var far := if endHint + 2048 > startHint + 2048 then endHint + 2048 else startHint + 2048;
      var fallbackEnd := if far < jsonLen then far else jsonLen;
      var idx := IndexOfFrom(json, escapedContent, fallbackStart);
      bounds := ScanFallback(json, escapedContent, idx, fallbackEnd);
      return;
    }
    return None;
  }
}

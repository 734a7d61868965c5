/**
 * The java.util.regex matches that the XML walker and the mixed scanner
 * consume. The matcher itself is not modelled: each pattern is a finder that,
 * for an input, gives the successive find() results from left to right, and
 * each finder is constrained to give only matches of the shape its pattern
 * admits, inside the input and in increasing order.
 */
module RegexOracles {

  /**
   * A finder's shape guarantee is drawn on for an input s only where a proof
   * mentions Scanned(s), so that it is not unfolded for every string in sight.
   */
  predicate Scanned(s: string)
  {
    true
  }

  // ---------------------------------------------------------------------------
  // <([^\s/>]+)[^>]*>(.*?)</\1>|<([^\s/>]+)\s+([^>]*)/>
  // ---------------------------------------------------------------------------

  /**
   * One match of the tag pattern: the whole match [start, end) and, for the
   * first alternative, the span of group 2 (the element content), for the
   * second, the span of group 4 (the attribute text of a self-closing tag).
   */
  datatype TagMatch =
    | Paired(start: int, end: int, contentStart: int, contentEnd: int)
    | SelfClosing(start: int, end: int, attrStart: int, attrEnd: int)

  /**
   * An opening tag `<name ...>` whose first '>' ends it, the content, then
   * `</`...`>`; or `<name`, whitespace, attribute text free of '>', then `/>`.
   */
  predicate TagShaped(s: string, m: TagMatch)
  {
    match m
    case Paired(a, b, cs, ce) =>
      && 0 <= a && a + 2 < cs <= ce && ce + 2 < b <= |s|
      && s[a] == '<' && TagNameChar(s[a + 1]) && s[cs - 1] == '>'
      && s[ce] == '<' && s[ce + 1] == '/' && s[b - 1] == '>'
      && '>' !in s[a + 1..cs - 1]
    case SelfClosing(a, b, ats, ae) =>
      && 0 <= a && a + 3 <= ats <= ae && b == ae + 2 && b <= |s|
      && s[a] == '<' && TagNameChar(s[a + 1]) && IsRegexWhitespace(s[ats - 1])
      && s[ae] == '/' && s[ae + 1] == '>'
      && '>' !in s[ats..ae]
  }

  /** The regex class \s: space, tab, line feed, vertical tab, form feed, carriage return. */
  predicate IsRegexWhitespace(c: char)
  {
    c == ' ' || c == '\t' || c == '\n' || c == '\U{B}' || c == '\U{C}' || c == '\r'
  }

  /** A character of the tag-name class [^\s/>]; the name has at least one. */
  predicate TagNameChar(c: char)
  {
    !IsRegexWhitespace(c) && c != '/' && c != '>'
  }

  predicate AllTagsShaped(s: string, ms: seq<TagMatch>)
  {
    forall i :: 0 <= i < |ms| ==> TagShaped(s, ms[i])
  }

  /** Successive finds: every match is shaped and starts after the previous one ends. */
  predicate TagMatchesOf(s: string, ms: seq<TagMatch>)
  {
    && AllTagsShaped(s, ms)
    && forall i :: 0 <= i < |ms| - 1 ==> ms[i].end <= ms[i + 1].start
  }

  type TagFinder = string -> seq<TagMatch>

  /** The finder gives, for every input, matches of the tag pattern's shape in increasing order. */
  ghost predicate FindsTags(f: TagFinder)
  {
    forall s {:trigger Scanned(s)} :: TagMatchesOf(s, f(s))
  }

  // ---------------------------------------------------------------------------
  // (\w+)\s*=\s*(["'])(.*?)\2
  // ---------------------------------------------------------------------------

  /** One match of the attribute pattern: the whole match and the span of group 3, the value. */
  datatype AttrMatch = AttrMatch(start: int, end: int, valueStart: int, valueEnd: int)

  /** The value lies between two equal quote characters and holds no such quote itself. */
  predicate QuotedAt(s: string, vs: int, ve: int)
  {
    && 1 <= vs <= ve < |s|
    && (s[vs - 1] == '"' || s[vs - 1] == '\'')
    && s[ve] == s[vs - 1]
    && forall k :: vs <= k < ve ==> s[k] != s[vs - 1]
  }

  /** A name, '=', then a quoted value that ends the match. */
  predicate AttrShaped(s: string, m: AttrMatch)
  {
    0 <= m.start && m.start + 3 <= m.valueStart && m.end == m.valueEnd + 1 && QuotedAt(s, m.valueStart, m.valueEnd)
  }

  predicate AttrMatchesOf(s: string, ms: seq<AttrMatch>)
  {
    && (forall i :: 0 <= i < |ms| ==> AttrShaped(s, ms[i]))
    && forall i :: 0 <= i < |ms| - 1 ==> ms[i].end <= ms[i + 1].start
  }

  type AttrFinder = string -> seq<AttrMatch>

  ghost predicate FindsAttrs(f: AttrFinder)
  {
    forall s {:trigger Scanned(s)} :: AttrMatchesOf(s, f(s))
  }

  // ---------------------------------------------------------------------------
  // \{[^\{\}]*\}|\[[^\[\]]*\]   and   <[^>]+>[^<]*</[^>]+>|<[^>]+/>
  // ---------------------------------------------------------------------------

  /** One match of a snippet pattern: the span of the whole match (group 0). */
  datatype SpanMatch = SpanMatch(start: int, end: int)

  /** No character of s[a..b) is one of the two brackets. */
  predicate FreeOf(s: string, a: int, b: int, open: char, close: char)
    requires 0 <= a <= b <= |s|
  {
    forall k :: a <= k < b ==> s[k] != open && s[k] != close
  }

  /** `{` ... `}` or `[` ... `]` with no bracket of the same kind inside. */
  predicate JsonSnippetShaped(s: string, m: SpanMatch)
  {
    && 0 <= m.start && m.start + 2 <= m.end <= |s|
    && ((s[m.start] == '{' && s[m.end - 1] == '}' && FreeOf(s, m.start + 1, m.end - 1, '{', '}'))
        || (s[m.start] == '[' && s[m.end - 1] == ']' && FreeOf(s, m.start + 1, m.end - 1, '[', ']')))
  }

  /** Starts with '<' and ends with '>'. */
  predicate XmlSnippetShaped(s: string, m: SpanMatch)
  {
    0 <= m.start && m.start + 3 <= m.end <= |s| && s[m.start] == '<' && s[m.end - 1] == '>'
  }

  predicate JsonSnippetsOf(s: string, ms: seq<SpanMatch>)
  {
    && (forall i :: 0 <= i < |ms| ==> JsonSnippetShaped(s, ms[i]))
    && forall i :: 0 <= i < |ms| - 1 ==> ms[i].end <= ms[i + 1].start
  }

  predicate XmlSnippetsOf(s: string, ms: seq<SpanMatch>)
  {
    && (forall i :: 0 <= i < |ms| ==> XmlSnippetShaped(s, ms[i]))
    && forall i :: 0 <= i < |ms| - 1 ==> ms[i].end <= ms[i + 1].start
  }

  type JsonSnippetFinder = string -> seq<SpanMatch>

  ghost predicate FindsJsonSnippets(f: JsonSnippetFinder)
  {
    forall s {:trigger Scanned(s)} :: JsonSnippetsOf(s, f(s))
  }

  type XmlSnippetFinder = string -> seq<SpanMatch>

  ghost predicate FindsXmlSnippets(f: XmlSnippetFinder)
  {
    forall s {:trigger Scanned(s)} :: XmlSnippetsOf(s, f(s))
  }
}

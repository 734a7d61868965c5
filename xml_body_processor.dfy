/**
 * The XML body walker: element contents without markup become ranges,
 * attribute values in opening tags and in self-closing tags become ranges,
 * and contents that hold markup are walked again at their own offset.
 */
module XmlBodyProcessor {
  import opened Text
  import opened SeqLemmas
  import opened Ranges
  import opened RegexOracles

  /** At most this many tag matches per walk. */
  const MAX_TAG_MATCHES: nat := 50
  /** At most this many attribute values per attribute text. */
  const MAX_ATTRIBUTE_MATCHES: nat := 20

  /** The two patterns the walker compiles. */
  datatype XmlMatchers = XmlMatchers(tags: TagFinder, attributes: AttrFinder)
  {
    /** Both finders keep to their pattern's shape. */
    ghost predicate Valid()
    {
      FindsTags(tags) && FindsAttrs(attributes)
    }
  }

  /** Element content that becomes a range of its own: not blank and free of '<'. */
  predicate IsLeafText(content: string)
  {
    Trim(content) != [] && !HasChar(content, '<')
  }

  // ---------------------------------------------------------------------------
  // processXmlAttributes
  // ---------------------------------------------------------------------------

  /** The value spans of the given attribute matches, moved by baseOffset. */
  function ValueRanges(ms: seq<AttrMatch>, baseOffset: int): seq<Range>
  {
    seq(|ms|, k requires 0 <= k < |ms| => Range(baseOffset + ms[k].valueStart, baseOffset + ms[k].valueEnd))
  }

  /** What processXmlAttributes(attributes, baseOffset, positions) appends: the first 20 values. */
  function AttributeRanges(attributes: string, baseOffset: int, re: XmlMatchers): seq<Range>
  {
    var ms := re.attributes(attributes);
    ValueRanges(ms[..if |ms| < MAX_ATTRIBUTE_MATCHES then |ms| else MAX_ATTRIBUTE_MATCHES], baseOffset)
  }

  /**
   * One range per attribute match, up to 20 of them, in match order; each
   * covers exactly the text between a pair of equal quotes.
   */
  lemma AttributeRangesSpec(attributes: string, baseOffset: int, re: XmlMatchers)
    requires re.Valid()
    ensures var ms := re.attributes(attributes);
      var rs := AttributeRanges(attributes, baseOffset, re);
      && |rs| == (if |ms| < MAX_ATTRIBUTE_MATCHES then |ms| else MAX_ATTRIBUTE_MATCHES)
      && (forall k :: 0 <= k < |rs| ==>
            rs[k] == Range(baseOffset + ms[k].valueStart, baseOffset + ms[k].valueEnd))
      && (forall r :: r in rs ==> QuotedAt(attributes, r.start - baseOffset, r.end - baseOffset))
      && SortedDisjoint(rs)
  {
    var ms := re.attributes(attributes);
    assert AttrMatchesOf(attributes, ms) by {
      assert Scanned(attributes);
    }
    var n := if |ms| < MAX_ATTRIBUTE_MATCHES then |ms| else MAX_ATTRIBUTE_MATCHES;
    ValueRangesSpec(attributes, ms, n, baseOffset);
  }

  /** The value ranges of the first n matches are quoted values, sorted and disjoint. */
  lemma ValueRangesSpec(s: string, ms: seq<AttrMatch>, n: nat, baseOffset: int)
    requires AttrMatchesOf(s, ms) && n <= |ms|
    ensures var rs := ValueRanges(ms[..n], baseOffset);
      && |rs| == n
      && (forall k :: 0 <= k < |rs| ==> rs[k] == Range(baseOffset + ms[k].valueStart, baseOffset + ms[k].valueEnd))
      && (forall r :: r in rs ==> QuotedAt(s, r.start - baseOffset, r.end - baseOffset))
      && SortedDisjoint(rs)
  {
    var rs := ValueRanges(ms[..n], baseOffset);
    assert |rs| == n;
    assert forall k :: 0 <= k < |rs| ==> rs[k] == Range(baseOffset + ms[k].valueStart, baseOffset + ms[k].valueEnd);
    ValuesQuoted(s, ms, rs, baseOffset);
    ValuesSorted(s, ms, rs, baseOffset);
  }

  /** Ranges over the values of the first matches cover quoted text. */
  lemma ValuesQuoted(s: string, ms: seq<AttrMatch>, rs: seq<Range>, baseOffset: int)
    requires AttrMatchesOf(s, ms) && |rs| <= |ms|
    requires forall k :: 0 <= k < |rs| ==> rs[k] == Range(baseOffset + ms[k].valueStart, baseOffset + ms[k].valueEnd)
    ensures forall r :: r in rs ==> QuotedAt(s, r.start - baseOffset, r.end - baseOffset)
  {
    forall r | r in rs ensures QuotedAt(s, r.start - baseOffset, r.end - baseOffset) {
      var k :| 0 <= k < |rs| && rs[k] == r;
      assert AttrShaped(s, ms[k]);
    }
  }

  /** Ranges over the values of the first matches are sorted and disjoint. */
  lemma ValuesSorted(s: string, ms: seq<AttrMatch>, rs: seq<Range>, baseOffset: int)
    requires AttrMatchesOf(s, ms) && |rs| <= |ms|
    requires forall k :: 0 <= k < |rs| ==> rs[k] == Range(baseOffset + ms[k].valueStart, baseOffset + ms[k].valueEnd)
    ensures SortedDisjoint(rs)
  {
    forall i, j | 0 <= i < j < |rs| ensures rs[i].end <= rs[j].start {
      AttrsAscending(s, ms, i, j);
    }
  }

  /** Later attribute matches start after earlier values end. */
  lemma {:induction false} AttrsAscending(s: string, ms: seq<AttrMatch>, i: int, j: int)
    requires AttrMatchesOf(s, ms)
    requires 0 <= i < j < |ms|
    ensures ms[i].valueEnd < ms[j].valueStart
    decreases j - i
  {
    assert AttrShaped(s, ms[j - 1]) && AttrShaped(s, ms[j]);
    if i < j - 1 {
      AttrsAscending(s, ms, i, j - 1);
    }
  }

  /** processXmlAttributes(attributes, baseOffset, positions) */
  method ProcessXmlAttributes(re: XmlMatchers, attributes: string, baseOffset: int, positions: RangeList)
    modifies positions
    ensures positions.items == old(positions.items) + AttributeRanges(attributes, baseOffset, re)
  {
    var ms := re.attributes(attributes);
    var matchCount := 0;
    while matchCount < |ms| && matchCount < MAX_ATTRIBUTE_MATCHES
      invariant 0 <= matchCount <= |ms| && matchCount <= MAX_ATTRIBUTE_MATCHES
      invariant positions.items == old(positions.items) + ValueRanges(ms[..matchCount], baseOffset)
    {
      var m := ms[matchCount];
      positions.Add(Range(baseOffset + m.valueStart, baseOffset + m.valueEnd));
      assert ValueRanges(ms[..matchCount + 1], baseOffset)
          == ValueRanges(ms[..matchCount], baseOffset) + [Range(baseOffset + m.valueStart, baseOffset + m.valueEnd)];
      matchCount := matchCount + 1;
    }
  }

  // ---------------------------------------------------------------------------
  // process: the walk over the tag matches
  // ---------------------------------------------------------------------------

  /** What process(requestBody, requestBodyStart, positions) appends. */
  function XmlRanges(body: string, base: int, re: XmlMatchers): seq<Range>
    requires re.Valid()
    decreases |body|, 2, 0
  {
    assert Scanned(body);
    TagWalk(body, base, re, re.tags(body), 0)
  }

  /** The matches from the count-th find() on; the walk stops after the 50th. */
  function TagWalk(body: string, base: int, re: XmlMatchers, ms: seq<TagMatch>, count: nat): seq<Range>
    requires re.Valid() && AllTagsShaped(body, ms)
    decreases |body|, 1, |ms|
  {
    if ms == [] || count >= MAX_TAG_MATCHES then []
    else MatchRanges(body, base, re, ms[0]) + TagWalk(body, base, re, ms[1..], count + 1)
  }

  /**
   * One match: a self-closing tag gives its attribute values; an element
   * gives its content when that is a leaf, the attribute values of its
   * opening tag, and the walk of its content when that holds '<'.
   */
  function MatchRanges(body: string, base: int, re: XmlMatchers, m: TagMatch): seq<Range>
    requires re.Valid() && TagShaped(body, m)
    decreases |body|, 0, 1
  {
    match m
    case SelfClosing(_, _, attrStart, attrEnd) =>
      AttributeRanges(body[attrStart..attrEnd], base + attrStart, re)
    case Paired(start, _, contentStart, contentEnd) =>
      var content := body[contentStart..contentEnd];
      LeafRanges(content, base + contentStart)
      + TagAttributeRanges(body, base, start, re)
      + NestedRanges(content, base + contentStart, re)
  }

  /** The element content's own range, when it is a leaf. */
  function LeafRanges(content: string, contentBase: int): seq<Range>
  {
    if IsLeafText(content) then [Range(contentBase, contentBase + |content|)] else []
  }

  /** The walk of element content that holds '<', at the content's own offset. */
  function NestedRanges(content: string, contentBase: int, re: XmlMatchers): seq<Range>
    requires re.Valid()
    decreases |content|, 3, 0
  {
    if HasChar(content, '<') then XmlRanges(content, contentBase, re) else []
  }

  /** The opening tag runs from the match start to the first '>' after it. */
  function TagAttributeRanges(body: string, base: int, start: int, re: XmlMatchers): seq<Range>
    requires 0 <= start
  {
    var tagEnd := IndexOfCharFrom(body, '>', start);
    if tagEnd > start then OpeningTagRanges(body[start..tagEnd], base + start, re) else []
  }

  /** The attribute values of an opening tag: the text after its first space. */
  function OpeningTagRanges(openingTag: string, tagBase: int, re: XmlMatchers): seq<Range>
  {
    var attrStart := IndexOfCharFrom(openingTag, ' ', 0);
    if attrStart > 0 then AttributeRanges(openingTag[attrStart + 1..], tagBase + attrStart + 1, re) else []
  }

  // ---------------------------------------------------------------------------
  // What the walk emits
  // ---------------------------------------------------------------------------

  /**
   * r, taken relative to base, lies inside the body and covers either leaf
   * element content or the text between a pair of equal quotes.
   */
  predicate Emitted(body: string, base: int, r: Range)
  {
    && 0 <= r.start - base <= r.end - base <= |body|
    && (IsLeafText(body[r.start - base..r.end - base]) || QuotedAt(body, r.start - base, r.end - base))
  }

  /** What is emitted for a slice of the body is emitted for the body, at the slice's offset. */
  lemma EmittedInSlice(body: string, base: int, lo: int, hi: int, r: Range)
    requires 0 <= lo <= hi <= |body|
    requires Emitted(body[lo..hi], base + lo, r)
    ensures Emitted(body, base, r)
  {
    var a, b := r.start - base, r.end - base;
    SliceOfSlice(body, lo, hi, a - lo, b - lo);
    if QuotedAt(body[lo..hi], a - lo, b - lo) {
      QuotedInSlice(body, lo, hi, a - lo, b - lo);
    }
  }

  /** A quoted value inside a slice is a quoted value of the whole text, at the slice's offset. */
  lemma QuotedInSlice(s: string, lo: int, hi: int, vs: int, ve: int)
    requires 0 <= lo <= hi <= |s|
    requires QuotedAt(s[lo..hi], vs, ve)
    ensures QuotedAt(s, lo + vs, lo + ve)
  {
    var t := s[lo..hi];
    forall k | lo + vs <= k < lo + ve ensures s[k] != s[lo + vs - 1] {
      assert s[k] == t[k - lo];
    }
    assert s[lo + vs - 1] == t[vs - 1];
    assert s[lo + ve] == t[ve];
  }

  lemma EverySliceEmitted(body: string, base: int, lo: int, hi: int, rs: seq<Range>)
    requires 0 <= lo <= hi <= |body|
    requires forall r :: r in rs ==> Emitted(body[lo..hi], base + lo, r)
    ensures forall r :: r in rs ==> Emitted(body, base, r)
  {
    forall r | r in rs ensures Emitted(body, base, r) {
      EmittedInSlice(body, base, lo, hi, r);
    }
  }

  /** Attribute values land between their quotes. */
  lemma AttributeRangesEmitted(attributes: string, baseOffset: int, re: XmlMatchers)
    requires re.Valid()
    ensures forall r :: r in AttributeRanges(attributes, baseOffset, re) ==> Emitted(attributes, baseOffset, r)
  {
    AttributeRangesSpec(attributes, baseOffset, re);
  }

  /**
   * Every range the walk emits lies inside [base, base + |body|] and covers
   * either non-blank element content free of '<' or a quoted attribute value.
   */
  lemma {:induction false} XmlRangesEmitted(body: string, base: int, re: XmlMatchers)
    requires re.Valid()
    ensures forall r :: r in XmlRanges(body, base, re) ==> Emitted(body, base, r)
    decreases |body|, 2, 0
  {
    assert Scanned(body);
    TagWalkEmitted(body, base, re, re.tags(body), 0);
  }

  lemma {:induction false} TagWalkEmitted(body: string, base: int, re: XmlMatchers, ms: seq<TagMatch>, count: nat)
    requires re.Valid() && AllTagsShaped(body, ms)
    ensures forall r :: r in TagWalk(body, base, re, ms, count) ==> Emitted(body, base, r)
    decreases |body|, 1, |ms|
  {
    if ms != [] && count < MAX_TAG_MATCHES {
      MatchRangesEmitted(body, base, re, ms[0]);
      TagWalkEmitted(body, base, re, ms[1..], count + 1);
    }
  }

  lemma {:induction false} MatchRangesEmitted(body: string, base: int, re: XmlMatchers, m: TagMatch)
    requires re.Valid() && TagShaped(body, m)
    ensures forall r :: r in MatchRanges(body, base, re, m) ==> Emitted(body, base, r)
    decreases |body|, 0, 1
  {
    match m
    case SelfClosing(_, _, attrStart, attrEnd) =>
      AttributeRangesEmitted(body[attrStart..attrEnd], base + attrStart, re);
      EverySliceEmitted(body, base, attrStart, attrEnd, AttributeRanges(body[attrStart..attrEnd], base + attrStart, re));
    case Paired(start, _, contentStart, contentEnd) =>
      var content := body[contentStart..contentEnd];
      assert MatchRanges(body, base, re, m) ==
        LeafRanges(content, base + contentStart)
        + TagAttributeRanges(body, base, start, re)
        + NestedRanges(content, base + contentStart, re);
      PairedEmitted(body, base, re, start, contentStart, contentEnd);
  }

  /** The three parts of a paired element's ranges are all emitted. */
  lemma {:induction false} PairedEmitted(body: string, base: int, re: XmlMatchers, start: int, contentStart: int, contentEnd: int)
    requires re.Valid() && 0 <= start < contentStart <= contentEnd <= |body|
    ensures var content := body[contentStart..contentEnd];
      var rs := LeafRanges(content, base + contentStart)
        + TagAttributeRanges(body, base, start, re)
        + NestedRanges(content, base + contentStart, re);
      forall r :: r in rs ==> Emitted(body, base, r)
    decreases |body|, 0, 0
  {
    var content := body[contentStart..contentEnd];
    LeafEmitted(content, base + contentStart);
    EverySliceEmitted(body, base, contentStart, contentEnd, LeafRanges(content, base + contentStart));
    TagAttributesEmitted(body, base, start, re);
    NestedEmitted(content, base + contentStart, re);
    EverySliceEmitted(body, base, contentStart, contentEnd, NestedRanges(content, base + contentStart, re));
  }

  lemma LeafEmitted(content: string, contentBase: int)
    ensures forall r :: r in LeafRanges(content, contentBase) ==> Emitted(content, contentBase, r)
  {
    assert content[0..|content|] == content;
  }

  lemma {:induction false} NestedEmitted(content: string, contentBase: int, re: XmlMatchers)
    requires re.Valid()
    ensures forall r :: r in NestedRanges(content, contentBase, re) ==> Emitted(content, contentBase, r)
    decreases |content|, 3, 0
  {
    if HasChar(content, '<') {
      XmlRangesEmitted(content, contentBase, re);
    }
  }

  lemma TagAttributesEmitted(body: string, base: int, start: int, re: XmlMatchers)
    requires re.Valid() && 0 <= start
    ensures forall r :: r in TagAttributeRanges(body, base, start, re) ==> Emitted(body, base, r)
  {
    var tagEnd := IndexOfCharFrom(body, '>', start);
    if tagEnd > start {
      var openingTag := body[start..tagEnd];
      var attrStart := IndexOfCharFrom(openingTag, ' ', 0);
      if attrStart > 0 {
        var lo := start + attrStart + 1;
        assert openingTag[attrStart + 1..] == body[lo..tagEnd];
        AttributeRangesEmitted(body[lo..tagEnd], base + lo, re);
        EverySliceEmitted(body, base, lo, tagEnd, AttributeRanges(body[lo..tagEnd], base + lo, re));
      }
    }
  }

  /** Only the first 50 tag matches count: the rest are never looked at. */
  lemma {:induction false} TagWalkCap(body: string, base: int, re: XmlMatchers, ms: seq<TagMatch>, count: nat)
    requires re.Valid() && AllTagsShaped(body, ms)
    requires count <= MAX_TAG_MATCHES
    ensures var n := if |ms| < MAX_TAG_MATCHES - count then |ms| else MAX_TAG_MATCHES - count;
      TagWalk(body, base, re, ms, count) == TagWalk(body, base, re, ms[..n], count)
    decreases |ms|
  {
    var n := if |ms| < MAX_TAG_MATCHES - count then |ms| else MAX_TAG_MATCHES - count;
    TagsShapedPrefix(body, ms, n);
    var kept := ms[..n];
    if ms != [] && count < MAX_TAG_MATCHES {
      TagWalkCap(body, base, re, ms[1..], count + 1);
      assert kept[1..] == ms[1..][..n - 1];
      TagWalkSameHead(body, base, re, ms, kept, count);
    } else {
      assert kept == [];
    }
  }

  /** Two match lists with the same first match and equally walked tails walk the same. */
  lemma TagWalkSameHead(body: string, base: int, re: XmlMatchers, a: seq<TagMatch>, b: seq<TagMatch>, count: nat)
    requires re.Valid() && AllTagsShaped(body, a) && AllTagsShaped(body, b)
    requires a != [] && b != [] && a[0] == b[0] && count < MAX_TAG_MATCHES
    requires TagWalk(body, base, re, a[1..], count + 1) == TagWalk(body, base, re, b[1..], count + 1)
    ensures TagWalk(body, base, re, a, count) == TagWalk(body, base, re, b, count)
  {
    TagWalkCons(body, base, re, a, count);
    TagWalkCons(body, base, re, b, count);
  }

  /** A prefix of shaped matches is shaped. */
  lemma TagsShapedPrefix(body: string, ms: seq<TagMatch>, n: nat)
    requires AllTagsShaped(body, ms) && n <= |ms|
    ensures AllTagsShaped(body, ms[..n])
  {
    forall i | 0 <= i < n ensures TagShaped(body, ms[..n][i]) {
      assert ms[..n][i] == ms[i];
    }
  }

  /** The walk of a non-empty list below the cap: the first match's ranges, then the rest's. */
  lemma TagWalkCons(body: string, base: int, re: XmlMatchers, ms: seq<TagMatch>, count: nat)
    requires re.Valid() && AllTagsShaped(body, ms)
    requires ms != [] && count < MAX_TAG_MATCHES
    ensures TagWalk(body, base, re, ms, count)
         == MatchRanges(body, base, re, ms[0]) + TagWalk(body, base, re, ms[1..], count + 1)
  {
  }

  /** A self-closing tag contributes at most 20 ranges, all strictly inside its attribute text. */
  lemma SelfClosingRanges(body: string, base: int, re: XmlMatchers, m: TagMatch)
    requires re.Valid() && m.SelfClosing? && TagShaped(body, m)
    ensures var rs := MatchRanges(body, base, re, m);
      && |rs| <= MAX_ATTRIBUTE_MATCHES
      && forall r :: r in rs ==> m.attrStart + 1 <= r.start - base <= r.end - base < m.attrEnd
  {
    AttributeRangesSpec(body[m.attrStart..m.attrEnd], base + m.attrStart, re);
  }

  /**
   * An element whose content is a leaf contributes that content's range
   * first; an element whose content holds '<' is no leaf and ends with the
   * walk of its content, placed at the content's start.
   */
  lemma PairedRanges(body: string, base: int, re: XmlMatchers, m: TagMatch)
    requires re.Valid() && m.Paired? && TagShaped(body, m)
    ensures var content := body[m.contentStart..m.contentEnd];
      var rs := MatchRanges(body, base, re, m);
      var nested := XmlRanges(content, base + m.contentStart, re);
      && (IsLeafText(content) ==> |rs| >= 1 && rs[0] == Range(base + m.contentStart, base + m.contentEnd))
      && (HasChar(content, '<') ==> !IsLeafText(content) && |nested| <= |rs| && rs[|rs| - |nested|..] == nested)
  {
  }

  // ---------------------------------------------------------------------------
  // The methods
  // ---------------------------------------------------------------------------

  /** The loop's step: one more match is the match's ranges followed by the rest. */
  lemma TagWalkStep(body: string, base: int, re: XmlMatchers, ms: seq<TagMatch>, i: nat)
    requires re.Valid() && AllTagsShaped(body, ms)
    requires i < |ms| && i < MAX_TAG_MATCHES
    ensures TagWalk(body, base, re, ms[i..], i)
         == MatchRanges(body, base, re, ms[i]) + TagWalk(body, base, re, ms[i + 1..], i + 1)
  {
    assert ms[i..][1..] == ms[i + 1..];
  }

  /** process(requestBody, requestBodyStart, positions); there is nothing for its catch to swallow. */
  method Process(re: XmlMatchers, requestBody: string, requestBodyStart: int, positions: RangeList)
    requires re.Valid()
    modifies positions
    ensures positions.items == old(positions.items) + XmlRanges(requestBody, requestBodyStart, re)
    decreases |requestBody|, 2
  {
    var ms := re.tags(requestBody);
    assert Scanned(requestBody);
    WalkTags(re, requestBody, requestBodyStart, positions, ms);
  }

  /** process's loop over the first 50 matches of the tag pattern. */
  method WalkTags(re: XmlMatchers, requestBody: string, requestBodyStart: int, positions: RangeList, ms: seq<TagMatch>)
    requires re.Valid() && AllTagsShaped(requestBody, ms)
    modifies positions
    ensures positions.items == old(positions.items) + TagWalk(requestBody, requestBodyStart, re, ms, 0)
    decreases |requestBody|, 1, 2
  {
    ghost var target := old(positions.items) + TagWalk(requestBody, requestBodyStart, re, ms, 0);
    assert ms[0..] == ms;
    var matchCount := 0;
    while matchCount < |ms| && matchCount < MAX_TAG_MATCHES
      invariant 0 <= matchCount <= |ms|
      invariant positions.items + TagWalk(requestBody, requestBodyStart, re, ms[matchCount..], matchCount) == target
    {
      var m := ms[matchCount];
      assert TagShaped(requestBody, m);
      ghost var before := positions.items;
      ghost var walk := TagWalk(requestBody, requestBodyStart, re, ms[matchCount..], matchCount);
      ghost var rest := TagWalk(requestBody, requestBodyStart, re, ms[matchCount + 1..], matchCount + 1);
      TagWalkStep(requestBody, requestBodyStart, re, ms, matchCount);
      ProcessMatch(re, requestBody, requestBodyStart, positions, m);
      Reassociate(before, MatchRanges(requestBody, requestBodyStart, re, m), positions.items, rest, walk, target);
      matchCount := matchCount + 1;
    }
    assert TagWalk(requestBody, requestBodyStart, re, ms[matchCount..], matchCount) == [];
    assert positions.items + [] == positions.items;
  }

  /** The body of process's loop: a self-closing match or a start-end tag match. */
  method ProcessMatch(re: XmlMatchers, requestBody: string, requestBodyStart: int, positions: RangeList, m: TagMatch)
    requires re.Valid() && TagShaped(requestBody, m)
    modifies positions
    ensures positions.items == old(positions.items) + MatchRanges(requestBody, requestBodyStart, re, m)
    decreases |requestBody|, 1, 1
  {
    if m.SelfClosing? {
      ProcessSelfClosing(re, requestBody, requestBodyStart, positions, m);
    } else {
      ProcessElement(re, requestBody, requestBodyStart, positions, m);
    }
  }

  /** The branch of process's loop for a self-closing tag match. */
  method ProcessSelfClosing(re: XmlMatchers, requestBody: string, requestBodyStart: int, positions: RangeList,
                            m: TagMatch)
    requires re.Valid() && m.SelfClosing? && TagShaped(requestBody, m)
    modifies positions
    ensures positions.items == old(positions.items) + MatchRanges(requestBody, requestBodyStart, re, m)
  {
    var attributes := requestBody[m.attrStart..m.attrEnd];
    ProcessXmlAttributes(re, attributes, m.attrStart + requestBodyStart, positions);
  }

  /** The branch of process's loop for a start-end tag match. */
  method ProcessElement(re: XmlMatchers, requestBody: string, requestBodyStart: int, positions: RangeList, m: TagMatch)
    requires re.Valid() && m.Paired? && TagShaped(requestBody, m)
    modifies positions
    ensures positions.items == old(positions.items) + MatchRanges(requestBody, requestBodyStart, re, m)
    decreases |requestBody|, 1, 0
  {
    var content := requestBody[m.contentStart..m.contentEnd];
    if Trim(content) != [] && !HasChar(content, '<') {
      positions.Add(Range(requestBodyStart + m.contentStart, requestBodyStart + m.contentEnd));
    }
    ghost var afterLeaf := positions.items;
    assert afterLeaf == old(positions.items) + LeafRanges(content, requestBodyStart + m.contentStart);

    AddOpeningTagAttributes(re, requestBody, requestBodyStart, positions, m.start);
    ghost var afterAttributes := positions.items;

    if HasChar(content, '<') {
      Process(re, content, requestBodyStart + m.contentStart, positions);
    }
    assert positions.items == afterAttributes + NestedRanges(content, requestBodyStart + m.contentStart, re);
    ElementParts(old(positions.items), LeafRanges(content, requestBodyStart + m.contentStart),
                 TagAttributeRanges(requestBody, requestBodyStart, m.start, re),
                 NestedRanges(content, requestBodyStart + m.contentStart, re),
                 afterLeaf, afterAttributes, positions.items);
  }

  /** Three appends in turn add the three parts of an element's ranges. */
  lemma ElementParts(start: seq<Range>, leaf: seq<Range>, attributes: seq<Range>, nested: seq<Range>,
                     afterLeaf: seq<Range>, afterAttributes: seq<Range>, after: seq<Range>)
    requires afterLeaf == start + leaf && afterAttributes == afterLeaf + attributes && after == afterAttributes + nested
    ensures after == start + (leaf + attributes + nested)
  {
  }

  /** The attribute values of the opening tag that starts at `start`. */
  method AddOpeningTagAttributes(re: XmlMatchers, requestBody: string, requestBodyStart: int, positions: RangeList,
                                 start: int)
    requires 0 <= start
    modifies positions
    ensures positions.items == old(positions.items) + TagAttributeRanges(requestBody, requestBodyStart, start, re)
  {
    var tagEnd := IndexOfCharFrom(requestBody, '>', start);
    if tagEnd > start {
      var openingTag := requestBody[start..tagEnd];
      var attrStart := IndexOfCharFrom(openingTag, ' ', 0);
      if attrStart > 0 {
        var attributes := openingTag[attrStart + 1..];
        ProcessXmlAttributes(re, attributes, start + attrStart + 1 + requestBodyStart, positions);
      }
    }
  }
}

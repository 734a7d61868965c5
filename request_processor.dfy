/**
 * The request processor: inserts the empty-value placeholders, finds the
 * positions on the original request, shifts them past the placeholders,
 * adds the placeholders' own ranges and validates the lot against the
 * final text, giving the Intruder template.
 */
module RequestProcessor {
  import opened Ranges
  import opened Http
  import opened PayloadPositionMode
  import opened RangeUtils
  import opened PlaceholderApplier
  import opened BodyPositioner
  import opened PositionFinder

  /** What Intruder receives: the request content and its insertion point offsets. */
  datatype IntruderTemplate = IntruderTemplate(content: string, insertionPointOffsets: seq<Range>)

  /** The positions before validation: the shifted found positions, then the placeholder ranges. */
  function ShiftedPositions(ps: BodyProcessors, request: HttpRequest, mode: Mode): seq<Range>
    requires ps.Valid()
  {
    var placeholderResult := ApplyResult(request, request.text, ps.json);
    ShiftAll(FoundPositions(request, request.text, mode, ps), placeholderResult.insertions)
    + placeholderResult.placeholderRanges
  }

  /** buildIntruderTemplate(request, mode) as a value. */
  function TemplateOf(ps: BodyProcessors, request: HttpRequest, mode: Mode): IntruderTemplate
    requires ps.Valid()
  {
    var placeholderResult := ApplyResult(request, request.text, ps.json);
    var finalRequestString := placeholderResult.modifiedRequestString;
    IntruderTemplate(
      if placeholderResult.hasChanges then finalRequestString else request.text,
      Validate(ShiftedPositions(ps, request, mode), |finalRequestString|))
  }

  // ---------------------------------------------------------------------------
  // Properties
  // ---------------------------------------------------------------------------

  /**
   * The content is always the placeholder planner's text (the original when
   * nothing was inserted), and the offsets are in bounds of it, sorted and
   * pairwise disjoint; removing the placeholders gives the original back.
   */
  lemma TemplateValid(ps: BodyProcessors, request: HttpRequest, mode: Mode)
    requires ps.Valid()
    ensures var t := TemplateOf(ps, request, mode);
      var placeholderResult := ApplyResult(request, request.text, ps.json);
      && t.content == placeholderResult.modifiedRequestString
      && ValidOutput(t.insertionPointOffsets, |t.content|)
      && Cut(t.content, placeholderResult.placeholderRanges, 0) == request.text
  {
    ApplyResultSpec(request, request.text, ps.json);
    var placeholderResult := ApplyResult(request, request.text, ps.json);
    ValidateShape(ShiftedPositions(ps, request, mode), |placeholderResult.modifiedRequestString|);
  }

  /**
   * Without an empty value to fill the request goes out unchanged, with the
   * found positions validated against it; with one, the content is longer
   * by one placeholder per insertion.
   */
  lemma TemplateWithoutChanges(ps: BodyProcessors, request: HttpRequest, mode: Mode)
    requires ps.Valid()
    ensures var t := TemplateOf(ps, request, mode);
      var placeholderResult := ApplyResult(request, request.text, ps.json);
      && (!placeholderResult.hasChanges ==>
            t == IntruderTemplate(request.text, Validate(FoundPositions(request, request.text, mode, ps), |request.text|)))
      && (placeholderResult.hasChanges ==>
            && placeholderResult.insertions != []
            && |t.content| == |request.text| + |EMPTY_VALUE_PLACEHOLDER| * |placeholderResult.insertions|)
  {
    ApplyResultSpec(request, request.text, ps.json);
    var placeholderResult := ApplyResult(request, request.text, ps.json);
    if !placeholderResult.hasChanges {
      UnshiftedWithoutInsertions(FoundPositions(request, request.text, mode, ps), placeholderResult, ShiftedPositions(ps, request, mode));
    }
  }

  /** Without insertions or placeholder ranges, shifting and appending leave the found list as it is. */
  lemma UnshiftedWithoutInsertions(found: seq<Range>, placeholderResult: PlaceholderResult, shifted: seq<Range>)
    requires placeholderResult.insertions == [] && placeholderResult.placeholderRanges == []
    requires shifted == ShiftAll(found, placeholderResult.insertions) + placeholderResult.placeholderRanges
    ensures shifted == found
  {
    ShiftAllShape(found, placeholderResult.insertions);
    assert shifted == found + [];
  }

  /**
   * Every offset handed to Intruder is a found position shifted past the
   * placeholders or a placeholder's own range; nothing is invented.
   */
  lemma TemplateOffsetsFromSources(ps: BodyProcessors, request: HttpRequest, mode: Mode)
    requires ps.Valid()
    ensures var t := TemplateOf(ps, request, mode);
      var placeholderResult := ApplyResult(request, request.text, ps.json);
      var found := FoundPositions(request, request.text, mode, ps);
      forall x :: x in t.insertionPointOffsets ==>
        || (exists i :: 0 <= i < |found| && x == ShiftRange(found[i], placeholderResult.insertions))
        || x in placeholderResult.placeholderRanges
  {
    var placeholderResult := ApplyResult(request, request.text, ps.json);
    var finalRequestString := placeholderResult.modifiedRequestString;
    var found := FoundPositions(request, request.text, mode, ps);
    var shifted := ShiftedPositions(ps, request, mode);
    ValidateSubset(shifted, |finalRequestString|);
    forall x | x in Validate(shifted, |finalRequestString|)
      ensures || (exists i :: 0 <= i < |found| && x == ShiftRange(found[i], placeholderResult.insertions))
              || x in placeholderResult.placeholderRanges
    {
      assert x in shifted;
      if x !in placeholderResult.placeholderRanges {
        var shiftedFound := ShiftAll(found, placeholderResult.insertions);
        assert x in shiftedFound;
        var i :| 0 <= i < |shiftedFound| && shiftedFound[i] == x;
      }
    }
  }

  /**
   * Every inserted placeholder is marked: it is an offset itself or overlaps
   * one (the validator keeps the shorter of two nested ranges).
   */
  lemma TemplateMarksPlaceholders(ps: BodyProcessors, request: HttpRequest, mode: Mode)
    requires ps.Valid()
    ensures forall x :: x in ApplyResult(request, request.text, ps.json).placeholderRanges ==>
      exists y :: y in TemplateOf(ps, request, mode).insertionPointOffsets && Overlap(x, y)
  {
    var placeholderResult := ApplyResult(request, request.text, ps.json);
    var rs := placeholderResult.placeholderRanges;
    var n := |placeholderResult.modifiedRequestString|;
    var front := ShiftAll(FoundPositions(request, request.text, mode, ps), placeholderResult.insertions);
    assert forall x :: x in rs ==> InBounds(x, n) by {
      ApplyResultSpec(request, request.text, ps.json);
    }
    assert TemplateOf(ps, request, mode).insertionPointOffsets == Validate(front + rs, n);
    ValidateKeepsCovered(front, rs, n);
  }

  /** Each of `rs` that is in bounds overlaps a range kept by validating `front + rs`. */
  lemma ValidateKeepsCovered(front: seq<Range>, rs: seq<Range>, n: int)
    requires forall x :: x in rs ==> InBounds(x, n)
    ensures forall x :: x in rs ==> exists y :: y in Validate(front + rs, n) && Overlap(x, y)
  {
    ValidateCovers(front + rs, n);
    forall x | x in rs
      ensures exists y :: y in Validate(front + rs, n) && Overlap(x, y)
    {
      assert x in front + rs && Acceptable(x, n);
    }
  }

  // ---------------------------------------------------------------------------
  // buildIntruderTemplate
  // ---------------------------------------------------------------------------

  /** buildIntruderTemplate(request, mode). */
  method BuildIntruderTemplate(ps: BodyProcessors, request: HttpRequest, mode: Mode) returns (template: IntruderTemplate)
    requires ps.Valid()
    ensures template == TemplateOf(ps, request, mode)
  {
    var originalRequestString := request.text;
    var placeholderResult := Apply(ps.json, request, originalRequestString);

    var originalPositions := FindPositions(ps, request, originalRequestString, mode);
    var shiftedPositions := ShiftRangesForInsertions(originalPositions.items, placeholderResult.insertions);
    shiftedPositions.AddAll(placeholderResult.placeholderRanges);

    var finalRequestString := placeholderResult.modifiedRequestString;
    var finalPositions := ValidatePositions(shiftedPositions, |finalRequestString|);

    var content := if placeholderResult.hasChanges then finalRequestString else request.text;
    template := IntruderTemplate(content, finalPositions.items);
  }
}

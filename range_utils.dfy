/**
 * Final-range validation and insertion-offset shifting.
 *
 * The validator sorts the caller's list in place by start and then by length,
 * drops every range that is empty, negative or past the text, and resolves
 * overlaps in favour of the range that is contained and strictly shorter.
 * The shifter moves a boundary past every inserted text whose index is at or
 * before it.
 */
module RangeUtils {
  import opened Ranges

  // ---------------------------------------------------------------------------
  // The sort order: ascending start, then ascending length
  // ---------------------------------------------------------------------------

  predicate KeyLe(a: Range, b: Range)
  {
    a.start < b.start || (a.start == b.start && a.Length() <= b.Length())
  }

  predicate SortedByKey(s: seq<Range>)
  {
    forall i, j :: 0 <= i < j < |s| ==> KeyLe(s[i], s[j])
  }

  /** Insert `r` before the first element it does not follow. */
  function InsertByKey(r: Range, s: seq<Range>): seq<Range>
  {
    if s == [] then [r]
    else if KeyLe(r, s[0]) then [r] + s
    else [s[0]] + InsertByKey(r, s[1..])
  }

  /** The order List.sort leaves the ranges in (an insertion sort). */
  function SortByKey(s: seq<Range>): seq<Range>
  {
    if s == [] then [] else InsertByKey(s[0], SortByKey(s[1..]))
  }

  lemma {:induction false} InsertByKeyCorrect(r: Range, s: seq<Range>)
    requires SortedByKey(s)
    ensures multiset(InsertByKey(r, s)) == multiset(s) + multiset{r}
    ensures SortedByKey(InsertByKey(r, s))
  {
    if s == [] {
    } else if KeyLe(r, s[0]) {
    } else {
      InsertByKeyCorrect(r, s[1..]);
      var t := InsertByKey(r, s[1..]);
      assert s == [s[0]] + s[1..];
      forall x | x in t ensures KeyLe(s[0], x) {
        assert x in multiset(t);
        assert x in multiset(s[1..]) || x == r;
      }
    }
  }

  /** Sorting yields an ordered permutation of its input. */
  lemma {:induction false} SortByKeyCorrect(s: seq<Range>)
    ensures multiset(SortByKey(s)) == multiset(s)
    ensures SortedByKey(SortByKey(s))
  {
    if s != [] {
      SortByKeyCorrect(s[1..]);
      InsertByKeyCorrect(s[0], SortByKey(s[1..]));
      assert s == [s[0]] + s[1..];
    }
  }

  /** Sorting an already ordered list leaves it unchanged. */
  lemma {:induction false} SortByKeyOfSorted(s: seq<Range>)
    requires SortedByKey(s)
    ensures SortByKey(s) == s
  {
    if s != [] {
      SortByKeyOfSorted(s[1..]);
      assert SortByKey(s[1..]) == s[1..];
      if |s| > 1 {
        assert KeyLe(s[0], s[1]);
      }
    }
  }

  /**
   * Two ordered permutations of the same ranges are equal: equal keys mean
   * equal ranges, so any correct sort (the stable List.sort included) leaves
   * the list exactly as SortByKey does.
   */
  lemma {:induction false} SortedPermutationUnique(a: seq<Range>, b: seq<Range>)
    requires SortedByKey(a) && SortedByKey(b)
    requires multiset(a) == multiset(b)
    ensures a == b
  {
    if a == [] {
      assert |multiset(b)| == 0;
    } else {
      assert |b| == |multiset(b)| == |multiset(a)| == |a| > 0;
      var x, y := a[0], b[0];
      assert x in multiset(b) && y in multiset(a);
      var i :| 0 <= i < |b| && b[i] == x;
      var j :| 0 <= j < |a| && a[j] == y;
      assert KeyLe(y, x) by { if i > 0 { assert KeyLe(b[0], b[i]); } }
      assert KeyLe(x, y) by { if j > 0 { assert KeyLe(a[0], a[j]); } }
      assert x == y;
      TailsSamePermutation(a, b);
      SortedPermutationUnique(a[1..], b[1..]);
    }
  }

  lemma TailsSamePermutation(a: seq<Range>, b: seq<Range>)
    requires a != [] && b != [] && a[0] == b[0]
    requires multiset(a) == multiset(b)
    ensures multiset(a[1..]) == multiset(b[1..])
  {
    assert a == [a[0]] + a[1..];
    assert b == [b[0]] + b[1..];
    calc {
      multiset(a[1..]);
      multiset(a) - multiset{a[0]};
      multiset(b) - multiset{b[0]};
      multiset(b[1..]);
    }
  }

  // ---------------------------------------------------------------------------
  // The validation walk
  // ---------------------------------------------------------------------------

  /** The basic validation: 0 <= start, end <= maxLength and start < end. */
  predicate Acceptable(r: Range, maxLength: int)
  {
    !(r.start < 0 || r.end > maxLength || r.start >= r.end)
  }

  /**
   * One step of the walk over the sorted list: drop an unacceptable range;
   * append a range that starts at or after the last accepted end; replace
   * the last accepted range by an overlapping range that it contains and that
   * is strictly shorter; drop any other overlapping range.
   */
  function Accept(valid: seq<Range>, r: Range, maxLength: int): seq<Range>
  {
    if !Acceptable(r, maxLength) then valid
    else if valid == [] then [r]
    else
      var previous := valid[|valid| - 1];
      if r.start >= previous.end then valid + [r]
      else if r.start >= previous.start && r.end <= previous.end && r.Length() < previous.Length()
      then valid[..|valid| - 1] + [r]
      else valid
  }

  /** The accepted list after walking `sorted` from the left. */
  function Resolve(sorted: seq<Range>, maxLength: int): seq<Range>
  {
    if sorted == [] then []
    else Accept(Resolve(sorted[..|sorted| - 1], maxLength), sorted[|sorted| - 1], maxLength)
  }

  /** validatePositions as a value: the empty list as it is, else walk the sorted list. */
  function Validate(ranges: seq<Range>, maxLength: int): seq<Range>
  {
    if ranges == [] then ranges else Resolve(SortByKey(ranges), maxLength)
  }

  /** The validator's output contract, over any list. */
  predicate ValidOutput(out: seq<Range>, maxLength: int)
  {
    && (forall r :: r in out ==> InBounds(r, maxLength))
    && SortedDisjoint(out)
  }

  lemma {:induction false} ResolveShape(s: seq<Range>, maxLength: int)
    ensures ValidOutput(Resolve(s, maxLength), maxLength)
    ensures forall r :: r in Resolve(s, maxLength) ==> r in s
  {
    if s != [] {
      var prefix := s[..|s| - 1];
      var r := s[|s| - 1];
      ResolveShape(prefix, maxLength);
      var valid := Resolve(prefix, maxLength);
      var out := Resolve(s, maxLength);
      assert out == Accept(valid, r, maxLength);
      forall x | x in out ensures x in s {
        if x != r {
          assert x in valid;
          assert x in prefix;
        }
      }
      if Acceptable(r, maxLength) && valid != [] {
        var previous := valid[|valid| - 1];
        if r.start >= previous.end {
          forall i | 0 <= i < |valid| ensures valid[i].end <= r.start {
            if i < |valid| - 1 {
              assert valid[i].end <= previous.start;
              assert previous in valid;
            }
          }
        } else if r.start >= previous.start && r.end <= previous.end && r.Length() < previous.Length() {
          forall i | 0 <= i < |valid| - 1 ensures valid[i].end <= r.start {
            assert valid[i].end <= previous.start;
          }
        }
      }
    }
  }

  /** Every range returned lies in bounds and is non-empty; the list is sorted and disjoint. */
  lemma ValidateShape(ranges: seq<Range>, maxLength: int)
    ensures ValidOutput(Validate(ranges, maxLength), maxLength)
  {
    if ranges != [] {
      ResolveShape(SortByKey(ranges), maxLength);
    }
  }

  /** Validation never creates or alters a range: every output range is an input range. */
  lemma ValidateSubset(ranges: seq<Range>, maxLength: int)
    ensures forall r :: r in Validate(ranges, maxLength) ==> r in ranges
  {
    if ranges != [] {
      ResolveShape(SortByKey(ranges), maxLength);
      SortByKeyCorrect(ranges);
      forall r | r in Validate(ranges, maxLength) ensures r in ranges {
        assert r in multiset(SortByKey(ranges));
      }
    }
  }

  /** A valid output list is accepted range by range. */
  lemma {:induction false} ResolveOfValidOutput(s: seq<Range>, maxLength: int)
    requires ValidOutput(s, maxLength)
    ensures Resolve(s, maxLength) == s
  {
    if s != [] {
      var prefix := s[..|s| - 1];
      assert ValidOutput(prefix, maxLength) by {
        forall r | r in prefix ensures InBounds(r, maxLength) { assert r in s; }
      }
      ResolveOfValidOutput(prefix, maxLength);
      assert s[|s| - 1] in s;
      if |prefix| > 0 {
        assert prefix[|prefix| - 1].end <= s[|s| - 1].start;
      }
      assert prefix + [s[|s| - 1]] == s;
    }
  }

  /** Re-validating a validated list leaves it unchanged. */
  lemma ValidateIdempotent(ranges: seq<Range>, maxLength: int)
    ensures Validate(Validate(ranges, maxLength), maxLength) == Validate(ranges, maxLength)
  {
    var v := Validate(ranges, maxLength);
    ValidateShape(ranges, maxLength);
    if v != [] {
      assert SortedByKey(v) by {
        forall i, j | 0 <= i < j < |v| ensures KeyLe(v[i], v[j]) {
          assert v[i] in v;
          assert v[i].start < v[i].end <= v[j].start;
        }
      }
      SortByKeyOfSorted(v);
      ResolveOfValidOutput(v, maxLength);
    }
  }

  /**
   * An input range that is in bounds and non-empty is dropped only for an
   * overlap: some output range shares an offset with it. (The last accepted
   * range witnesses every range it has displaced and ends no later than they do.)
   */
  predicate Witnessed(x: Range, out: seq<Range>)
  {
    || (exists j :: 0 <= j < |out| - 1 && Overlap(x, out[j]))
    || (|out| > 0 && Overlap(x, out[|out| - 1]) && out[|out| - 1].end <= x.end)
  }

  lemma {:induction false} ResolveWitnesses(s: seq<Range>, maxLength: int)
    requires SortedByKey(s)
    ensures forall k :: 0 <= k < |s| && Acceptable(s[k], maxLength) ==> Witnessed(s[k], Resolve(s, maxLength))
  {
    if s != [] {
      var prefix := s[..|s| - 1];
      var r := s[|s| - 1];
      ResolveWitnesses(prefix, maxLength);
      ResolveShape(prefix, maxLength);
      var valid := Resolve(prefix, maxLength);
      var out := Resolve(s, maxLength);
      assert out == Accept(valid, r, maxLength);
      forall k | 0 <= k < |s| && Acceptable(s[k], maxLength) ensures Witnessed(s[k], out) {
        var x := s[k];
        if k == |s| - 1 {
          if valid == [] {
            assert out == [r];
          } else {
            var previous := valid[|valid| - 1];
            assert previous in prefix;
            var p :| 0 <= p < |prefix| && prefix[p] == previous;
            assert KeyLe(s[p], s[|s| - 1]);
            if r.start >= previous.end {
              assert out[|out| - 1] == r;
            } else if r.start >= previous.start && r.end <= previous.end && r.Length() < previous.Length() {
              assert out[|out| - 1] == r;
            } else {
              assert out == valid;
              assert Overlap(r, previous) && previous.end <= r.end;
            }
          }
        } else {
          assert x == prefix[k];
          assert Witnessed(x, valid);
          assert KeyLe(s[k], s[|s| - 1]);
          if Acceptable(r, maxLength) && valid != [] {
            var previous := valid[|valid| - 1];
            if r.start >= previous.end {
              assert out == valid + [r];
              if exists j :: 0 <= j < |valid| - 1 && Overlap(x, valid[j]) {
                var j :| 0 <= j < |valid| - 1 && Overlap(x, valid[j]);
                assert out[j] == valid[j];
              } else {
                assert out[|valid| - 1] == previous;
              }
            } else if r.start >= previous.start && r.end <= previous.end && r.Length() < previous.Length() {
              assert out == valid[..|valid| - 1] + [r];
              if exists j :: 0 <= j < |valid| - 1 && Overlap(x, valid[j]) {
                var j :| 0 <= j < |valid| - 1 && Overlap(x, valid[j]);
                assert out[j] == valid[j];
              } else {
                assert Overlap(x, previous) && previous.end <= x.end;
                assert out[|out| - 1] == r;
              }
            }
          }
        }
      }
    }
  }

  /** Every in-bounds, non-empty input range overlaps some output range. */
  lemma ValidateCovers(ranges: seq<Range>, maxLength: int)
    ensures forall x :: x in ranges && Acceptable(x, maxLength) ==>
      exists y :: y in Validate(ranges, maxLength) && Overlap(x, y)
  {
    if ranges != [] {
      var sorted := SortByKey(ranges);
      SortByKeyCorrect(ranges);
      ResolveWitnesses(sorted, maxLength);
      forall x | x in ranges && Acceptable(x, maxLength)
        ensures exists y :: y in Validate(ranges, maxLength) && Overlap(x, y)
      {
        assert x in multiset(sorted);
        var k :| 0 <= k < |sorted| && sorted[k] == x;
        var out := Resolve(sorted, maxLength);
        assert Witnessed(sorted[k], out);
        if exists j :: 0 <= j < |out| - 1 && Overlap(x, out[j]) {
          var j :| 0 <= j < |out| - 1 && Overlap(x, out[j]);
          assert out[j] in out;
        } else {
          assert out[|out| - 1] in out;
        }
      }
    }
  }

  /**
   * validatePositions: sorts the caller's list in place, then walks it
   * building a new list; an empty input list is itself returned.
   */
  method ValidatePositions(ranges: RangeList, maxLength: int) returns (validRanges: RangeList)
    modifies ranges
    ensures old(ranges.items) == [] ==> validRanges == ranges && ranges.items == []
    ensures old(ranges.items) != [] ==> fresh(validRanges) && ranges.items == SortByKey(old(ranges.items))
    ensures validRanges.items == Validate(old(ranges.items), maxLength)
  {
    if ranges.Size() == 0 {
      return ranges;
    }

    // ranges.sort(comparingInt(start).thenComparingInt(length))
    ranges.items := SortByKey(ranges.items);

    validRanges := new RangeList();
    var sorted := ranges.items;
    var i := 0;
    while i < |sorted|
      invariant 0 <= i <= |sorted|
      invariant ranges.items == sorted
      invariant validRanges.items == Resolve(sorted[..i], maxLength)
    {
      var range := sorted[i];
      assert sorted[..i + 1][..i] == sorted[..i];
      if range.start < 0 || range.end > maxLength || range.start >= range.end {
        i := i + 1;
        continue;
      }

      if validRanges.Size() == 0 {
        validRanges.Add(range);
        i := i + 1;
        continue;
      }

      var previous := validRanges.items[validRanges.Size() - 1];
      var overlaps := range.start < previous.end;
      if !overlaps {
        validRanges.Add(range);
        i := i + 1;
        continue;
      }

      var containedInPrevious := range.start >= previous.start && range.end <= previous.end;
      var previousLen := previous.end - previous.start;
      var currentLen := range.end - range.start;
      if containedInPrevious && currentLen < previousLen {
        validRanges.Set(validRanges.Size() - 1, range);
      }
      i := i + 1;
    }
    assert sorted[..i] == sorted;
  }

  // ---------------------------------------------------------------------------
  // Shifting boundaries past inserted text
  // ---------------------------------------------------------------------------

  /**
   * The total length the loop in shiftBoundary adds: the text lengths of the
   * leading operations whose index is at most `boundary`, stopping at the
   * first operation past it.
   */
  function ShiftDelta(insertions: seq<InsertionOp>, boundary: int): int
  {
    if insertions == [] || insertions[0].index > boundary then 0
    else |insertions[0].text| + ShiftDelta(insertions[1..], boundary)
  }

  /** The total length of ALL operations with index at most `boundary`, in any order. */
  function InsertedUpTo(insertions: seq<InsertionOp>, boundary: int): int
  {
    if insertions == [] then 0
    else (if insertions[0].index <= boundary then |insertions[0].text| else 0)
         + InsertedUpTo(insertions[1..], boundary)
  }

  predicate AscendingIndices(insertions: seq<InsertionOp>)
  {
    forall i, j :: 0 <= i < j < |insertions| ==> insertions[i].index <= insertions[j].index
  }

  lemma {:induction false} InsertedUpToNone(insertions: seq<InsertionOp>, boundary: int)
    requires forall op :: op in insertions ==> op.index > boundary
    ensures InsertedUpTo(insertions, boundary) == 0
  {
    if insertions != [] {
      assert insertions[0] in insertions;
      InsertedUpToNone(insertions[1..], boundary);
    }
  }

  /** For ascending operations the early exit loses nothing: the prefix sum is the full sum. */
  lemma {:induction false} ShiftDeltaAscending(insertions: seq<InsertionOp>, boundary: int)
    requires AscendingIndices(insertions)
    ensures ShiftDelta(insertions, boundary) == InsertedUpTo(insertions, boundary)
  {
    if insertions != [] {
      if insertions[0].index > boundary {
        forall op | op in insertions[1..] ensures op.index > boundary {
          var k :| 0 <= k < |insertions[1..]| && insertions[1..][k] == op;
          assert insertions[k + 1] == op;
        }
        InsertedUpToNone(insertions[1..], boundary);
      } else {
        ShiftDeltaAscending(insertions[1..], boundary);
      }
    }
  }

  /** Out of order operations are not all counted: the loop stops at the first larger index. */
  lemma UnsortedInsertionsStopEarly()
    ensures ShiftDelta([InsertionOp(5, "x"), InsertionOp(1, "y")], 3) == 0
    ensures InsertedUpTo([InsertionOp(5, "x"), InsertionOp(1, "y")], 3) == 1
  {
    var ops := [InsertionOp(5, "x"), InsertionOp(1, "y")];
    assert ops[1..] == [InsertionOp(1, "y")];
    assert ops[1..][1..] == [];
  }

  lemma {:induction false} ShiftDeltaMonotone(insertions: seq<InsertionOp>, b1: int, b2: int)
    requires b1 <= b2
    ensures 0 <= ShiftDelta(insertions, b1) <= ShiftDelta(insertions, b2)
  {
    if insertions != [] && insertions[0].index <= b1 {
      ShiftDeltaMonotone(insertions[1..], b1, b2);
    } else if insertions != [] && insertions[0].index <= b2 {
      ShiftDeltaMonotone(insertions[1..], b2, b2);
    }
  }

  /** A shifted boundary never moves left, and shifting is strictly monotone. */
  lemma ShiftedBoundaryMonotone(insertions: seq<InsertionOp>, b1: int, b2: int)
    requires b1 < b2
    ensures b1 <= b1 + ShiftDelta(insertions, b1) < b2 + ShiftDelta(insertions, b2)
  {
    ShiftDeltaMonotone(insertions, b1, b2);
  }

  /**
   * shiftBoundary: the boundary plus the lengths of the leading operations
   * whose index is at most the boundary; with ascending operations, plus the
   * lengths of all operations at or before it.
   */
  method ShiftBoundary(boundary: int, insertions: seq<InsertionOp>) returns (shifted: int)
    ensures shifted == boundary + ShiftDelta(insertions, boundary)
    ensures AscendingIndices(insertions) ==> shifted == boundary + InsertedUpTo(insertions, boundary)
    ensures shifted >= boundary
  {
    var delta := 0;
    var k := 0;
    while k < |insertions|
      invariant 0 <= k <= |insertions|
      invariant delta + ShiftDelta(insertions[k..], boundary) == ShiftDelta(insertions, boundary)
    {
      var op := insertions[k];
      assert insertions[k..][1..] == insertions[k + 1..];
      if op.index <= boundary {
        delta := delta + |op.text|;
      } else {
        break;
      }
      k := k + 1;
    }
    shifted := boundary + delta;
    ShiftDeltaMonotone(insertions, boundary, boundary);
    if AscendingIndices(insertions) {
      ShiftDeltaAscending(insertions, boundary);
    }
  }

  function ShiftRange(r: Range, insertions: seq<InsertionOp>): Range
  {
    Range(r.start + ShiftDelta(insertions, r.start), r.end + ShiftDelta(insertions, r.end))
  }

  /** The list shiftRangesForInsertions builds: each range with both boundaries shifted. */
  function ShiftAll(ranges: seq<Range>, insertions: seq<InsertionOp>): seq<Range>
  {
    seq(|ranges|, i requires 0 <= i < |ranges| => ShiftRange(ranges[i], insertions))
  }

  /**
   * Shifting keeps count and order, keeps non-empty ranges non-empty and
   * disjoint ranges disjoint, and is the identity without insertions.
   */
  lemma ShiftAllShape(ranges: seq<Range>, insertions: seq<InsertionOp>)
    ensures |ShiftAll(ranges, insertions)| == |ranges|
    ensures insertions == [] ==> ShiftAll(ranges, insertions) == ranges
    ensures forall i :: 0 <= i < |ranges| && ranges[i].start < ranges[i].end ==>
      ShiftAll(ranges, insertions)[i].start < ShiftAll(ranges, insertions)[i].end
    ensures SortedDisjoint(ranges) ==> SortedDisjoint(ShiftAll(ranges, insertions))
  {
    var out := ShiftAll(ranges, insertions);
    forall i | 0 <= i < |ranges| && ranges[i].start < ranges[i].end
      ensures out[i].start < out[i].end
    {
      ShiftedBoundaryMonotone(insertions, ranges[i].start, ranges[i].end);
    }
    if SortedDisjoint(ranges) {
      forall i, j | 0 <= i < j < |ranges| ensures out[i].end <= out[j].start {
        ShiftDeltaMonotone(insertions, ranges[i].end, ranges[j].start);
      }
    }
  }

  /** shiftRangesForInsertions: a new list of the shifted ranges (a plain copy without insertions). */
  method ShiftRangesForInsertions(originalRanges: seq<Range>, insertions: seq<InsertionOp>)
    returns (shifted: RangeList)
    ensures fresh(shifted)
    ensures shifted.items == ShiftAll(originalRanges, insertions)
  {
    if |insertions| == 0 {
      shifted := new RangeList.Of(originalRanges);
      ShiftAllShape(originalRanges, insertions);
      return;
    }

    shifted := new RangeList();
    var i := 0;
    while i < |originalRanges|
      invariant 0 <= i <= |originalRanges|
      invariant shifted.items == ShiftAll(originalRanges[..i], insertions)
    {
      var range := originalRanges[i];
      var newStart := ShiftBoundary(range.start, insertions);
      var newEnd := ShiftBoundary(range.end, insertions);
      shifted.Add(Range(newStart, newEnd));
      i := i + 1;
    }
    assert originalRanges[..i] == originalRanges;
  }

  // ---------------------------------------------------------------------------
  // Worked cases
  // ---------------------------------------------------------------------------

  /** A contained, shorter range replaces the range it overlaps, whatever the input order. */
  lemma PrefersContainedRange()
    ensures Validate([Range(10, 20), Range(12, 15)], 100) == [Range(12, 15)]
    ensures Validate([Range(12, 15), Range(10, 20)], 100) == [Range(12, 15)]
  {
    var a := [Range(10, 20), Range(12, 15)];
    assert SortByKey(a[1..]) == [Range(12, 15)];
    assert SortByKey(a) == a;
    assert a[..1] == [Range(10, 20)];
    assert Resolve(a[..1], 100) == [Range(10, 20)];
    var b := [Range(12, 15), Range(10, 20)];
    assert SortByKey(b[1..]) == [Range(10, 20)];
    assert SortByKey(b) == a;
  }
}

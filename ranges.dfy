/**
 * Burp's half-open offset pair, the planned text insertion, and the
 * java.util.List<Range> that positioners append to in place.
 */
module Ranges {

  /** Range.range(startIndexInclusive, endIndexExclusive). */
  datatype Range = Range(start: int, end: int)
  {
    function Length(): int { end - start }
  }

  /** An insertion of `text` at `index` of the original request text. */
  datatype InsertionOp = InsertionOp(index: int, text: string)

  /** 0 <= start < end <= maxLength: the shape every final range must have. */
  predicate InBounds(r: Range, maxLength: int)
  {
    0 <= r.start < r.end <= maxLength
  }

  /** Every range lies inside [lo, hi] (empty ranges allowed). */
  predicate AllWithin(rs: seq<Range>, lo: int, hi: int)
  {
    forall r :: r in rs ==> lo <= r.start <= r.end <= hi
  }

  /** Ranges in ascending order, each ending at or before the next one starts. */
  predicate SortedDisjoint(rs: seq<Range>)
  {
    forall i, j :: 0 <= i < j < |rs| ==> rs[i].end <= rs[j].start
  }

  /** The two ranges share at least one offset. */
  predicate Overlap(a: Range, b: Range)
  {
    a.start < b.end && b.start < a.end
  }

  /** Every range is non-empty and lies inside [lo, hi]. */
  predicate AllNonEmptyWithin(rs: seq<Range>, lo: int, hi: int)
  {
    forall r :: r in rs ==> lo <= r.start < r.end <= hi
  }

  lemma AllNonEmptyWithinWiden(rs: seq<Range>, lo: int, hi: int, lo': int, hi': int)
    requires AllNonEmptyWithin(rs, lo, hi) && lo' <= lo && hi <= hi'
    ensures AllNonEmptyWithin(rs, lo', hi')
  {
  }

  lemma AllNonEmptyWithinConcat(a: seq<Range>, b: seq<Range>, lo: int, hi: int)
    requires AllNonEmptyWithin(a, lo, hi) && AllNonEmptyWithin(b, lo, hi)
    ensures AllNonEmptyWithin(a + b, lo, hi)
  {
  }

  lemma AllWithinConcat(a: seq<Range>, b: seq<Range>, lo: int, hi: int)
    requires AllWithin(a, lo, hi) && AllWithin(b, lo, hi)
    ensures AllWithin(a + b, lo, hi)
  {
  }

  /**
   * A java.util.List<Range> that callers share and mutate: positioners
   * append to it and the validator sorts it in place.
   */
  class RangeList {
    var items: seq<Range>

    /** new ArrayList<>() */
    constructor ()
      ensures items == []
    {
      items := [];
    }

    /** new ArrayList<>(source): a copy of the given contents. */
    constructor Of(source: seq<Range>)
      ensures items == source
    {
      items := source;
    }

    /** list.add(r) */
    method Add(r: Range)
      modifies this
      ensures items == old(items) + [r]
    {
      items := items + [r];
    }

    /** list.addAll(rs) */
    method AddAll(rs: seq<Range>)
      modifies this
      ensures items == old(items) + rs
    {
      items := items + rs;
    }

    /** list.set(i, r) */
    method Set(i: nat, r: Range)
      requires i < |items|
      modifies this
      ensures items == old(items)[i := r]
    {
      items := items[i := r];
    }

    /** list.size() */
    function Size(): nat
      reads this
    {
      |items|
    }
  }
}

/**
 * The interval iterator of src/intervaliterator.h. It walks the boundary buffer of
 * a ProcSet two entries at a time and reports each stored half-open pair [lo, hi)
 * as the closed pair (lo, hi - 1), the subtraction done in uint32 arithmetic.
 */
module IntervalIterators {
  import opened Wrappers
  import opened Boundaries
  import opened BoundaryParser
  import opened ProcSets

  /** A closed interval (lo, hi) as the iterator yields it. */
  type ClosedInterval = (Boundary, Boundary)

  /** The closed pairs a boundary sequence denotes; a lone trailing boundary is ignored. */
  function Intervals(b: seq<Boundary>): (r: seq<ClosedInterval>)
    ensures |r| == |b| / 2
  {
    if |b| < 2 then [] else [(b[0], Pred32(b[1]))] + Intervals(b[2..])
  }

  /** The k-th closed pair is built from boundaries 2k and 2k+1. */
  lemma {:induction false} IntervalsAt(b: seq<Boundary>, k: nat)
    requires k < |b| / 2
    ensures Intervals(b)[k] == (b[2 * k], Pred32(b[2 * k + 1]))
  {
    if k > 0 {
      IntervalsAt(b[2..], k - 1);
    }
  }

  /** A well-formed stored pair lo < hi yields lo <= hi - 1, with no wrap-around. */
  lemma WellFormedPairNoWrap(b: seq<Boundary>, k: nat)
    requires k < |b| / 2 && b[2 * k] < b[2 * k + 1]
    ensures Intervals(b)[k].1 == b[2 * k + 1] - 1
    ensures Intervals(b)[k].0 <= Intervals(b)[k].1
  {
    IntervalsAt(b, k);
  }

  /**
   * The parser accepts "00"; its empty stored pair [0, 0) is yielded with the upper
   * bound wrapped around to the sentinel.
   */
  lemma EmptyPairWrapsAround()
    ensures ParseBoundaries("00") == Success([0, 0])
    ensures Intervals(ParseBoundaries("00").value) == [(0, MAX_BOUND_VALUE)]
  {
    ParseSucceedsIff("00");
    assert ParseBoundaries("00").value == [0, 0];
  }

  class IntervalIterator {
    /** The position of the next lower bound to read. */
    var i: nat
    /** The boundary count of the set, taken when the iterator was created. */
    var max: nat
    /** The set being iterated; null once the iteration has ended. */
    var obj: ProcSet?

    /** Positions stay on lower bounds and within the buffer of a live set. */
    ghost predicate Valid()
      reads this, obj
    {
      obj != null ==> i <= max <= obj.boundaries.Length && i % 2 == 0 && max % 2 == 0
    }

    /** The closed pairs still to be yielded. */
    ghost function Pending(): (p: seq<ClosedInterval>)
      requires Valid() && obj != null
      reads this, obj, obj.boundaries
    {
      Intervals(obj.boundaries[i..max])
    }

    /** IntervalIterator_new: starts at position 0 with a snapshot of the boundary count. */
    constructor (pset: ProcSet)
      requires pset.Valid()
      ensures Valid() && obj == pset
      ensures i == 0 && max == pset.nbBoundary
      ensures Pending() == Intervals(pset.Contents())
    {
      i := 0;
      max := pset.nbBoundary;
      obj := pset;
    }

    /** IntervalIterator_iter: an iterator is its own iterator. */
    method Iter() returns (it: IntervalIterator)
      ensures it == this
    {
      it := this;
    }

    /**
     * IntervalIterator_next. With the set released it ends at once; with the
     * position at or past the snapshot it releases the set and ends; otherwise it
     * yields the pair at the position and advances by one pair.
     */
    method Next() returns (r: Option<ClosedInterval>)
      requires Valid()
      modifies this`i, this`obj
      ensures Valid()
      ensures old(obj) == null ==> r == None && obj == null && i == old(i)
      ensures old(obj) != null && old(i) >= max ==> r == None && obj == null && i == old(i)
      ensures old(obj != null && i < max) ==>
        obj == old(obj) && i == old(i) + 2 &&
        r == Some((obj.boundaries[old(i)], Pred32(obj.boundaries[old(i) + 1]))) &&
        r == Some(old(Pending())[0]) && Pending() == old(Pending())[1..]
    {
      if obj == null {
        return None;
      } else if i >= max {
        obj := null;
        return None;
      }
      var lo := obj.boundaries[i];
      var hi := Pred32(obj.boundaries[i + 1]);
      assert obj.boundaries[i..max][2..] == obj.boundaries[i + 2..max];
      i := i + 2;
      return Some((lo, hi));
    }
  }

  /**
   * A set built from an all-digit string of even length is iterated as |s| / 2
   * closed pairs, the k-th being (digit 2k, digit 2k+1 minus one).
   */
  lemma ParsedSetIntervals(s: string, k: nat)
    requires AllDigits(s) && |s| % 2 == 0 && k < |s| / 2
    ensures ParseBoundaries(s).Success?
    ensures |Intervals(ParseBoundaries(s).value)| * 2 == |s|
    ensures Intervals(ParseBoundaries(s).value)[k]
         == (DigitValue(s[2 * k]), Pred32(DigitValue(s[2 * k + 1])))
  {
    ParseSucceedsIff(s);
    IntervalsAt(ParseBoundaries(s).value, k);
  }
}

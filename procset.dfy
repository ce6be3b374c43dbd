/**
 * The ProcSet object and its boundary-buffer helpers (src/procsetmodule.c and
 * src/procsetheader.h). The C `_boundaries` pointer becomes an array whose Length
 * is the allocated capacity (a NULL pointer is the empty array); `nb_boundary`
 * counts the boundaries in use. Allocation failure is an explicit `allocOk` input.
 */
module ProcSets {
  import opened Wrappers
  import opened Boundaries
  import opened BoundaryParser

  class ProcSet {
    /** The boundary buffer; pairs (lo, hi) denote half-open intervals [lo, hi). */
    var boundaries: array<Boundary>
    /** The number of boundaries in use: twice the number of intervals. */
    var nbBoundary: nat

    /** The buffer holds every boundary in use, and they pair up. */
    ghost predicate Valid()
      reads this
    {
      nbBoundary <= boundaries.Length && nbBoundary % 2 == 0
    }

    /** The boundaries in use. */
    ghost function Contents(): seq<Boundary>
      requires Valid()
      reads this, boundaries
    {
      boundaries[..nbBoundary]
    }

    /** ProcSet_new: an object with no buffer and no boundaries. */
    constructor ()
      ensures Valid() && fresh(boundaries)
      ensures nbBoundary == 0 && boundaries.Length == 0 && Contents() == []
    {
      boundaries := new Boundary[0];
      nbBoundary := 0;
    }

    /**
     * create_pset_from_string: fills a fresh buffer with one boundary per digit and
     * installs it only after both checks pass; on any failure the object is untouched.
     * The argument is a C string, so it holds no NUL character.
     * Returns the C status and the exception left raised (None when there is none).
     */
    method CreateFromString(s: string, allocOk: bool) returns (status: int, raised: Option<Error>)
      requires Valid()
      requires '\0' !in s
      modifies this
      ensures Valid()
      ensures CreateResult(s, allocOk).Success? ==>
        status == 0 && raised == None && fresh(boundaries) && boundaries.Length == |s| &&
        nbBoundary == |s| && Contents() == CreateResult(s, allocOk).value
      ensures CreateResult(s, allocOk).Failure? ==>
        status == -1 && raised == Some(CreateResult(s, allocOk).error) &&
        boundaries == old(boundaries) && nbBoundary == old(nbBoundary)
    {
      if !allocOk {
        return -1, Some(MemoryError);
      }
      var tmp := new Boundary[|s|](_ => 0);
      for index := 0 to |s|
        modifies tmp
        invariant ParseDigits(s[..index]) == Some(tmp[..index])
      {
        if IsDigit(s[index]) {
          tmp[index] := DigitValue(s[index]);
          assert s[..index + 1][..index] == s[..index];
          assert tmp[..index + 1] == tmp[..index] + [tmp[index]];
        } else {
          ParseDigitsCorrect(s);
          return -1, Some(NonDigit);
        }
      }
      assert s[..|s|] == s && tmp[..|s|] == tmp[..];
      if |s| % 2 != 0 {
        return -1, Some(OddCount);
      }
      boundaries := tmp;
      nbBoundary := |s|;
      return 0, None;
    }

    /**
     * ProcSet_init as written: -1 and an exception when argument parsing fails
     * (`arg` is None; a string it accepts holds no NUL character);
     * otherwise it runs create_pset_from_string and returns 0 whatever that did.
     */
    method Init(arg: Option<string>, allocOk: bool) returns (status: int, raised: Option<Error>)
      requires Valid()
      requires arg.Some? ==> '\0' !in arg.value
      modifies this
      ensures Valid()
      ensures status == InitStatus(arg)
      ensures arg.None? ==>
        raised == Some(ArgumentError) && boundaries == old(boundaries) && nbBoundary == old(nbBoundary)
      ensures arg.Some? && CreateResult(arg.value, allocOk).Success? ==>
        raised == None && fresh(boundaries) && boundaries.Length == |arg.value| &&
        Contents() == CreateResult(arg.value, allocOk).value
      ensures arg.Some? && CreateResult(arg.value, allocOk).Failure? ==>
        raised == Some(CreateResult(arg.value, allocOk).error) &&
        boundaries == old(boundaries) && nbBoundary == old(nbBoundary)
    {
      if arg.None? {
        return -1, Some(ArgumentError);
      }
      var _, err := CreateFromString(arg.value, allocOk);
      return 0, err;
    }

    /** ProcSet_init corrected: the status of create_pset_from_string is passed on. */
    method InitChecked(arg: Option<string>, allocOk: bool) returns (status: int, raised: Option<Error>)
      requires Valid()
      requires arg.Some? ==> '\0' !in arg.value
      modifies this
      ensures Valid()
      ensures status == CheckedInitStatus(arg, allocOk)
      ensures status == 0 <==> raised == None
      ensures arg.None? ==>
        raised == Some(ArgumentError) && boundaries == old(boundaries) && nbBoundary == old(nbBoundary)
      ensures arg.Some? && CreateResult(arg.value, allocOk).Success? ==>
        fresh(boundaries) && boundaries.Length == |arg.value| &&
        Contents() == CreateResult(arg.value, allocOk).value
      ensures arg.Some? && CreateResult(arg.value, allocOk).Failure? ==>
        raised == Some(CreateResult(arg.value, allocOk).error) &&
        boundaries == old(boundaries) && nbBoundary == old(nbBoundary)
    {
      if arg.None? {
        return -1, Some(ArgumentError);
      }
      status, raised := CreateFromString(arg.value, allocOk);
    }

    /**
     * pset_resize. Growing reallocates to exactly `nbElements` slots, keeping what
     * fits of the old buffer, or fails and leaves it in place. Shrinking frees the
     * buffer and allocates one of the OLD count's size, keeping no contents. Equal
     * sizes change nothing. The boundary count is never changed. A failed growth
     * returns 0 (false) with a MemoryError raised.
     */
    method Resize(nbElements: nat, allocOk: bool) returns (ok: bool, raised: Option<Error>)
      requires Valid()
      modifies this`boundaries
      ensures Valid() && nbBoundary == old(nbBoundary)
      ensures ok <==> nbElements <= nbBoundary || allocOk
      ensures raised == if ok then None else Some(MemoryError)
      ensures nbBoundary < nbElements && allocOk ==>
        fresh(boundaries) && boundaries.Length == nbElements &&
        var kept := if old(boundaries.Length) < nbElements then old(boundaries.Length) else nbElements;
        boundaries[..kept] == old(boundaries[..kept]) && Contents() == old(Contents())
      ensures nbBoundary < nbElements && !allocOk ==> boundaries == old(boundaries)
      ensures nbElements < nbBoundary ==> fresh(boundaries) && boundaries.Length == nbBoundary
      ensures nbElements == nbBoundary ==> boundaries == old(boundaries)
      ensures ok ==> nbElements <= boundaries.Length
    {
      if nbBoundary < nbElements {
        if !allocOk {
          return false, Some(MemoryError);
        }
        var kept := if boundaries.Length < nbElements then boundaries[..] else boundaries[..nbElements];
        boundaries := new Boundary[nbElements](k => if 0 <= k < |kept| then kept[k] else 0);
        assert boundaries[..nbBoundary] == kept[..nbBoundary];
      } else if nbBoundary > nbElements {
        boundaries := new Boundary[nbBoundary](_ => 0);
      }
      return true, None;
    }
  }

  /**
   * pset_copy: copies the first `nbElements` boundaries of `src` into `destination`
   * and leaves the rest of the destination buffer as it was. Always returns 1 (true).
   */
  method Copy(src: ProcSet, destination: ProcSet, nbElements: nat) returns (ok: bool)
    requires nbElements <= src.boundaries.Length && nbElements <= destination.boundaries.Length
    modifies destination.boundaries
    ensures ok
    ensures destination.boundaries[..nbElements] == old(src.boundaries[..nbElements])
    ensures destination.boundaries[nbElements..] == old(destination.boundaries[nbElements..])
  {
    for i := 0 to nbElements
      invariant forall k :: 0 <= k < i ==> destination.boundaries[k] == old(src.boundaries[k])
      invariant forall k :: i <= k < src.boundaries.Length ==> src.boundaries[k] == old(src.boundaries[k])
      invariant forall k :: i <= k < destination.boundaries.Length ==>
        destination.boundaries[k] == old(destination.boundaries[k])
    {
      destination.boundaries[i] := src.boundaries[i];
    }
    return true;
  }
}

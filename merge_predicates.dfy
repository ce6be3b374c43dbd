/**
 * The merge predicates of src/mergepredicate.h. Each one decides, from whether a
 * point lies in the left and in the right operand, whether it lies in the result;
 * one merge routine parameterised by them implements the four set operations.
 *
 * The C functions combine their `bool` arguments with the bitwise operators
 * `|`, `&` and `^` (and the logical `!`); the model keeps that form by computing on
 * one-bit vectors, and each contract states the Boolean connective it amounts to.
 */
module MergePredicates {

  /** A C `bool` promoted to an integer: 1 for true, 0 for false. */
  function Bit(b: bool): (bit: bv1) {
    if b then 1 else 0
  }

  /** bitwiseUnion: `inLeft | inRight`. */
  function BitwiseUnion(inLeft: bool, inRight: bool): (keep: bool)
    ensures keep <==> inLeft || inRight
  {
    Bit(inLeft) | Bit(inRight) == 1
  }

  /** bitwiseIntersection: `inLeft & inRight`. */
  function BitwiseIntersection(inLeft: bool, inRight: bool): (keep: bool)
    ensures keep <==> inLeft && inRight
  {
    Bit(inLeft) & Bit(inRight) == 1
  }

  /** bitwiseDifference: `inLeft & (!inRight)`. */
  function BitwiseDifference(inLeft: bool, inRight: bool): (keep: bool)
    ensures keep <==> inLeft && !inRight
  {
    Bit(inLeft) & Bit(!inRight) == 1
  }

  /** bitwiseSymmetricDifference: `inLeft ^ inRight`. */
  function BitwiseSymmetricDifference(inLeft: bool, inRight: bool): (keep: bool)
    ensures keep <==> inLeft != inRight
  {
    Bit(inLeft) ^ Bit(inRight) == 1
  }

  /** The MergePredicate function-pointer type, restricted to its four instances. */
  datatype MergePredicate = Union | Intersection | Difference | SymmetricDifference

  /** Calls the predicate a MergePredicate value points to. */
  function Eval(p: MergePredicate, inLeft: bool, inRight: bool): (keep: bool)
    ensures keep ==> inLeft || inRight
    ensures inLeft && inRight ==> (keep <==> p != Difference && p != SymmetricDifference)
  {
    match p
    case Union => BitwiseUnion(inLeft, inRight)
    case Intersection => BitwiseIntersection(inLeft, inRight)
    case Difference => BitwiseDifference(inLeft, inRight)
    case SymmetricDifference => BitwiseSymmetricDifference(inLeft, inRight)
  }

  /** The set operation each predicate stands for, as a reference definition. */
  function SetOperation(p: MergePredicate, left: set<nat>, right: set<nat>): (result: set<nat>) {
    match p
    case Union => left + right
    case Intersection => left * right
    case Difference => left - right
    case SymmetricDifference => (left - right) + (right - left)
  }

  /**
   * The points a merge keeps: those of either operand on which the predicate holds.
   * Points outside both operands never need to be examined (see NeverKeepsOutsidePoints).
   */
  function Kept(p: MergePredicate, left: set<nat>, right: set<nat>): (result: set<nat>) {
    set x | x in left + right && Eval(p, x in left, x in right)
  }

  /** No predicate keeps a point that lies in neither operand. */
  lemma NeverKeepsOutsidePoints(p: MergePredicate)
    ensures !Eval(p, false, false)
  {
  }

  /** Each predicate, applied pointwise, computes exactly its set operation. */
  lemma KeptIsSetOperation(p: MergePredicate, left: set<nat>, right: set<nat>)
    ensures Kept(p, left, right) == SetOperation(p, left, right)
  {
    forall x | x in SetOperation(p, left, right)
      ensures x in Kept(p, left, right)
    {
    }
  }

  /** Symmetric difference is union without intersection. */
  lemma SymmetricDifferenceIsUnionMinusIntersection(inLeft: bool, inRight: bool)
    ensures BitwiseSymmetricDifference(inLeft, inRight)
        == (BitwiseUnion(inLeft, inRight) && !BitwiseIntersection(inLeft, inRight))
  {
  }

  /** Union, intersection and symmetric difference do not depend on operand order. */
  lemma CommutativePredicates(inLeft: bool, inRight: bool)
    ensures BitwiseUnion(inLeft, inRight) == BitwiseUnion(inRight, inLeft)
    ensures BitwiseIntersection(inLeft, inRight) == BitwiseIntersection(inRight, inLeft)
    ensures BitwiseSymmetricDifference(inLeft, inRight) == BitwiseSymmetricDifference(inRight, inLeft)
  {
  }

  /** Difference does depend on operand order. */
  lemma DifferenceNotCommutative()
    ensures BitwiseDifference(true, false) && !BitwiseDifference(false, true)
  {
  }
}

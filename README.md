# ProcSet boundary buffer, string constructor, interval iterator and merge predicates

A ProcSet stores a set of non-negative integers as a flat buffer of `uint32`
boundaries, read two at a time as half-open intervals `[lo, hi)`; `UINT32_MAX` is
reserved as a sentinel. This project models the early revision of the C extension
whose logic is:

- the constructor path: `ProcSet_new` (an empty object), `ProcSet_init` (argument
  parsing) and `create_pset_from_string`, which turns a string of decimal digits into
  one boundary per digit, rejects a non-digit before it rejects an odd count, and
  replaces the object's buffer only once both checks pass;
- the buffer helpers `pset_resize` (grow by realloc, shrink by free and malloc of
  the old count's size, equal size untouched) and `pset_copy` (prefix copy);
- the interval iterator, a small state machine (`i`, `max`, `obj`) that yields each
  stored pair `[lo, hi)` as the closed pair `(lo, hi - 1)` and releases the set at the end;
- the four merge predicates (or, and, and-not, xor) that select union,
  intersection, difference and symmetric difference.

Modules follow the source files: `Boundaries` (the `pset_boundary_t` type, the
sentinel and `uint32` subtraction), `BoundaryParser` (the pure meaning of
`create_pset_from_string` and `ProcSet_init`), `ProcSets` (the `ProcSetObject` as a
class with its methods, plus `pset_copy`), `IntervalIterators` (the iterator class and
the sequence of pairs it produces) and `MergePredicates`. `Wrappers` holds Option and
Result.

Modelling choices:

- The `_boundaries` pointer is an `array<Boundary>` whose `Length` is the allocated
  capacity; a NULL pointer (as left by `ProcSet_new`) is the empty array. The class
  invariant `Valid()` says the buffer holds the `nbBoundary` boundaries in use and that
  this count is even; every modelled operation keeps it.
- The two `ProcSetObject` declarations (an `int` count in `src/procsetmodule.c`, a
  `Py_ssize_t` count in `src/procsetheader.h`) are one class with a `nat` count.
- Allocation outcomes are inputs: `allocOk` says whether the `malloc` of
  `create_pset_from_string` or the `realloc` of a growing `pset_resize` succeeded.
- The Python error indicator is an extra out-parameter `raised`, next to the C status.
- A C `bool` combined with `|`, `&`, `^` is modelled as a one-bit vector, so each
  predicate is stated as the logical connective it amounts to.
- This revision parses a string of single digits (one boundary per character) and
  checks neither ordering nor disjointness of the boundaries (`"21"` and `"00"` are
  accepted).

## Model

| member | source | states |
|---|---|---|
| `MergePredicates.BitwiseUnion` | src/mergepredicate.h:15-17 | the bitwise or of two C bools is true iff either operand is true |
| `MergePredicates.BitwiseIntersection` | src/mergepredicate.h:19-21 | `inLeft & inRight` is true iff both are true |
| `MergePredicates.BitwiseDifference` | src/mergepredicate.h:23-25 | `inLeft & (!inRight)` is true iff the left is true and the right false |
| `MergePredicates.BitwiseSymmetricDifference` | src/mergepredicate.h:27-29 | `inLeft ^ inRight` is true iff exactly one is true |
| `MergePredicates.Eval` | src/mergepredicate.h:12-29 | a call through the `MergePredicate` function pointer to one of the four predicates; a point it keeps lies in an operand, and a point in both is kept by union and intersection only |
| `MergePredicates.NeverKeepsOutsidePoints` | src/mergepredicate.h:12-29 | every predicate is false on (false, false): a point in neither operand is never in the result |
| `MergePredicates.KeptIsSetOperation` | src/mergepredicate.h:12-29 | applying a predicate pointwise to two sets gives exactly union, intersection, difference or symmetric difference |
| `MergePredicates.SymmetricDifferenceIsUnionMinusIntersection` | src/mergepredicate.h:15-29 | xor equals union and not intersection |
| `MergePredicates.CommutativePredicates` | src/mergepredicate.h:15-29 | union, intersection and symmetric difference are symmetric in their arguments |
| `MergePredicates.DifferenceNotCommutative` | src/mergepredicate.h:23-25 | difference gives true on (true, false) and false on (false, true) |
| `Boundaries.Pred32` | src/intervaliterator.h:62 | uint32 `hi - 1` is the predecessor for positive `hi` and wraps 0 to the sentinel `MAX_BOUND_VALUE` |
| `BoundaryParser.DigitValue` | src/procsetmodule.c:30 | `c - '0'` is a value 0..9 and is the position of `c` in "0123456789" |
| `BoundaryParser.ParseDigits` | src/procsetmodule.c:28-36 | a successful scan yields exactly one boundary per character |
| `BoundaryParser.ParseBoundaries` | src/procsetmodule.c:28-42 | the digit scan, then the parity test: success has one boundary per character and an even length; failure is the non-digit error, or the parity error for an odd length |
| `BoundaryParser.CreateResult` | src/procsetmodule.c:20-46 | create_pset_from_string including its malloc: success needs the allocation and gives one boundary per character of an even-length string; failures are allocation or parse errors |
| `BoundaryParser.InitStatus` | src/procsetmodule.c:78-90 | ProcSet_init's status as written: -1 exactly when argument parsing fails, 0 otherwise |
| `BoundaryParser.CheckedInitStatus` | src/procsetmodule.c:78-90 | the corrected status, -1 or 0; 0 only when an argument was given, allocation succeeded and its length is even |
| `BoundaryParser.ParseDigitsCorrect` | src/procsetmodule.c:28-36 | the scan succeeds iff every character is a digit, and then boundary k is the digit value of character k |
| `BoundaryParser.ParseSucceedsIff` | src/procsetmodule.c:28-46 | parsing succeeds iff all characters are digits and the length is even; on success the count equals the length and boundary k is digit k |
| `BoundaryParser.NonDigitReportedBeforeParity` | src/procsetmodule.c:28-42 | a non-digit yields the non-digit error whatever the length; the parity error comes only for all-digit input |
| `BoundaryParser.NonDigitExample` | src/procsetmodule.c:28-42 | "1a3" fails with the non-digit error, not the parity error |
| `BoundaryParser.EmptyStringParses` | src/procsetmodule.c:20-46 | once the buffer is allocated, the empty string succeeds with zero boundaries |
| `BoundaryParser.NoOrderingCheck` | src/procsetmodule.c:28-46 | "21" is accepted as the boundaries [2, 1], in input order |
| `BoundaryParser.ParsedBoundariesBelowSentinel` | src/procsetmodule.c:28-30 | every parsed boundary is at most 9, so below the sentinel |
| `BoundaryParser.InitStatusHidesCreateFailure` | src/procsetmodule.c:82-90 | for "1a3" the parse fails with the non-digit error, yet ProcSet_init's status is 0 |
| `BoundaryParser.CheckedInitStatusMeaning` | src/procsetmodule.c:72-90 | the corrected init status is 0 iff an argument was given, allocation succeeded, and the argument is all digits of even length; otherwise it is -1 |
| `ProcSets.ProcSet.constructor` | src/procsetmodule.c:59-70 | a new set has `nbBoundary == 0`, no buffer and no contents |
| `ProcSets.ProcSet.CreateFromString` | src/procsetmodule.c:15-49 | on success status 0, a fresh buffer of exactly the string's length, count equal to the length and contents equal to the parse; on failure status -1, the matching exception raised, buffer and count untouched |
| `ProcSets.ProcSet.Init` | src/procsetmodule.c:72-92 | as written: -1 with an argument-parsing error when argument parsing fails, otherwise the state change of CreateFromString and status 0 even when that raised |
| `ProcSets.ProcSet.InitChecked` | src/procsetmodule.c:72-92 | corrected init: same state changes, status -1 exactly when an exception is raised |
| `ProcSets.ProcSet.Resize` | src/procsetheader.h:27-59 | grow with allocation: fresh buffer of exactly `nbElements` slots keeping the old prefix and contents, result true; grow without: false with a MemoryError raised, buffer unchanged; shrink: fresh buffer of the old count's size with contents unspecified, true; equal: nothing changes, true; the count never changes |
| `ProcSets.Copy` | src/procsetheader.h:61-68 | destination's first n boundaries equal the source's, the rest of the destination is unchanged, result true |
| `IntervalIterators.Intervals` | src/intervaliterator.h:54-69 | a boundary sequence of length m denotes m/2 closed pairs |
| `IntervalIterators.IntervalsAt` | src/intervaliterator.h:61-62 | the k-th closed pair is (b[2k], b[2k+1] - 1 in uint32) |
| `IntervalIterators.WellFormedPairNoWrap` | src/intervaliterator.h:61-62 | a stored pair with lo < hi yields lo <= hi - 1 with no wrap-around |
| `IntervalIterators.EmptyPairWrapsAround` | src/intervaliterator.h:61-62 | "00" is accepted, and its pair is yielded as (0, 4294967295) |
| `IntervalIterators.ParsedSetIntervals` | src/intervaliterator.h:54-69 | a set parsed from s is iterated as half as many pairs as s has characters, the k-th made of digits 2k and 2k+1 |
| `IntervalIterators.IntervalIterator.constructor` | src/intervaliterator.h:15-34 | the iterator starts at `i == 0` with `max` the set's count and the set's pairs pending |
| `IntervalIterators.IntervalIterator.Iter` | src/intervaliterator.h:36-43 | iterating an iterator returns the iterator itself |
| `IntervalIterators.IntervalIterator.Next` | src/intervaliterator.h:45-71 | with the set released it ends; at `i >= max` it releases the set and ends; otherwise it yields (b[i], b[i+1] - 1), the first pending pair, advances `i` by 2 and leaves the rest pending |

## Left out

- Reference counting, `tp_alloc`/`tp_free`, `ProcSet_dealloc`, `IntervalIterator_dealloc`, the type and module tables and `PyInit_procset`: host-runtime object lifecycle with no logic of the set.
- Allocation failure of `tp_alloc` in `ProcSet_new` and `IntervalIterator_new` (both return NULL): the model always creates the object.
- `ProcSet_show` and `debug_printprocset`: output through `printf`.
- `PyLong_FromDouble` in `IntervalIterator_next`: every uint32 is exact as a double, so the yielded values are modelled as the integers themselves; building the Python tuple is not modelled.
- The commented-out `PySetIter_Type`: dead code.
- The `!self` test of `IntervalIterator_next`: a Dafny receiver is never null.
- `ProcSets.ProcSet.Resize`: the `malloc` of the shrink branch is taken to succeed (the source does not check its result); the contents of fresh memory are left unstated.
- `ProcSets.ProcSet.CreateFromString`: the count is a `nat`; the C `int` from `strlen` (which would truncate strings of 2^31 or more characters) is not modelled. The argument is a sequence of characters: argument parsing turns it into UTF-8 bytes and rejects embedded NUL characters (so `Init` and `InitChecked` require an argument string without NUL, and a failed argument parse is one outcome whatever its exception type), and a non-ASCII character (several bytes, none a digit) gives the same non-digit error either way.
- `IntervalIterators.IntervalIterator.Next`: requires that the count snapshot still fits in the set's current buffer; the source reads the buffer unchecked and does not guard against the set being rebuilt with fewer boundaries during iteration.
- The interval-merge sweep, the set reducer, the sequence view, relational operators and set-value constructors of the full library are not part of this revision's files and are not modelled.

## Findings

| source | as written | input that shows it | evidently intended | confidence | as-written member | corrected member |
|---|---|---|---|---|---|---|
| src/procsetmodule.c:84-90 | `ProcSet_init` ignores the -1 of `create_pset_from_string` and returns 0, leaving a ValueError raised with a success status | `ProcSet("1a3")` | return -1 whenever `create_pset_from_string` fails | high that the status is lost; not executed | `BoundaryParser.InitStatusHidesCreateFailure` (model `ProcSets.ProcSet.Init`) | `BoundaryParser.CheckedInitStatusMeaning` (model `ProcSets.ProcSet.InitChecked`) |

/**
 * What create_pset_from_string and ProcSet_init (src/procsetmodule.c) compute, as
 * pure functions: every character of the argument string is one boundary, its
 * decimal digit value; a non-digit is reported before an odd count is.
 */
module BoundaryParser {
  import opened Wrappers
  import opened Boundaries

  /** The Python exceptions the constructor path raises. */
  datatype Error =
    | MemoryError    // the temporary boundary buffer could not be allocated
    | NonDigit       // ValueError: the input contains a character that is not a digit
    | OddCount       // ValueError: the number of boundaries is odd
    | ArgumentError  // argument parsing of ProcSet_init failed (TypeError, ValueError, ...)

  /** isdigit in the C locale. */
  predicate IsDigit(c: char) {
    '0' <= c <= '9'
  }

  predicate AllDigits(s: string) {
    forall k :: 0 <= k < |s| ==> IsDigit(s[k])
  }

  /** `c - '0'` for a digit character, as a boundary. */
  function DigitValue(c: char): (d: Boundary)
    requires IsDigit(c)
    ensures d <= 9 && "0123456789"[d] == c
  {
    c as int - '0' as int
  }

  /**
   * The loop of create_pset_from_string, scanning left to right: the boundaries
   * of all characters when each is a digit, None as soon as one is not.
   */
  function ParseDigits(s: string): (r: Option<seq<Boundary>>)
    ensures r.Some? ==> |r.value| == |s|
  {
    if s == [] then Some([])
    else
      match ParseDigits(s[..|s| - 1])
      case None => None
      case Some(prefix) =>
        if IsDigit(s[|s| - 1]) then Some(prefix + [DigitValue(s[|s| - 1])]) else None
  }

  /** create_pset_from_string once its buffer is allocated: digits first, then parity. */
  function ParseBoundaries(s: string): (r: Result<seq<Boundary>, Error>)
    ensures r.Success? ==> |r.value| == |s| && |s| % 2 == 0
    ensures r.Failure? ==> r.error == NonDigit || (r.error == OddCount && |s| % 2 != 0)
  {
    match ParseDigits(s)
    case None => Failure(NonDigit)
    case Some(b) => if |s| % 2 != 0 then Failure(OddCount) else Success(b)
  }

  /** create_pset_from_string, with the outcome of its malloc given by `allocOk`. */
  function CreateResult(s: string, allocOk: bool): (r: Result<seq<Boundary>, Error>)
    ensures r.Success? ==> allocOk && |r.value| == |s| && |s| % 2 == 0
    ensures r.Failure? ==> r.error != ArgumentError
  {
    if !allocOk then Failure(MemoryError) else ParseBoundaries(s)
  }

  /**
   * The status ProcSet_init returns, as written: -1 when argument parsing fails
   * (`arg` is None), and 0 otherwise, whatever create_pset_from_string returned.
   */
  function InitStatus(arg: Option<string>): (status: int)
    ensures status == 0 || status == -1
    ensures status == 0 <==> arg.Some?
  {
    if arg.None? then -1 else 0
  }

  /** The status ProcSet_init evidently means to return: -1 on every failure. */
  function CheckedInitStatus(arg: Option<string>, allocOk: bool): (status: int)
    ensures status == 0 || status == -1
    ensures status == 0 ==> arg.Some? && allocOk && |arg.value| % 2 == 0
  {
    match arg
    case None => -1
    case Some(s) => if CreateResult(s, allocOk).Success? then 0 else -1
  }

  /**
   * The digit scan succeeds exactly when every character is a digit, and then
   * boundary k is the value of character k.
   */
  lemma {:induction false} ParseDigitsCorrect(s: string)
    ensures ParseDigits(s).Some? <==> AllDigits(s)
    ensures ParseDigits(s).Some? ==>
      forall k :: 0 <= k < |s| ==> ParseDigits(s).value[k] == DigitValue(s[k])
  {
    if s != [] {
      var init := s[..|s| - 1];
      ParseDigitsCorrect(init);
      assert forall k :: 0 <= k < |init| ==> init[k] == s[k];
      if ParseDigits(s).Some? {
        assert ParseDigits(init).Some?;
      }
    }
  }

  /**
   * Parsing succeeds iff every character is a digit and the length is even; on
   * success there is one boundary per character, holding that character's digit.
   */
  lemma ParseSucceedsIff(s: string)
    ensures ParseBoundaries(s).Success? <==> AllDigits(s) && |s| % 2 == 0
    ensures ParseBoundaries(s).Success? ==>
      var b := ParseBoundaries(s).value;
      |b| == |s| && forall k :: 0 <= k < |s| ==> b[k] == DigitValue(s[k])
  {
    ParseDigitsCorrect(s);
  }

  /** A non-digit is reported whatever the length; an odd count only for all-digit input. */
  lemma NonDigitReportedBeforeParity(s: string)
    ensures !AllDigits(s) ==> ParseBoundaries(s) == Failure(NonDigit)
    ensures AllDigits(s) && |s| % 2 != 0 ==> ParseBoundaries(s) == Failure(OddCount)
  {
    ParseDigitsCorrect(s);
  }

  /** "1a3" has both faults and fails with the non-digit error. */
  lemma NonDigitExample()
    ensures ParseBoundaries("1a3") == Failure(NonDigit)
  {
    assert !IsDigit("1a3"[1]);
    NonDigitReportedBeforeParity("1a3");
  }

  /** The empty string is accepted and gives no boundaries. */
  lemma EmptyStringParses()
    ensures ParseBoundaries("") == Success([])
  {
  }

  /** No ordering is checked: "21" gives the boundaries 2, 1 in input order. */
  lemma NoOrderingCheck()
    ensures ParseBoundaries("21") == Success([2, 1])
  {
    ParseSucceedsIff("21");
    var b := ParseBoundaries("21").value;
    assert b[0] == DigitValue('2') && b[1] == DigitValue('1');
    assert b == [2, 1];
  }

  /** Every parsed boundary is a single digit, so none is the reserved sentinel. */
  lemma ParsedBoundariesBelowSentinel(s: string)
    requires ParseBoundaries(s).Success?
    ensures forall k :: 0 <= k < |ParseBoundaries(s).value| ==>
      ParseBoundaries(s).value[k] <= 9 < MAX_BOUND_VALUE
  {
    ParseSucceedsIff(s);
  }

  /** As written, ProcSet_init reports success for "1a3" although the parse failed. */
  lemma InitStatusHidesCreateFailure()
    ensures CreateResult("1a3", true) == Failure(NonDigit)
    ensures InitStatus(Some("1a3")) == 0
  {
    NonDigitExample();
  }

  /** The corrected status is 0 exactly when an argument was given and it parsed. */
  lemma CheckedInitStatusMeaning(arg: Option<string>, allocOk: bool)
    ensures CheckedInitStatus(arg, allocOk) == 0 <==>
      arg.Some? && allocOk && AllDigits(arg.value) && |arg.value| % 2 == 0
    ensures CheckedInitStatus(arg, allocOk) != 0 ==> CheckedInitStatus(arg, allocOk) == -1
  {
    if arg.Some? {
      ParseSucceedsIff(arg.value);
    }
  }
}

/**
 * The guard at the top of the lookup: an empty candidate is refused, otherwise its decimal value
 * must lie in the closed range [MinId, MaxId]. A refusal happens before any state is touched.
 */
module Validation {
  import opened Wrappers
  import opened Sanitizer

  const MinId: nat := 1
  const MaxId: nat := 10

  /** Why a candidate identifier was refused; each has its own error notification. */
  datatype ValidationError =
    | MissingId   // "Please enter an ID (1-10)"
    | OutOfRange  // "Please enter a valid ID between 1-10"

  function Pow10(k: nat): (p: nat)
    ensures p >= 1
  {
    if k == 0 then 1 else 10 * Pow10(k - 1)
  }

  function DigitValue(c: char): (v: nat)
    requires IsDigit(c)
    ensures v <= 9
  {
    (c as int) - ('0' as int)
  }

  /**
   * `parseInt` applied to a string of decimal digits: digits are accumulated left to right, so
   * leading zeros contribute nothing. The empty string is never parsed (the guard refuses it
   * first); it is given the value 0 here.
   */
  function ParseDecimal(s: string): (n: nat)
    requires IsDigits(s)
    ensures n < Pow10(|s|)
  {
    if s == [] then 0
    else ParseDecimal(s[..|s| - 1]) * 10 + DigitValue(s[|s| - 1])
  }

  /** Validates the (already sanitised) candidate and yields the identifier it denotes. */
  function Validate(candidate: string): (r: Result<nat, ValidationError>)
    requires IsDigits(candidate)
    ensures r == Failure(MissingId) <==> candidate == []
    ensures r.Success? ==> MinId <= r.value <= MaxId && r.value == ParseDecimal(candidate)
  {
    if candidate == [] then Failure(MissingId)
    else
      var n := ParseDecimal(candidate);
      if n < MinId || n > MaxId then Failure(OutOfRange) else Success(n)
  }

  /** The candidate without its leading zeros. */
  function StripLeadingZeros(s: string): (t: string)
    ensures t == [] || t[0] != '0'
    ensures IsDigits(s) ==> IsDigits(t)
  {
    if s != [] && s[0] == '0' then StripLeadingZeros(s[1..]) else s
  }

  /** The spellings of the identifiers 1 to 10 without leading zeros. */
  const CanonicalIds: set<string> := {"1", "2", "3", "4", "5", "6", "7", "8", "9", "10"}

  /** A leading zero does not change the parsed value. */
  lemma {:induction false} ParseIgnoresLeadingZero(t: string)
    requires IsDigits(t)
    ensures IsDigits("0" + t) && ParseDecimal("0" + t) == ParseDecimal(t)
    decreases |t|
  {
    var s := "0" + t;
    assert IsDigits(s);
    if t != [] {
      var init := t[..|t| - 1];
      assert IsDigits(init);
      assert s[..|s| - 1] == "0" + init;
      ParseIgnoresLeadingZero(init);
    }
  }

  /** Leading zeros, however many, do not change the parsed value. */
  lemma {:induction false} ParseIgnoresLeadingZeros(s: string)
    requires IsDigits(s)
    ensures ParseDecimal(StripLeadingZeros(s)) == ParseDecimal(s)
  {
    if s != [] && s[0] == '0' {
      assert IsDigits(s[1..]);
      assert s == "0" + s[1..];
      ParseIgnoresLeadingZero(s[1..]);
      ParseIgnoresLeadingZeros(s[1..]);
    }
  }

  /** A digit string of length k that does not start with '0' denotes at least 10^(k-1). */
  lemma {:induction false} ParseLowerBound(t: string)
    requires IsDigits(t) && t != [] && t[0] != '0'
    ensures ParseDecimal(t) >= Pow10(|t| - 1)
  {
    if |t| > 1 {
      var init := t[..|t| - 1];
      assert IsDigits(init) && init[0] == t[0];
      ParseLowerBound(init);
    }
  }

  /**
   * The guard accepts exactly the candidates that spell 1..10 after any number of leading zeros
   * ("05" is accepted; "0", "000" and "11" are refused).
   */
  lemma AcceptsExactlyCanonicalIds(candidate: string)
    requires IsDigits(candidate)
    ensures Validate(candidate).Success? <==> StripLeadingZeros(candidate) in CanonicalIds
  {
    var t := StripLeadingZeros(candidate);
    ParseIgnoresLeadingZeros(candidate);
    var v := ParseDecimal(t);
    if |t| == 1 {
      assert t == [t[0]];
      assert v == DigitValue(t[0]);
    } else if |t| == 2 {
      assert t[..1] == [t[0]];
      assert v == DigitValue(t[0]) * 10 + DigitValue(t[1]);
      assert t == [t[0], t[1]];
    } else if |t| > 2 {
      ParseLowerBound(t);
      assert Pow10(|t| - 1) >= 100 by {
        assert Pow10(2) == 100;
        Pow10Monotone(2, |t| - 1);
      }
    }
  }

  lemma {:induction false} Pow10Monotone(j: nat, k: nat)
    requires j <= k
    ensures Pow10(j) <= Pow10(k)
    decreases k
  {
    if j < k {
      Pow10Monotone(j, k - 1);
    }
  }

  /** Examples of the guard's behaviour on typical candidates. */
  lemma ValidateExamples()
    ensures Validate("") == Failure(MissingId)
    ensures Validate("05") == Success(5)
    ensures Validate("10") == Success(10)
    ensures Validate("0") == Failure(OutOfRange)
    ensures Validate("000") == Failure(OutOfRange)
    ensures Validate("11") == Failure(OutOfRange)
  {
  }
}

/**
 * The identifier input's change handler: every edit of the field stores the typed text reduced to
 * its decimal digits (`text.replace(/[^0-9]/g, '')`).
 */
module Sanitizer {
  import opened Sequences

  predicate IsDigit(c: char) {
    '0' <= c <= '9'
  }

  predicate IsDigits(s: string) {
    forall i :: 0 <= i < |s| ==> IsDigit(s[i])
  }

  /** The text with every character outside '0'..'9' deleted. */
  function Sanitize(text: string): (digits: string)
    ensures IsDigits(digits)
    ensures |digits| <= |text|
  {
    if text == [] then []
    else if IsDigit(text[0]) then [text[0]] + Sanitize(text[1..])
    else Sanitize(text[1..])
  }

  /**
   * Sanitising keeps exactly the digits: the result is an order-preserving selection from the
   * text, holds every digit of the text as often as the text does, and holds nothing else.
   */
  lemma {:induction false} SanitizeKeepsExactlyTheDigits(text: string)
    ensures IsSubsequence(Sanitize(text), text)
    ensures forall c :: multiset(Sanitize(text))[c] == if IsDigit(c) then multiset(text)[c] else 0
  {
    if text != [] {
      SanitizeKeepsExactlyTheDigits(text[1..]);
      assert text == [text[0]] + text[1..];
      assert multiset(text) == multiset{text[0]} + multiset(text[1..]);
      if IsDigit(text[0]) {
        var d := Sanitize(text);
        assert d == [text[0]] + Sanitize(text[1..]);
        assert d[1..] == Sanitize(text[1..]);
        assert multiset(d) == multiset{text[0]} + multiset(Sanitize(text[1..]));
      }
    }
  }

  /** Sanitising text typed in two pieces is sanitising each piece and joining the results. */
  lemma {:induction false} SanitizeConcat(a: string, b: string)
    ensures Sanitize(a + b) == Sanitize(a) + Sanitize(b)
  {
    if a == [] {
      assert a + b == b;
    } else {
      assert (a + b)[0] == a[0];
      assert (a + b)[1..] == a[1..] + b;
      SanitizeConcat(a[1..], b);
    }
  }

  /** A text is left unchanged by the handler exactly when it already consists of digits. */
  lemma {:induction false} SanitizeFixesExactlyDigitStrings(text: string)
    ensures Sanitize(text) == text <==> IsDigits(text)
  {
    if text != [] && IsDigits(text) {
      assert IsDigits(text[1..]);
      SanitizeFixesExactlyDigitStrings(text[1..]);
    }
  }

  /** Sanitising twice is sanitising once. */
  lemma {:induction false} SanitizeIdempotent(text: string)
    ensures Sanitize(Sanitize(text)) == Sanitize(text)
  {
    SanitizeFixesExactlyDigitStrings(Sanitize(text));
  }
}

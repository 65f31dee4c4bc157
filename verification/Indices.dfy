/** Array indices as reference tokens (RFC 6901 section 4). */
module Indices {
  import opened Options

  function DigitChar(d: nat): char
    requires d < 10
  {
    ['0', '1', '2', '3', '4', '5', '6', '7', '8', '9'][d]
  }

  predicate IsDigit(c: char) { '0' <= c <= '9' }

  function DigitValue(c: char): (d: nat)
    requires IsDigit(c)
    ensures d < 10
  {
    c as int - '0' as int
  }

  /** `str(n)`. */
  function NatText(n: nat): (s: string)
    ensures |s| >= 1
  {
    if n < 10 then [DigitChar(n)] else NatText(n / 10) + [DigitChar(n % 10)]
  }

  /** The token matches `0|[1-9][0-9]*`. */
  predicate IsIndex(s: string)
  {
    && |s| >= 1
    && (forall i :: 0 <= i < |s| ==> IsDigit(s[i]))
    && (s[0] == '0' ==> |s| == 1)
  }

  /** `int(s)` for a string of digits. */
  function NatOf(s: string): nat
    requires forall i :: 0 <= i < |s| ==> IsDigit(s[i])
  {
    if s == "" then 0 else 10 * NatOf(s[..|s| - 1]) + DigitValue(s[|s| - 1])
  }

  /** The element a token selects from a list of this length, with the engine's length guard. */
  function Select(part: string, length: nat): Option<nat>
  {
    if !IsIndex(part) then None
    else if |part| > |NatText(length)| then None
    else if NatOf(part) >= length then None
    else Some(NatOf(part))
  }

  lemma {:induction false} NatTextIsIndex(n: nat)
    ensures IsIndex(NatText(n)) && NatOf(NatText(n)) == n
    ensures n > 0 ==> NatText(n)[0] != '0'
  {
    if n >= 10 {
      NatTextIsIndex(n / 10);
      assert NatText(n)[..|NatText(n)| - 1] == NatText(n / 10);
    }
  }

  /** A canonical token is the text of its value, so two tokens never select the same element. */
  lemma {:induction false} IndexIsNatText(s: string)
    requires IsIndex(s)
    ensures NatText(NatOf(s)) == s
  {
    hide NatOf, DigitChar, DigitValue;
    var n := |s| - 1;
    LastDigit(s);
    if n > 0 {
      assert IsIndex(s[..n]) by { assert s[..n][0] == s[0]; }
      IndexIsNatText(s[..n]);
      LeadingDigit(s[..n]);
      assert s == s[..n] + [s[n]];
    }
  }

  lemma DigitRoundTrip(c: char)
    requires IsDigit(c)
    ensures DigitChar(DigitValue(c)) == c
  {
    var d := DigitValue(c);
    assert d == 0 || d == 1 || d == 2 || d == 3 || d == 4 || d == 5 || d == 6 || d == 7 || d == 8 || d == 9;
  }

  lemma TensAndUnits(tens: nat, units: nat)
    requires units < 10
    ensures (10 * tens + units) / 10 == tens && (10 * tens + units) % 10 == units
  {
  }

  /** The last digit and the others are the remainder and the quotient by ten. */
  lemma LastDigit(s: string)
    requires s != "" && forall i :: 0 <= i < |s| ==> IsDigit(s[i])
    ensures
      var n := |s| - 1;
      && NatOf(s) / 10 == NatOf(s[..n]) && NatOf(s) % 10 == DigitValue(s[n])
      && DigitChar(DigitValue(s[n])) == s[n] && (n == 0 ==> NatOf(s) == DigitValue(s[n]))
  {
    hide DigitChar, DigitValue;
    DigitRoundTrip(s[|s| - 1]);
    TensAndUnits(NatOf(s[..|s| - 1]), DigitValue(s[|s| - 1]));
  }

  lemma {:induction false} LeadingDigit(s: string)
    requires IsIndex(s) && s[0] != '0'
    ensures NatOf(s) >= 1
  {
    if |s| > 1 {
      assert IsIndex(s[..|s| - 1]) by { assert s[..|s| - 1][0] == s[0]; }
      LeadingDigit(s[..|s| - 1]);
    }
  }

  lemma {:induction false} LongerIsLarger(a: nat, b: nat)
    requires a <= b
    ensures |NatText(a)| <= |NatText(b)|
  {
    if b >= 10 && a >= 10 {
      LongerIsLarger(a / 10, b / 10);
    }
  }

  /** The length guard never rejects an index that is in range, and never lets one out of range through. */
  lemma SelectIsExact(part: string, length: nat)
    ensures Select(part, length).Some? <==> IsIndex(part) && NatOf(part) < length
  {
    if IsIndex(part) && NatOf(part) < length {
      LongerIsLarger(NatOf(part), length);
      IndexIsNatText(part);
    }
  }

  /** Two tokens that select the same element are the same token. */
  lemma SelectIsInjective(a: string, b: string, length: nat)
    requires Select(a, length).Some? && Select(a, length) == Select(b, length)
    ensures a == b
  {
    IndexIsNatText(a);
    IndexIsNatText(b);
  }

  /**
   A token selects an element exactly when it is the text of its index: what the walk writes into a
   path for an array element is what the mappings read back as that element, and nothing else is.
   */
  lemma SelectReadsNatText(part: string, i: nat, length: nat)
    ensures Select(part, length) == Some(i) <==> part == NatText(i) && i < length
  {
    hide NatOf, NatText;
    NatTextIsIndex(i);
    SelectIsExact(part, length);
    if IsIndex(part) {
      IndexIsNatText(part);
    }
  }
}

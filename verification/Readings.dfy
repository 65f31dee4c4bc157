/** What the parser makes of numbers, digit by digit, and which complaint it raises first. */
module Readings {
  import opened Options
  import opened Json
  import opened Decimals
  import opened Indices
  import opened Differences
  import opened Parser
  import S = Scanner
  import N = Nodes

  // ----- the number that a text writes -----

  /** The value of the digits before the point: the first digit counts most. */
  function Whole(s: string): nat
    requires forall i :: 0 <= i < |s| ==> IsDigit(s[i])
  {
    if s == "" then 0 else DigitValue(s[0]) * Pow10(|s| - 1) + Whole(s[1..])
  }

  /** The value of the digits after the point: a tenth of the first digit and of what follows it. */
  ghost function Fraction(s: string): real
    requires forall i :: 0 <= i < |s| ==> IsDigit(s[i])
  {
    if s == "" then 0.0 else (DigitValue(s[0]) as real + Fraction(s[1..])) / 10.0
  }

  /** The number that the text writes: its sign, its whole part and fraction, times ten to its exponent. */
  ghost function Written(n: JsonNumber): real
  {
    var size := (Whole(n.whole) as real + Fraction(FractionDigits(n))) * Unit(ExponentOf(n.exponent));
    if n.minus then -size else size
  }

  lemma {:induction false} NatOfAppend(a: string, b: string)
    requires forall i :: 0 <= i < |a| ==> IsDigit(a[i])
    requires forall i :: 0 <= i < |b| ==> IsDigit(b[i])
    ensures forall i :: 0 <= i < |a + b| ==> IsDigit((a + b)[i])
    ensures NatOf(a + b) == NatOf(a) * Pow10(|b|) + NatOf(b)
    decreases |b|
  {
    if b == "" {
      assert a + b == a;
    } else {
      var n := |b| - 1;
      assert (a + b)[..|a + b| - 1] == a + b[..n];
      NatOfAppend(a, b[..n]);
      TensOut(NatOf(a), Pow10(n), NatOf(b[..n]), DigitValue(b[n]));
    }
  }

  lemma TensOut(a: nat, p: nat, b: nat, d: nat)
    ensures 10 * (a * p + b) + d == a * (10 * p) + (10 * b + d)
  {
  }

  lemma {:induction false} WholeIsNatOf(s: string)
    requires forall i :: 0 <= i < |s| ==> IsDigit(s[i])
    ensures Whole(s) == NatOf(s)
  {
    if s != "" {
      WholeIsNatOf(s[1..]);
      OneDigit(s);
    }
  }

  lemma OneDigit(s: string)
    requires s != "" && forall i :: 0 <= i < |s| ==> IsDigit(s[i])
    ensures NatOf(s) == DigitValue(s[0]) * Pow10(|s| - 1) + NatOf(s[1..])
  {
    hide NatOf, Pow10;
    NatOfAppend([s[0]], s[1..]);
    assert s == [s[0]] + s[1..];
    NatOfDigit(s[0]);
  }

  lemma NatOfDigit(c: char)
    requires IsDigit(c)
    ensures NatOf([c]) == DigitValue(c)
  {
    assert [c][..0] == "";
    assert NatOf([c][..0]) == 0;
  }

  lemma {:induction false} FractionIsNatOf(s: string)
    requires forall i :: 0 <= i < |s| ==> IsDigit(s[i])
    ensures Fraction(s) * Pow10(|s|) as real == NatOf(s) as real
  {
    hide NatOf;
    if s == "" {
      NoDigits();
    } else {
      FractionIsNatOf(s[1..]);
      OneDigit(s);
      MulReal(DigitValue(s[0]), Pow10(|s| - 1));
      TenthsOut(DigitValue(s[0]) as real, Fraction(s[1..]), Pow10(|s| - 1));
    }
  }

  lemma NoDigits()
    ensures NatOf("") == 0
  {
  }

  lemma TenthsOut(d: real, f: real, p: nat)
    ensures (d + f) / 10.0 * (10 * p) as real == d * p as real + f * p as real
  {
    var x := p as real;
    assert (10 * p) as real == 10.0 * x;
    assert (d + f) / 10.0 * (10.0 * x) == (d + f) * x;
  }

  lemma UnitScale(e: int, k: nat)
    ensures Pow10(k) as real * Unit(e - k) == Unit(e)
  {
    hide Unit, Decimals.Value, Pow10;
    ValueAt(Dec(1, e), e - k);
    ValueIsScaled(1, e);
    ValueIsScaled(Pow10(k), e - k);
    assert At(Dec(1, e), e - k) == Pow10(k);
  }

  lemma MulOut(w: real, f: real, p: real, u: real)
    ensures (w * p + f * p) * u == (w + f) * (p * u)
  {
    assert w * p + f * p == (w + f) * p;
  }

  /** The decimal that the hook makes is exactly the number that the text writes. */
  lemma NumberIsAsWritten(n: JsonNumber)
    ensures Decimals.Value(ValueOf(n)) == Written(n)
  {
    hide NatOf, Whole, Fraction, Unit, Pow10, Decimals.Value, ExponentOf;
    var f := FractionDigits(n);
    var k, e := |f|, ExponentOf(n.exponent);
    NatOfAppend(n.whole, f);
    WholeIsNatOf(n.whole);
    FractionIsNatOf(f);
    UnitScale(e, k);
    var w, x, p, u := Whole(n.whole) as real, Fraction(f), Pow10(k) as real, Unit(e - k);
    var coef: int := NatOf(n.whole + f);
    MulReal(NatOf(n.whole), Pow10(k));
    assert coef as real == w * p + x * p;
    MulOut(w, x, p, u);
    ValueIsScaled(coef, e - k);
    ValueIsScaled(-coef, e - k);
    Negated(coef, u);
  }

  lemma Negated(c: int, u: real)
    ensures (-c) as real * u == -(c as real * u)
  {
  }

  /** The exponent's mark may have either case and its sign may be left out. */
  lemma ExponentIsRead(mark: char, digits: string)
    requires (mark == 'e' || mark == 'E') && S.AllDigits(digits)
    ensures
      && ExponentOf([mark] + digits) == NatOf(digits)
      && ExponentOf([mark, '+'] + digits) == NatOf(digits)
      && ExponentOf([mark, '-'] + digits) == -(NatOf(digits) as int)
  {
    hide NatOf;
    assert ([mark] + digits)[1..] == digits;
    assert ([mark, '+'] + digits)[2..] == digits;
    assert ([mark, '-'] + digits)[2..] == digits;
  }

  // ----- the first complaint -----

  /** What the hook has against a number. */
  function AgainstNumber(p: Policy, holds: JsonNumber -> bool, n: JsonNumber): seq<string>
  {
    if |n.whole| + |FractionDigits(n)| > p.limits.digits then ["json_number_limit"]
    else if !holds(n) then ["json_number_invalid"]
    else if Abs(ExponentOf(n.exponent) - |FractionDigits(n)|) > p.limits.exponent then ["json_number_limit"]
    else []
  }

  /** Everything there is to complain of in a text, in the order of the text; keys last, when their object ends. */
  ghost function Complaints(p: Policy, holds: JsonNumber -> bool, raw: Raw): seq<string>
    decreases raw, 0, 0
  {
    match raw
    case RawNumber(n) => AgainstNumber(p, holds, n)
    case RawConstant => ["json_number_invalid"]
    case Broken => ["json_parse_error"]
    case RawArray(items) => InItems(p, holds, items)
    case RawObject(members) =>
      InMembers(p, holds, members) + if NoDuplicates(Names(members)) then [] else ["json_duplicate_key"]
    case _ => []
  }

  ghost function InItems(p: Policy, holds: JsonNumber -> bool, items: seq<Raw>): seq<string>
    decreases items, 1, |items|
  {
    if items == [] then [] else InItems(p, holds, items[..|items| - 1]) + Complaints(p, holds, items[|items| - 1])
  }

  ghost function InMembers(p: Policy, holds: JsonNumber -> bool, members: seq<Named<Raw>>): seq<string>
    decreases members, 1, |members|
  {
    if members == [] then []
    else InMembers(p, holds, members[..|members| - 1]) + Complaints(p, holds, members[|members| - 1].value)
  }

  lemma NumberComplaint(p: Policy, holds: JsonNumber -> bool, n: JsonNumber)
    ensures ReadNumber(p, holds, n) ==
              var c := AgainstNumber(p, holds, n);
              if c == [] then Built(Num(ValueOf(n))) else Refused(c[0])
  {
    hide Digits, NatOf, DigitCount, Before;
    CountedDigits(n);
    DigitsOf(n);
  }

  /** A text is refused exactly when there is something to complain of, and for the first complaint in it. */
  lemma {:induction false} FirstComplaint(p: Policy, holds: JsonNumber -> bool, raw: Raw)
    ensures
      var c := Complaints(p, holds, raw);
      if c == [] then Build(p, holds, raw).Built? else Build(p, holds, raw) == Refused(c[0])
    decreases raw, 0, 0
  {
    hide ReadNumber, AgainstNumber, FieldsOf, NoDuplicates;
    match raw
    case RawNumber(n) => NumberComplaint(p, holds, n);
    case RawArray(items) => FirstInItems(p, holds, items);
    case RawObject(members) => FirstInMembers(p, holds, members);
    case _ =>
  }

  lemma {:induction false} FirstInItems(p: Policy, holds: JsonNumber -> bool, items: seq<Raw>)
    ensures
      var c := InItems(p, holds, items);
      if c == [] then BuildItems(p, holds, items).Items? else BuildItems(p, holds, items) == BadItem(c[0])
    decreases items, 1, |items|
  {
    hide Build, Complaints;
    if items != [] {
      FirstInItems(p, holds, items[..|items| - 1]);
      FirstComplaint(p, holds, items[|items| - 1]);
    }
  }

  lemma {:induction false} FirstInMembers(p: Policy, holds: JsonNumber -> bool, members: seq<Named<Raw>>)
    ensures
      var c := InMembers(p, holds, members);
      if c == [] then
        BuildMembers(p, holds, members).Members? && Names(BuildMembers(p, holds, members).pairs) == Names(members)
      else BuildMembers(p, holds, members) == BadMember(c[0])
    decreases members, 1, |members|
  {
    hide Build, Complaints;
    if members != [] {
      var n := |members| - 1;
      FirstInMembers(p, holds, members[..n]);
      FirstComplaint(p, holds, members[n].value);
      assert Names(members) == Names(members[..n]) + [members[n].name];
    }
  }

  /**
   Why a body has no document: the encoding, the nesting, the first complaint in the text, text after the
   value, or too many values, in this order.
   */
  lemma RefusalIsFirst(p: Policy, reader: Reader, body: Bytes, reason: string)
    ensures Parse(p, reader, body) == Unparsable(reason) <==>
              match reader.decode(body)
              case None => reason == "json_encoding_invalid"
              case Some(text) =>
                var found := reader.loads(text);
                var complaints := Complaints(p, reader.holds, found.value);
                if S.Run(S.BEGIN, text).peak > p.maxDepth then reason == "json_depth_limit"
                else if complaints != [] then reason == complaints[0]
                else if found.trailing then reason == "json_parse_error"
                else ValuesIn(found.value) > p.maxNodes && reason == "json_node_limit"
  {
    hide Build, Complaints, N.Size, S.Run, WellFormed, NumbersWithin, Denotes;
    if reader.decode(body).Some? {
      var raw := reader.loads(reader.decode(body).value).value;
      FirstComplaint(p, reader.holds, raw);
      BuildIsExact(p, reader.holds, raw);
    }
  }
}

/** Decimal strings: how balances are stored and reported, and how a tariff is read. */
module Decimals {
  import opened Words
  import opened Results

  function Pow10(n: nat): (r: nat)
    ensures r > 0
  {
    if n == 0 then 1 else 10 * Pow10(n - 1)
  }

  predicate IsDigit(c: char) { '0' <= c <= '9' }

  predicate AllDigits(s: string) { forall k :: 0 <= k < |s| ==> IsDigit(s[k]) }

  /** The number a string of digits denotes. */
  function Val(s: string): nat
    requires AllDigits(s)
  {
    if s == [] then 0 else 10 * Val(s[..|s| - 1]) + (s[|s| - 1] - '0') as nat
  }

  function Digits(n: nat): string {
    (if n < 10 then [] else Digits(n / 10)) + ['0' + (n % 10) as char]
  }

  function Abs(i: int): nat { if i < 0 then -i else i }

  function FormatInt(i: int): string {
    if i < 0 then "-" + Digits(Abs(i)) else Digits(i)
  }

  /** strconv.Atoi: an optional sign and at least one digit, in range. */
  function Atoi(s: string): Option<int64> {
    var signed := s != [] && (s[0] == '-' || s[0] == '+');
    var digits := if signed then s[1..] else s;
    if digits == [] || !AllDigits(digits) then None
    else
      var n: int := Val(digits);
      var i: int := if signed && s[0] == '-' then -n else n;
      if -TWO_63 <= i < TWO_63 then Some(i) else None
  }

  /** A digit and a power of ten. */
  datatype UnitValue = UnitValue(digits: int64, exponent: nat)

  /** Go's division, which truncates toward zero. */
  function Quotient(a: int, b: nat): int
    requires b > 0
  {
    if a >= 0 then a / b else -(Abs(a) / b)
  }

  /** The remaining balance as reported. The exponent is one less than the length of the decimal string, sign
      included; a power of ten beyond 64 bits has no defined integer value. */
  function RemainingBalance(quota: int64): Option<UnitValue> {
    var exponent := |FormatInt(quota)| - 1;
    if Pow10(exponent) >= TWO_63 then None
    else
      QuotientSmall(quota, Pow10(exponent));
      Some(UnitValue(Quotient(quota, Pow10(exponent)), exponent))
  }

  lemma QuotientSmall(a: int64, b: nat)
    requires b > 0
    ensures -TWO_63 <= Quotient(a, b) < TWO_63
  {
    var m := Abs(a);
    assert m / b <= m by {
      if m / b > m {
        assert (m / b) * b > m by { MulAtLeast(m / b, b); }
      }
    }
  }

  lemma MulAtLeast(a: nat, b: nat)
    requires b > 0
    ensures a * b >= a
  {
  }

  /** Position of the first dot. */
  function IndexDot(s: string): Option<nat> {
    if s == [] then None
    else if s[0] == '.' then Some(0)
    else var r := IndexDot(s[1..]); if r.Some? then Some(r.value + 1) else None
  }

  function RemoveDots(s: string): string {
    if s == [] then [] else (if s[0] == '.' then [] else [s[0]]) + RemoveDots(s[1..])
  }

  /** The tariff read from a decimal string: the digits without the dots, zero where they are no number,
      and the number of characters after the first dot. */
  function BuildTariff(unitCost: string): UnitValue {
    var dot := IndexDot(unitCost);
    var digits := Atoi(RemoveDots(unitCost));
    UnitValue(if digits.Some? then digits.value else 0,
              if dot.Some? && dot.value < |unitCost| then |unitCost| - dot.value - 1 else 0)
  }

  // ---------------------------------------------------------------- balances

  lemma {:induction false} DigitsAreDigits(n: nat)
    ensures AllDigits(Digits(n)) && |Digits(n)| >= 1 && IsDigit(Digits(n)[0]) && Val(Digits(n)) == n
  {
    if n >= 10 {
      DigitsAreDigits(n / 10);
      assert Digits(n)[..|Digits(n)| - 1] == Digits(n / 10);
    }
  }

  /** The number of digits brackets the number. */
  lemma {:induction false} DigitsBracket(n: nat)
    requires n > 0
    ensures |Digits(n)| >= 1 && Pow10(|Digits(n)| - 1) <= n < Pow10(|Digits(n)|)
  {
    if n >= 10 {
      DigitsBracket(n / 10);
      var p := Pow10(|Digits(n / 10)| - 1);
      assert Pow10(|Digits(n)| - 1) == 10 * p && Pow10(|Digits(n)|) == 100 * p;
    } else {
      assert Pow10(1) == 10 * Pow10(0);
    }
  }

  lemma AtoiNegated(digits: string)
    requires digits != [] && AllDigits(digits) && Val(digits) <= TWO_63
    ensures Atoi("-" + digits) == Some(0 - Val(digits))
  {
    hide Val;
    assert ("-" + digits)[1..] == digits;
  }

  /** A balance written to the store reads back unchanged. */
  lemma BalanceStored(quota: int64)
    ensures Atoi(FormatInt(quota)) == Some(quota)
  {
    hide Digits, Val, Atoi;
    var digits := Digits(Abs(quota));
    DigitsAreDigits(Abs(quota));
    if quota < 0 {
      AtoiNegated(digits);
    } else {
      AtoiDigits(digits);
    }
  }

  /** Every positive balance is reported as its leading digit times a power of ten. */
  lemma PositiveBalanceReported(quota: int64)
    requires quota > 0
    ensures var r := RemainingBalance(quota);
            && r.Some? && 1 <= r.value.digits <= 9
            && r.value.digits * Pow10(r.value.exponent) <= quota < (r.value.digits + 1) * Pow10(r.value.exponent)
  {
    DigitsBracket(quota);
    var e := |Digits(quota)| - 1;
    assert Pow10(e + 1) == 10 * Pow10(e);
    LeadingDigit(quota, Pow10(e));
  }

  lemma LeadingDigit(n: nat, p: nat)
    requires 0 < p <= n < 10 * p
    ensures 1 <= n / p <= 9 && (n / p) * p <= n < (n / p + 1) * p
  {
    assert (n / p) * p <= n < (n / p + 1) * p;
  }

  lemma QuotientZero(n: nat, p: nat)
    requires n < p
    ensures n / p == 0
  {
  }

  /** An empty account is reported as zero. */
  lemma EmptyReportedAsZero()
    ensures RemainingBalance(0) == Some(UnitValue(0, 0))
  {
    assert Digits(0) == ['0'];
  }

  /** The sign counts as a digit, so an overdrawn balance is reported as zero, or, from 10^18 on, not defined. */
  lemma OverdrawnReportedAsZero(quota: int64)
    requires quota < 0
    ensures var r := RemainingBalance(quota); (r.Some? <==> Abs(quota) < Pow10(18)) && (r.Some? ==> r.value.digits == 0)
  {
    DigitsBracket(Abs(quota));
    var e := |Digits(Abs(quota))|;
    assert |FormatInt(quota)| - 1 == e;
    Pow10Values();
    if Abs(quota) < Pow10(18) {
      if e > 18 { Pow10Monotone(18, e - 1); }
      Pow10Monotone(e, 18);
      QuotientZero(Abs(quota), Pow10(e));
    } else {
      if e <= 18 { Pow10Monotone(e, 18); }
      Pow10Monotone(19, e);
    }
  }

  lemma Pow10Values()
    ensures Pow10(18) < TWO_63 <= Pow10(19)
  {
    assert Pow10(6) == 1_000_000;
    assert Pow10(12) == 1_000_000_000_000;
  }

  lemma {:induction false} Pow10Monotone(a: nat, b: nat)
    requires a <= b
    ensures Pow10(a) <= Pow10(b)
  {
    if a < b { Pow10Monotone(a, b - 1); }
  }

  // ---------------------------------------------------------------- tariffs

  lemma {:induction false} DotAfter(s: string, t: string)
    requires AllDigits(s)
    ensures IndexDot(s + "." + t) == Some(|s|)
  {
    if s == [] {
      assert s + "." + t == "." + t;
    } else {
      DotAfter(s[1..], t);
      assert (s + "." + t)[1..] == s[1..] + "." + t;
    }
  }

  lemma {:induction false} DotsRemoved(s: string, t: string)
    requires AllDigits(s)
    ensures RemoveDots(s + t) == s + RemoveDots(t)
  {
    if s == [] {
      assert s + t == t;
    } else {
      DotsRemoved(s[1..], t);
      assert (s + t)[1..] == s[1..] + t;
    }
  }

  lemma {:induction false} ValConcat(s: string, t: string)
    requires AllDigits(s) && AllDigits(t)
    ensures AllDigits(s + t) && Val(s + t) == Val(s) * Pow10(|t|) + Val(t)
  {
    if t == [] {
      assert s + t == s;
    } else {
      var t' := t[..|t| - 1];
      ValConcat(s, t');
      assert (s + t)[..|s + t| - 1] == s + t';
      Distribute(Val(s), Pow10(|t'|), Val(t'));
    }
  }

  lemma Distribute(a: nat, p: nat, b: nat)
    ensures 10 * (a * p + b) == a * (10 * p) + 10 * b
  {
  }

  /** A tariff `whole.fraction` reads as whole * 10^exponent + fraction with one exponent digit per fraction digit,
      if and only if that number fits 64 bits or is zero; otherwise its digits read as zero. */
  lemma TariffRead(whole: string, fraction: string)
    requires AllDigits(whole) && AllDigits(fraction)
    ensures var r := BuildTariff(whole + "." + fraction);
            var n := Val(whole) * Pow10(|fraction|) + Val(fraction);
            && r.exponent == |fraction|
            && (r.digits == n <==> n < TWO_63)
            && (n >= TWO_63 ==> r.digits == 0)
  {
    hide Val, Pow10, Atoi, RemoveDots, IndexDot;
    DotAfter(whole, fraction);
    OneDotRemoved(whole, fraction);
    ValConcat(whole, fraction);
    AtoiDigits(whole + fraction);
    if whole + fraction == "" { ValEmpty(); }
  }

  lemma {:induction false} NoDot(s: string)
    requires forall k :: 0 <= k < |s| ==> s[k] != '.'
    ensures IndexDot(s) == None && RemoveDots(s) == s
  {
    if s != [] {
      NoDot(s[1..]);
    }
  }

  /** A tariff without a dot, such as the tariff "1" announced without charging data, has exponent 0 and the value of its
      digits if that fits 64 bits, and of an optionally signed number in general; anything else reads as zero. */
  lemma WholeTariffRead(s: string)
    requires forall k :: 0 <= k < |s| ==> s[k] != '.'
    ensures var r := BuildTariff(s);
            && r.exponent == 0
            && (AllDigits(s) ==> r.digits == if Val(s) < TWO_63 then Val(s) else 0)
            && (s != "" && AllDigits(s) && 0 < Val(s) <= TWO_63 ==> BuildTariff("-" + s) == UnitValue(0 - Val(s), 0))
            && (!AllDigits(s) && !(s != "" && s[0] in "+-" && AllDigits(s[1..])) ==> r.digits == 0)
  {
    hide Val, RemoveDots, IndexDot, Atoi, AllDigits;
    NoDot(s);
    if AllDigits(s) {
      AtoiDigits(s);
      if s == "" { ValEmpty(); }
      if s != "" && Val(s) <= TWO_63 {
        AtoiNegated(s);
        NoDot("-" + s);
      }
    } else {
      NoNumber(s);
    }
  }

  lemma NoNumber(s: string)
    ensures !AllDigits(s) && !(s != "" && s[0] in "+-" && AllDigits(s[1..])) ==> Atoi(s) == None
  {
    hide Val;
  }

  lemma ValEmpty()
    ensures Val("") == 0
  {
  }

  lemma DotStep(t: string)
    ensures RemoveDots("." + t) == RemoveDots(t) && RemoveDots([]) == []
  {
    assert ("." + t)[1..] == t;
  }

  lemma OneDotRemoved(whole: string, fraction: string)
    requires AllDigits(whole) && AllDigits(fraction)
    ensures RemoveDots(whole + "." + fraction) == whole + fraction
  {
    hide RemoveDots;
    DotsRemoved(whole, "." + fraction);
    assert whole + ("." + fraction) == whole + "." + fraction;
    DotStep(fraction);
    DotsRemoved(fraction, []);
    assert fraction + [] == fraction;
  }

  lemma AtoiDigits(s: string)
    requires AllDigits(s)
    ensures var r := Atoi(s); (r.Some? <==> s != [] && Val(s) < TWO_63) && (r.Some? ==> r.value == Val(s))
  {
    if s != [] { assert IsDigit(s[0]); }
  }
}

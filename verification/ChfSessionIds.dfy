/** When the references of two charging sessions of a UE differ. */
module ChfSessionIds {
  import opened Results
  import opened Words
  import opened Decimals
  import opened ChfRecords

  lemma AfterPrefix(prefix: string, a: string, b: string)
    ensures prefix + a == prefix + b <==> a == b
  {
    assert (prefix + a)[|prefix|..] == a && (prefix + b)[|prefix|..] == b;
  }

  lemma FormatDistinct(a: int64, b: int64)
    ensures FormatInt(a) == FormatInt(b) <==> a == b
  {
    hide FormatInt, Atoi;
    BalanceStored(a);
    BalanceStored(b);
  }

  /** The decimal string of a record number, as a signed word. */
  function NumberString(n: u64): string { FormatInt(I64(n)) }

  lemma NumbersDistinct(m: u64, n: u64)
    ensures NumberString(m) == NumberString(n) <==> m == n
  {
    FormatDistinct(I64(m), I64(n));
    hide FormatInt;
  }

  /** A reference is the subscriber's identifier, the consumer name and the record number in decimal digits, without
      leading zeros; a one-time event has none. */
  lemma SessionIdReads(ueId: string, consumerName: string, n: u64)
    ensures var s, at := SessionId(ueId, consumerName, false, n), |ueId| + |consumerName|;
            && |s| > at && s[..|ueId|] == ueId && s[|ueId|..at] == consumerName
            && Atoi(s[at..]) == Some(I64(n))
            && (n < TWO_63 ==> AllDigits(s[at..]) && (|s[at..]| > 1 ==> s[at] != '0'))
    ensures SessionId(ueId, consumerName, true, n) == ""
  {
    hide Digits, Atoi;
    var s, at, d := SessionId(ueId, consumerName, false, n), |ueId| + |consumerName|, FormatInt(I64(n));
    assert s[at..] == d;
    BalanceStored(I64(n));
    DigitsAreDigits(Abs(I64(n)));
    if n < TWO_63 {
      SmallNumberString(n);
      DigitsAreDigits(n);
      if |d| > 1 { NoLeadingZero(n); }
    }
  }

  /** Sessions opened for one consumer name under different record numbers get different references. */
  lemma SessionIdsDistinct(ueId: string, consumerName: string, m: u64, n: u64)
    ensures SessionId(ueId, consumerName, false, m) == SessionId(ueId, consumerName, false, n) <==> m == n
  {
    NumbersDistinct(m, n);
    hide FormatInt, I64;
    AfterPrefix(ueId + consumerName, NumberString(m), NumberString(n));
  }

  /** When the references of two names meet: the longer name is the shorter one and the start of its number. */
  lemma SessionIdsMeetIff(ueId: string, a: string, b: string, m: u64, n: u64)
    requires |a| <= |b|
    ensures SessionId(ueId, a, false, m) == SessionId(ueId, b, false, n) <==>
            a <= b && NumberString(m) == b[|a|..] + NumberString(n)
  {
    var x, y := NumberString(m), NumberString(n);
    hide FormatInt, I64;
    assert ueId + a + x == ueId + (a + x) && ueId + b + y == ueId + (b + y);
    AfterPrefix(ueId, a + x, b + y);
    if a + x == b + y {
      assert a == (a + x)[..|a|] == (b + y)[..|a|] == b[..|a|];
    }
    if a <= b {
      assert b + y == a + (b[|a|..] + y);
      AfterPrefix(a, x, b[|a|..] + y);
    }
  }

  /** Digits that can start a number and leave room for one more digit. */
  predicate NumberPrefix(s: string) { s != "" && AllDigits(s) && s[0] != '0' && 10 * Val(s) < TWO_63 }

  /** Record numbers below 2^63 under which the references of two names meet. */
  ghost predicate CanMeet(ueId: string, a: string, b: string) {
    exists m: u64, n: u64 :: m < TWO_63 && n < TWO_63 && SessionId(ueId, a, false, m) == SessionId(ueId, b, false, n)
  }

  /** Two different consumer names can get the same reference exactly if one is the other followed by digits that
      start a number. */
  lemma NamesCanMeetIff(ueId: string, a: string, b: string)
    requires |a| <= |b| && a != b
    ensures CanMeet(ueId, a, b) <==> a <= b && NumberPrefix(b[|a|..])
  {
    hide SessionId;
    if m: u64, n: u64 :| m < TWO_63 && n < TWO_63 && SessionId(ueId, a, false, m) == SessionId(ueId, b, false, n) {
      SessionIdsMeetIff(ueId, a, b, m, n);
      assert b[|a|..] != "";
      PrefixOfNumber(b[|a|..], m, n);
    }
    if a <= b && NumberPrefix(b[|a|..]) {
      NumberFromPrefix(b[|a|..]);
      SessionIdsMeetIff(ueId, a, b, 10 * Val(b[|a|..]), 0);
    }
  }

  /** What stands before the digits of one number in the digits of another can start a number. */
  lemma PrefixOfNumber(s: string, m: u64, n: u64)
    requires s != "" && m < TWO_63 && n < TWO_63 && NumberString(m) == s + NumberString(n)
    ensures NumberPrefix(s)
  {
    hide Digits, NumberString, Val, Pow10;
    SmallNumberString(m);
    SmallNumberString(n);
    DigitsAreDigits(m);
    DigitsAreDigits(n);
    assert |s + Digits(n)| > 1;
    NoLeadingZero(m);
    PrefixOfDigits(s, Digits(n), Digits(m));
  }

  lemma SmallNumberString(n: u64)
    requires n < TWO_63
    ensures NumberString(n) == Digits(n)
  {
    hide Digits;
  }

  lemma PrefixOfDigits(s: string, d: string, whole: string)
    requires s != "" && d != "" && AllDigits(d) && AllDigits(whole) && whole == s + d && whole[0] != '0' && Val(whole) < TWO_63
    ensures NumberPrefix(s)
  {
    hide Val, Pow10;
    forall k | 0 <= k < |s| ensures IsDigit(s[k]) { assert s[k] == whole[k]; }
    assert s[0] == whole[0];
    ValConcat(s, d);
    Pow10AtLeast(|d|);
    Tenfold(Val(s), Pow10(|d|));
  }

  lemma Tenfold(v: nat, p: nat)
    requires p >= 10
    ensures v * p >= 10 * v
  {
  }

  lemma Pow10AtLeast(n: nat)
    requires n >= 1
    ensures Pow10(n) >= 10
  {
    assert Pow10(n) == 10 * Pow10(n - 1);
  }

  /** Ten times a number is its digits and a zero. */
  lemma NumberFromPrefix(s: string)
    requires NumberPrefix(s)
    ensures NumberString(10 * Val(s)) == s + NumberString(0)
  {
    hide NumberString, Val, Digits;
    DigitsOfVal(s);
    PositiveVal(s);
    SmallNumberString(10 * Val(s));
    SmallNumberString(0);
    ZeroAppended(Val(s));
  }

  lemma ZeroAppended(v: nat)
    requires v > 0
    ensures Digits(10 * v) == Digits(v) + Digits(0)
  {
    assert Digits(0) == ['0'];
  }

  lemma {:induction false} PositiveVal(s: string)
    requires s != "" && AllDigits(s) && s[0] != '0'
    ensures Val(s) > 0
  {
    if |s| > 1 {
      PositiveVal(s[..|s| - 1]);
    }
  }

  /** Digits without a leading zero are the digits of the number they denote. */
  lemma {:induction false} DigitsOfVal(s: string)
    requires s != "" && AllDigits(s) && s[0] != '0'
    ensures Digits(Val(s)) == s
  {
    var init, last := s[..|s| - 1], (s[|s| - 1] - '0') as nat;
    assert '0' + last as char == s[|s| - 1];
    if |s| > 1 {
      DigitsOfVal(init);
      PositiveVal(init);
      assert Val(s) / 10 == Val(init) && Val(s) % 10 == last;
    } else {
      assert Val(init) == 0;
    }
  }

  /** Only zero itself is written with a leading zero. */
  lemma {:induction false} NoLeadingZero(n: nat)
    requires |Digits(n)| > 1
    ensures Digits(n)[0] != '0'
  {
    var d := Digits(n / 10);
    assert n >= 10 && Digits(n)[0] == d[0];
    if n / 10 >= 10 {
      assert |Digits(n / 10 / 10)| >= 1;
      NoLeadingZero(n / 10);
    }
  }

  /** A pair that meets: "smf" under 12 and "smf1" under 2. */
  lemma SessionIdsCollide(ueId: string)
    ensures SessionId(ueId, "smf", false, 12) == SessionId(ueId, "smf1", false, 2)
  {
    SmallNumbers();
    hide FormatInt;
    assert (ueId + "smf") + "12" == (ueId + "smf1") + "2";
  }

  lemma SmallNumbers()
    ensures FormatInt(12) == "12" && FormatInt(2) == "2"
  {
    assert Digits(1) == "1";
  }
}

/** Signal text normalisation (signal_utils.py): strike rounding and the conversion of
    pattern matches into signal records. The regular expression itself is abstracted:
    a message is given as the sequence of its matches' three groups, in match order. */
module SignalParsing {
  import opened Wrappers

  // ---- decimal text ----

  predicate IsDigit(c: char) { '0' <= c <= '9' }

  predicate AllDigits(s: string) {
    forall i :: 0 <= i < |s| ==> IsDigit(s[i])
  }

  function DigitValue(c: char): nat
    requires IsDigit(c)
  {
    (c as int) - ('0' as int)
  }

  function Pow10(n: nat): (p: nat)
    ensures p >= 1
  {
    if n == 0 then 1 else 10 * Pow10(n - 1)
  }

  /** The number a run of decimal digits spells. */
  function DigitsValue(s: string): nat
    requires AllDigits(s)
  {
    if s == [] then 0 else 10 * DigitsValue(s[..|s| - 1]) + DigitValue(s[|s| - 1])
  }

  /** Index of the first '.', or |s| when there is none. */
  function DotIndex(s: string): (k: nat)
    ensures k <= |s|
    ensures k < |s| ==> s[k] == '.'
    ensures forall j :: 0 <= j < k ==> s[j] != '.'
  {
    if s == [] then 0 else if s[0] == '.' then 0 else 1 + DotIndex(s[1..])
  }

  /** Text over the strike groups' alphabet (digits and '.') that `float()` accepts: at
      most one point and at least one digit. */
  predicate DecimalText(s: string) {
    && (forall i :: 0 <= i < |s| ==> IsDigit(s[i]) || s[i] == '.')
    && (forall i, j :: 0 <= i < j < |s| && s[i] == '.' ==> s[j] != '.')
    && (exists i :: 0 <= i < |s| && IsDigit(s[i]))
  }

  /** The text with its points taken out. */
  function Unpointed(s: string): (u: string)
    ensures (forall i :: 0 <= i < |s| ==> IsDigit(s[i]) || s[i] == '.') ==> AllDigits(u)
  {
    if s == [] then []
    else
      assert forall i :: 1 <= i < |s| ==> s[1..][i - 1] == s[i];
      (if s[0] == '.' then [] else [s[0]]) + Unpointed(s[1..])
  }

  /** The number of digits after the point (0 without a point). */
  function FractionLength(s: string): nat {
    if DotIndex(s) < |s| then |s| - DotIndex(s) - 1 else 0
  }

  /** Python's `float()` on text drawn from the strike groups' alphabet (digits and '.'):
      exact, as a real. It succeeds exactly on decimal text, and the value scaled by ten to
      the number of fraction digits is the integer the digits spell. */
  function ParseDecimal(s: string): (r: Option<real>)
    ensures r.Some? <==> DecimalText(s)
    ensures r.Some? ==> r.value >= 0.0
    ensures r.Some? ==> DecimalText(s)
                        && r.value == DigitsValue(Unpointed(s)) as real / Pow10(FractionLength(s)) as real
    ensures AllDigits(s) && s != [] ==> r == Some(DigitsValue(s) as real)
  {
    var k := DotIndex(s);
    DecimalTextAt(s);
    if k == |s| then
      if s != [] && AllDigits(s) then Some(DigitsValue(s) as real) else None
    else
      var whole, frac := s[..k], s[k + 1..];
      if AllDigits(whole) && AllDigits(frac) && |whole| + |frac| > 0 then
        Some(PointedValue(whole, frac))
      else
        None
  }

  /** The value of `whole.frac`: all its digits read as one integer, over ten to the number
      of fraction digits. */
  function PointedValue(whole: string, frac: string): (v: real)
    requires AllDigits(whole) && AllDigits(frac)
    ensures v >= 0.0
    ensures AllDigits(whole + frac) && v == DigitsValue(whole + frac) as real / Pow10(|frac|) as real
  {
    var a, b, n := DigitsValue(whole), DigitsValue(frac), Pow10(|frac|);
    DigitsValueAppend(whole, frac);
    ScaledBack(a, b, n);
    a as real + b as real / n as real
  }

  lemma ScaledBack(a: int, b: int, n: int)
    requires n >= 1
    ensures a as real + b as real / n as real == (a * n + b) as real / n as real
  {
    RealOfProduct(a, n);
  }

  lemma RealOfProduct(x: int, y: int)
    ensures (x * y) as real == x as real * y as real
  {
  }

  /** Where the point sits decides whether the text is decimal and what its digits are. */
  lemma DecimalTextAt(s: string)
    ensures DotIndex(s) == |s| ==>
              && (DecimalText(s) <==> s != [] && AllDigits(s))
              && (AllDigits(s) ==> Unpointed(s) == s)
    ensures DotIndex(s) < |s| ==>
              var k := DotIndex(s);
              && (DecimalText(s) <==> AllDigits(s[..k]) && AllDigits(s[k + 1..]) && |s| > 1)
              && (AllDigits(s[..k]) && AllDigits(s[k + 1..]) ==> Unpointed(s) == s[..k] + s[k + 1..])
  {
    var k := DotIndex(s);
    if k == |s| {
      if AllDigits(s) {
        UnpointedDigits(s);
        if s != [] {
          assert IsDigit(s[0]);
        }
      }
    } else {
      var whole, frac := s[..k], s[k + 1..];
      SplitAt(s, k);
      assert [s[k]] == ".";
      if AllDigits(whole) && AllDigits(frac) {
        UnpointedParts(whole, frac);
        if |s| > 1 {
          DecimalFromParts(whole, frac);
        }
      }
      if DecimalText(s) {
        PartsFromDecimal(whole, frac);
      }
    }
  }

  lemma SplitAt<T>(s: seq<T>, k: nat)
    requires k < |s|
    ensures s == s[..k] + [s[k]] + s[k + 1..]
  {
  }

  lemma UnpointedParts(whole: string, frac: string)
    requires AllDigits(whole) && AllDigits(frac)
    ensures Unpointed(whole + "." + frac) == whole + frac
  {
    var dot: string := ".";
    assert whole + dot + frac == whole + (dot + frac);
    UnpointedAppend(whole, dot + frac);
    UnpointedAppend(dot, frac);
    UnpointedDigits(whole);
    UnpointedDigits(frac);
    assert Unpointed(dot) == [] by {
      assert dot[1..] == [];
    }
    assert Unpointed(dot + frac) == frac;
  }

  lemma DecimalFromParts(whole: string, frac: string)
    requires AllDigits(whole) && AllDigits(frac) && |whole| + |frac| > 0
    ensures DecimalText(whole + "." + frac)
  {
    var s, k := whole + "." + frac, |whole|;
    assert forall i :: 0 <= i < |s| ==> s[i] == (if i < k then whole[i] else if i == k then '.' else frac[i - k - 1]);
    if k > 0 { assert IsDigit(s[0]); } else { assert IsDigit(s[1]); }
  }

  lemma PartsFromDecimal(whole: string, frac: string)
    requires DecimalText(whole + "." + frac)
    ensures AllDigits(whole) && AllDigits(frac) && |whole| + |frac| > 0
  {
    var s, k := whole + "." + frac, |whole|;
    assert forall i :: 0 <= i < |whole| ==> whole[i] == s[i];
    assert forall i :: 0 <= i < |frac| ==> frac[i] == s[k + 1 + i];
    assert s[k] == '.';
    var d :| 0 <= d < |s| && IsDigit(s[d]);
    assert d != k;
  }

  lemma {:induction false} UnpointedAppend(a: string, b: string)
    ensures Unpointed(a + b) == Unpointed(a) + Unpointed(b)
  {
    if a != [] {
      assert (a + b)[1..] == a[1..] + b;
      UnpointedAppend(a[1..], b);
    } else {
      assert a + b == b;
    }
  }

  lemma {:induction false} UnpointedDigits(s: string)
    requires AllDigits(s)
    ensures Unpointed(s) == s
  {
    if s != [] {
      assert IsDigit(s[0]);
      UnpointedDigits(s[1..]);
      assert [s[0]] + s[1..] == s;
    }
  }

  /** Digits written after others scale the earlier ones by a power of ten. */
  lemma {:induction false} DigitsValueAppend(a: string, b: string)
    requires AllDigits(a) && AllDigits(b)
    ensures AllDigits(a + b)
    ensures DigitsValue(a + b) == DigitsValue(a) * Pow10(|b|) + DigitsValue(b)
    decreases |b|
  {
    var ab := a + b;
    assert AllDigits(ab) by {
      assert forall i :: 0 <= i < |ab| ==> ab[i] == (if i < |a| then a[i] else b[i - |a|]);
    }
    if b == [] {
      assert ab == a;
    } else {
      var b' := b[..|b| - 1];
      assert ab[..|ab| - 1] == a + b';
      assert ab[|ab| - 1] == b[|b| - 1];
      DigitsValueAppend(a, b');
      var va, p', last := DigitsValue(a), Pow10(|b'|), DigitValue(b[|b| - 1]);
      assert DigitsValue(ab) == 10 * (va * p' + DigitsValue(b')) + last;
      assert DigitsValue(b) == 10 * DigitsValue(b') + last;
      assert Pow10(|b|) == 10 * p';
      ScaleByTen(va, p');
    }
  }

  lemma ScaleByTen(x: int, y: int)
    ensures 10 * (x * y) == x * (10 * y)
  {
  }

  /** "5902.5" reads as 5902.5. */
  lemma ParseFractionExample(s: string)
    requires s == "5902.5"
    ensures ParseDecimal(s) == Some(5902.5)
  {
    FractionExampleParts();
    FractionExampleDigits();
    PointedParse(s, 4, "5902", "5");
    PointedSum("5902", "5", 5902, 5);
    assert Pow10(|"5"|) == 10;
  }

  lemma FractionExampleParts()
    ensures DotIndex("5902.5") == 4 && "5902.5"[..4] == "5902" && "5902.5"[5..] == "5"
  {
  }

  lemma FractionExampleDigits()
    ensures AllDigits("5902") && AllDigits("5")
    ensures DigitsValue("5902") == 5902 && DigitsValue("5") == 5
  {
    DigitsSpell4("5902");
    assert "5"[..0] == [];
  }

  lemma PointedParse(s: string, k: nat, whole: string, frac: string)
    requires k < |s| && DotIndex(s) == k && s[..k] == whole && s[k + 1..] == frac
    requires AllDigits(whole) && AllDigits(frac) && |whole| + |frac| > 0
    ensures ParseDecimal(s) == Some(PointedValue(whole, frac))
  {
  }

  lemma PointedSum(whole: string, frac: string, a: nat, b: nat)
    requires AllDigits(whole) && AllDigits(frac)
    requires DigitsValue(whole) == a && DigitsValue(frac) == b
    ensures PointedValue(whole, frac) == a as real + b as real / Pow10(|frac|) as real
  {
  }

  function DigitChar(d: nat): (c: char)
    requires d < 10
    ensures IsDigit(c) && DigitValue(c) == d
  {
    ('0' as int + d) as char
  }

  /** Python's `str()` of a non-negative integer: digits with no leading zero. */
  function NatToString(n: nat): (s: string)
    ensures s != [] && AllDigits(s)
    ensures s[0] == '0' <==> n == 0
  {
    if n < 10 then [DigitChar(n)] else NatToString(n / 10) + [DigitChar(n % 10)]
  }

  lemma {:induction false} NatToStringValue(n: nat)
    ensures DigitsValue(NatToString(n)) == n
  {
    var s := NatToString(n);
    if n < 10 {
      assert s[..0] == [];
    } else {
      NatToStringValue(n / 10);
      assert s[..|s| - 1] == NatToString(n / 10);
    }
  }

  /** Digits with no leading zero are `str()` of the number they spell: that text is the
      only one of its kind. */
  lemma {:induction false} CanonicalDigitsUnique(t: string, n: nat)
    requires t != [] && AllDigits(t) && (t[0] == '0' ==> |t| == 1)
    requires DigitsValue(t) == n
    ensures t == NatToString(n)
    decreases |t|
  {
    var init := t[..|t| - 1];
    if |t| == 1 {
      assert init == [];
      assert t == [DigitChar(n)];
    } else {
      assert init[0] == t[0];
      LeadingDigitPositive(init);
      CanonicalDigitsUnique(init, n / 10);
      assert t == init + [t[|t| - 1]];
    }
  }

  lemma {:induction false} LeadingDigitPositive(t: string)
    requires t != [] && AllDigits(t) && t[0] != '0'
    ensures DigitsValue(t) >= 1
    decreases |t|
  {
    if |t| > 1 {
      var init := t[..|t| - 1];
      assert init[0] == t[0];
      LeadingDigitPositive(init);
    }
  }

  /** Reading back the text `str()` wrote gives the same integer. */
  lemma ParseNatToString(n: nat)
    ensures ParseDecimal(NatToString(n)) == Some(n as real)
  {
    NatToStringValue(n);
  }

  // ---- rounding ----

  /** Python's `round()` of a number to an integer: nearest, ties to the even neighbour. */
  function RoundHalfEven(q: real): (r: int)
    ensures -(1.0 / 2.0) <= q - r as real <= 1.0 / 2.0
    ensures q - r as real == 1.0 / 2.0 || r as real - q == 1.0 / 2.0 ==> r % 2 == 0
  {
    var f := q.Floor;
    var d := q - f as real;
    if d < 1.0 / 2.0 then f
    else if d > 1.0 / 2.0 then f + 1
    else if f % 2 == 0 then f else f + 1
  }

  /** `round(x / 5) * 5` for a non-negative strike. */
  function NearestFive(v: real): (r: nat)
    requires v >= 0.0
    ensures r % 5 == 0
    ensures -(5.0 / 2.0) <= v - r as real <= 5.0 / 2.0
  {
    var k := RoundHalfEven(v / 5.0);
    assert k >= 0;
    k * 5
  }

  /** No other multiple of 5 is closer to the strike than the rounded one. */
  lemma NearestFiveIsNearest(v: real, m: int)
    requires v >= 0.0
    requires m % 5 == 0
    ensures Abs(v - NearestFive(v) as real) <= Abs(v - m as real)
  {
    var q := v / 5.0;
    var k := RoundHalfEven(q);
    var j := m / 5;
    assert m == 5 * j;
    assert NearestFive(v) == 5 * k;
    assert v - (5 * k) as real == 5.0 * (q - k as real);
    assert v - m as real == 5.0 * (q - j as real);
    if j != k {
      assert j - k >= 1 || k - j >= 1;
      assert Abs(q - j as real) >= 1.0 / 2.0;
    }
  }

  function Abs(x: real): real { if x < 0.0 then -x else x }

  /** `round_strike`: the nearest multiple of 5 as integer text, or the argument itself when
      it is not a number. */
  function RoundStrike(strike: string): (r: string)
    ensures ParseDecimal(strike).None? ==> r == strike
    ensures ParseDecimal(strike).Some? ==>
              && r != [] && AllDigits(r) && (r[0] == '0' ==> |r| == 1)
              && ParseDecimal(r) == Some(NearestFive(ParseDecimal(strike).value) as real)
  {
    match ParseDecimal(strike)
    case Some(v) =>
      ParseNatToString(NearestFive(v));
      NatToString(NearestFive(v))
    case None => strike
  }

  /** The unit-test values: 5902 -> 5900, 5903 -> 5905, 5897 -> 5895, 5900 -> 5900. */
  lemma RoundStrikeExamples()
    ensures RoundStrike("5902") == "5900"
    ensures RoundStrike("5903") == "5905"
    ensures RoundStrike("5897") == "5895"
    ensures RoundStrike("5900") == "5900"
  {
    RoundStrikeDown();
    RoundStrikeUp();
    RoundStrikeBelow();
    RoundStrikeExact();
  }

  lemma RoundStrikeDown() ensures RoundStrike("5902") == "5900" {
    FourDigits("5902", 5902);
    NearestFiveOf(5902, 5900);
    FourDigitText(5900, "5900");
    RoundStrikeExample("5902", 5902, 5900, "5900");
  }

  lemma RoundStrikeUp() ensures RoundStrike("5903") == "5905" {
    FourDigits("5903", 5903);
    NearestFiveOf(5903, 5905);
    FourDigitText(5905, "5905");
    RoundStrikeExample("5903", 5903, 5905, "5905");
  }

  lemma RoundStrikeBelow() ensures RoundStrike("5897") == "5895" {
    FourDigits("5897", 5897);
    NearestFiveOf(5897, 5895);
    FourDigitText(5895, "5895");
    RoundStrikeExample("5897", 5897, 5895, "5895");
  }

  lemma RoundStrikeExact() ensures RoundStrike("5900") == "5900" {
    FourDigits("5900", 5900);
    NearestFiveOf(5900, 5900);
    FourDigitText(5900, "5900");
    RoundStrikeExample("5900", 5900, 5900, "5900");
  }

  lemma RoundStrikeExample(s: string, n: nat, rounded: nat, t: string)
    requires ParseDecimal(s) == Some(n as real)
    requires NearestFive(n as real) == rounded
    requires NatToString(rounded) == t
    ensures RoundStrike(s) == t
  {
  }

  lemma FourDigits(s: string, n: nat)
    requires |s| == 4 && AllDigits(s)
    requires 1000 * DigitValue(s[0]) + 100 * DigitValue(s[1]) + 10 * DigitValue(s[2]) + DigitValue(s[3]) == n
    ensures ParseDecimal(s) == Some(n as real)
  {
    DigitsSpell4(s);
  }

  lemma NearestFiveOf(n: nat, rounded: nat)
    requires rounded % 5 == 0
    requires -(5.0 / 2.0) < n as real - rounded as real < 5.0 / 2.0
    ensures NearestFive(n as real) == rounded
  {
    var r := NearestFive(n as real);
    assert r - rounded < 5 && rounded - r < 5;
  }

  lemma FourDigitText(n: nat, t: string)
    requires 1000 <= n < 10000 && |t| == 4
    requires t == [DigitChar(n / 1000), DigitChar(n / 100 % 10), DigitChar(n / 10 % 10), DigitChar(n % 10)]
    ensures NatToString(n) == t
  {
    NatToString4(n);
  }

  lemma NatToString4(n: nat)
    requires 1000 <= n < 10000
    ensures NatToString(n) == [DigitChar(n / 1000), DigitChar(n / 100 % 10), DigitChar(n / 10 % 10), DigitChar(n % 10)]
  {
    assert n / 10 / 10 == n / 100;
    assert n / 100 / 10 == n / 1000;
    assert NatToString(n / 1000) == [DigitChar(n / 1000)];
    assert NatToString(n / 100) == NatToString(n / 1000) + [DigitChar(n / 100 % 10)];
    assert NatToString(n / 10) == NatToString(n / 100) + [DigitChar(n / 10 % 10)];
    assert NatToString(n) == NatToString(n / 10) + [DigitChar(n % 10)];
  }

  lemma DigitsSpell4(s: string)
    requires |s| == 4 && AllDigits(s)
    ensures DigitsValue(s) == 1000 * DigitValue(s[0]) + 100 * DigitValue(s[1]) + 10 * DigitValue(s[2]) + DigitValue(s[3])
  {
    var s3, s2, s1 := s[..3], s[..2], s[..1];
    assert s3[..2] == s2 && s2[..1] == s1 && s1[..0] == [];
    assert DigitsValue(s1) == DigitValue(s[0]);
    assert DigitsValue(s2) == 10 * DigitValue(s[0]) + DigitValue(s[1]);
    assert DigitsValue(s3) == 100 * DigitValue(s[0]) + 10 * DigitValue(s[1]) + DigitValue(s[2]);
  }

  /** Half-way strikes follow Python's round(): the even multiple of 5 of the two neighbours
      in units of 5, so 5902.5 goes down and 5907.5 goes up. */
  lemma HalfWayStrikes()
    ensures NearestFive(5902.5) == 5900
    ensures NearestFive(5907.5) == 5910
  {
    assert (5902.5 / 5.0).Floor == 1180;
    assert (5907.5 / 5.0).Floor == 1181;
  }

  // ---- one match ----

  /** The three groups of one match of the signal pattern: the expiry date text and the
      SC and LC strike texts (groups 1, 2 and 3). */
  datatype SignalMatch = SignalMatch(date: string, sc: string, lc: string)

  /** The configured defaults copied into every record. */
  datatype SignalDefaults = SignalDefaults(orderType: string, lmtPrice: Option<real>, stopPrice: Option<real>)

  /** One parsed record. The strikes stay text as in the source; the trigger is the value
      of the midpoint (the source stores its `str()`). */
  datatype ParsedSignal = ParsedSignal(
    expiry: string, scStrike: string, lcStrike: string, triggerPrice: real,
    orderType: string, lmtPrice: Option<real>, stopPrice: Option<real>)

  /** `date.replace('-', '')` */
  function RemoveDashes(date: string): (r: string)
    ensures '-' !in r
    ensures |r| <= |date|
    ensures '-' !in date ==> r == date
  {
    if date == [] then []
    else (if date[0] == '-' then [] else [date[0]]) + RemoveDashes(date[1..])
  }

  lemma {:induction false} RemoveDashesAppend(a: string, b: string)
    ensures RemoveDashes(a + b) == RemoveDashes(a) + RemoveDashes(b)
  {
    if a != [] {
      assert (a + b)[1..] == a[1..] + b;
      RemoveDashesAppend(a[1..], b);
    } else {
      assert a + b == b;
    }
  }

  /** A `YYYY-MM-DD` date loses exactly its two dashes. */
  lemma ExpiryFromDate(year: string, month: string, day: string)
    requires AllDigits(year) && AllDigits(month) && AllDigits(day)
    ensures RemoveDashes(year + "-" + month + "-" + day) == year + month + day
  {
    assert '-' !in year && '-' !in month && '-' !in day by {
      NoDashInDigits(year);
      NoDashInDigits(month);
      NoDashInDigits(day);
    }
    assert RemoveDashes("-") == [];
    var a := year + "-";
    RemoveDashesAppend(year, "-");
    assert RemoveDashes(a) == year;
    var b := a + month;
    RemoveDashesAppend(a, month);
    assert RemoveDashes(b) == year + month;
    var c := b + "-";
    RemoveDashesAppend(b, "-");
    assert RemoveDashes(c) == year + month;
    RemoveDashesAppend(c, day);
  }

  lemma NoDashInDigits(s: string)
    requires AllDigits(s)
    ensures '-' !in s
  {
  }

  /** The unit-test expiry: "2025-12-31" becomes "20251231". */
  lemma ExpiryExample()
    ensures RemoveDashes("2025-12-31") == "20251231"
  {
    assert "2025-12-31" == "2025" + "-" + "12" + "-" + "31";
    assert "20251231" == "2025" + "12" + "31";
    ExpiryFromDate("2025", "12", "31");
  }

  /** A match whose strikes both read as numbers; the others raise ValueError in the loop
      body and are skipped. */
  predicate WellFormed(m: SignalMatch) {
    ParseDecimal(m.sc).Some? && ParseDecimal(m.lc).Some?
  }

  /** The body of the loop of `parse_multi_signal_message` for one match: None where the
      source skips the match. */
  function NormalizeMatch(m: SignalMatch, defaults: SignalDefaults): (r: Option<ParsedSignal>)
    ensures r.Some? <==> WellFormed(m)
    ensures r.Some? ==>
      var sc, lc := NearestFive(ParseDecimal(m.sc).value), NearestFive(ParseDecimal(m.lc).value);
      && r.value.expiry == RemoveDashes(m.date)
      && ParseDecimal(r.value.scStrike) == Some(sc as real)
      && ParseDecimal(r.value.lcStrike) == Some(lc as real)
      && r.value.triggerPrice == (sc as real + lc as real) / 2.0
      && r.value.orderType == defaults.orderType
      && r.value.lmtPrice == defaults.lmtPrice
      && r.value.stopPrice == defaults.stopPrice
  {
    var expiry := RemoveDashes(m.date);
    var scText := RoundStrike(m.sc);
    var lcText := RoundStrike(m.lc);
    match (ParseDecimal(scText), ParseDecimal(lcText))
    case (Some(sc), Some(lc)) =>
      Some(ParsedSignal(expiry, scText, lcText, (sc + lc) / 2.0,
                        defaults.orderType, defaults.lmtPrice, defaults.stopPrice))
    case _ => None
  }

  // ---- the whole message ----

  /** The values `f` produces, in order, leaving out the elements it maps to None. */
  function FilterMap<A, B>(s: seq<A>, f: A -> Option<B>): seq<B> {
    if s == [] then []
    else FilterMap(s[..|s| - 1], f) + (if f(s[|s| - 1]).Some? then [f(s[|s| - 1]).value] else [])
  }

  /** Indices of the elements `f` maps to a value, in increasing order. */
  function KeptIndices<A, B>(s: seq<A>, f: A -> Option<B>): seq<nat> {
    if s == [] then []
    else KeptIndices(s[..|s| - 1], f) + (if f(s[|s| - 1]).Some? then [|s| - 1] else [])
  }

  lemma {:induction false} FilterMapOrder<A, B>(s: seq<A>, f: A -> Option<B>)
    ensures var idx := KeptIndices(s, f);
      && |FilterMap(s, f)| == |idx|
      && (forall k :: 0 <= k < |idx| ==> idx[k] < |s| && f(s[idx[k]]) == Some(FilterMap(s, f)[k]))
      && (forall k, l :: 0 <= k < l < |idx| ==> idx[k] < idx[l])
      && (forall i :: 0 <= i < |s| && f(s[i]).Some? ==> i in idx)
  {
    if s != [] {
      var init := s[..|s| - 1];
      FilterMapOrder(init, f);
      forall i | 0 <= i < |init| ensures init[i] == s[i] { }
    }
  }

  lemma {:induction false} FilterMapAppend<A, B>(a: seq<A>, b: seq<A>, f: A -> Option<B>)
    ensures FilterMap(a + b, f) == FilterMap(a, f) + FilterMap(b, f)
  {
    if b == [] {
      assert a + b == a;
    } else {
      assert (a + b)[..|a + b| - 1] == a + b[..|b| - 1];
      FilterMapAppend(a, b[..|b| - 1], f);
    }
  }

  lemma {:induction false} FilterMapEmpty<A, B>(s: seq<A>, f: A -> Option<B>)
    ensures FilterMap(s, f) == [] <==> forall i :: 0 <= i < |s| ==> f(s[i]).None?
  {
    if s != [] {
      var init := s[..|s| - 1];
      FilterMapEmpty(init, f);
      forall i | 0 <= i < |init| ensures init[i] == s[i] { }
    }
  }

  function Normalizer(defaults: SignalDefaults): SignalMatch -> Option<ParsedSignal> {
    m => NormalizeMatch(m, defaults)
  }

  /** The records of the matches, in match order, skipping the malformed ones. */
  function ParseAll(ms: seq<SignalMatch>, defaults: SignalDefaults): seq<ParsedSignal> {
    FilterMap(ms, Normalizer(defaults))
  }

  /** One record per well-formed match, in match order: record k is the normalisation of the
      k-th well-formed match, and every well-formed match has its record. */
  lemma ParseAllOrder(ms: seq<SignalMatch>, defaults: SignalDefaults)
    ensures var idx := KeptIndices(ms, Normalizer(defaults));
      && |ParseAll(ms, defaults)| == |idx|
      && (forall k :: 0 <= k < |idx| ==> idx[k] < |ms| && WellFormed(ms[idx[k]]))
      && (forall k, l :: 0 <= k < l < |idx| ==> idx[k] < idx[l])
      && (forall i :: 0 <= i < |ms| && WellFormed(ms[i]) ==> i in idx)
      && (forall k :: 0 <= k < |idx| ==> NormalizeMatch(ms[idx[k]], defaults) == Some(ParseAll(ms, defaults)[k]))
  {
    FilterMapOrder(ms, Normalizer(defaults));
  }

  /** Skipping is local: the records of two message parts are the records of each part. */
  lemma ParseAllAppend(a: seq<SignalMatch>, b: seq<SignalMatch>, defaults: SignalDefaults)
    ensures ParseAll(a + b, defaults) == ParseAll(a, defaults) + ParseAll(b, defaults)
  {
    FilterMapAppend(a, b, Normalizer(defaults));
  }

  /** A malformed match contributes nothing and does not stop the scan. */
  lemma MalformedSkipped(a: seq<SignalMatch>, bad: SignalMatch, b: seq<SignalMatch>, defaults: SignalDefaults)
    requires !WellFormed(bad)
    ensures ParseAll(a + [bad] + b, defaults) == ParseAll(a, defaults) + ParseAll(b, defaults)
  {
    MalformedYieldsNothing(bad, defaults);
    ParseAllAppend(a + [bad], b, defaults);
    ParseAllAppend(a, [bad], defaults);
  }

  lemma MalformedYieldsNothing(bad: SignalMatch, defaults: SignalDefaults)
    requires !WellFormed(bad)
    ensures ParseAll([bad], defaults) == []
  {
    var f := Normalizer(defaults);
    assert f(bad).None?;
    FilterMapOne(bad, f);
  }

  /** No record at all exactly when no match is well formed. */
  lemma ParseAllEmpty(ms: seq<SignalMatch>, defaults: SignalDefaults)
    ensures ParseAll(ms, defaults) == [] <==> forall i :: 0 <= i < |ms| ==> !WellFormed(ms[i])
  {
    FilterMapEmpty(ms, Normalizer(defaults));
  }

  /** Scanning one more match adds its record, if it has one. */
  lemma ParseAllPrefix(ms: seq<SignalMatch>, i: nat, defaults: SignalDefaults)
    requires i < |ms|
    ensures ParseAll(ms[..i + 1], defaults)
         == ParseAll(ms[..i], defaults) + FilterMap([ms[i]], Normalizer(defaults))
  {
    assert ms[..i + 1] == ms[..i] + [ms[i]];
    FilterMapAppend(ms[..i], [ms[i]], Normalizer(defaults));
  }

  lemma FilterMapOne<A, B>(x: A, f: A -> Option<B>)
    ensures FilterMap([x], f) == if f(x).Some? then [f(x).value] else []
  {
    assert [x][..0] == [];
  }

  /** `parse_multi_signal_message`: the loop over the matches, appending one record per
      well-formed match; None when nothing was parsed. */
  method ParseMultiSignalMessage(ms: seq<SignalMatch>, defaults: SignalDefaults)
    returns (r: Option<seq<ParsedSignal>>)
    ensures r.Some? ==> r.value == ParseAll(ms, defaults) && r.value != []
    ensures r.None? <==> forall i :: 0 <= i < |ms| ==> !WellFormed(ms[i])
  {
    var signals: seq<ParsedSignal> := [];
    for i := 0 to |ms|
      invariant signals == ParseAll(ms[..i], defaults)
    {
      var rec := NormalizeMatch(ms[i], defaults);
      ParseAllPrefix(ms, i, defaults);
      FilterMapOne(ms[i], Normalizer(defaults));
      if rec.None? {
        continue;
      }
      signals := signals + [rec.value];
    }
    assert ms[..|ms|] == ms;
    ParseAllEmpty(ms, defaults);
    r := if signals != [] then Some(signals) else None;
  }
}

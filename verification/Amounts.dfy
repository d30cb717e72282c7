/** Printing an amount (apps/core/value_objects.py) and rounding a decimal to minor units. */
module Amounts {
  import opened Common
  import opened Separators

  function Pow10(k: nat): (r: nat)
    ensures r >= 1
  {
    if k == 0 then 1 else 10 * Pow10(k - 1)
  }

  /** Numbers from here on need more than the 28 digits of Python's default decimal context: 10^28. */
  const LIMIT: nat := 10_000_000_000_000_000_000_000_000_000

  function RoundHalfUp(n: nat, unit: nat): nat
    requires unit > 0
  {
    (2 * n + unit) / (2 * unit)
  }

  /** `Money.from_decimal`; None is InvalidMoneyError, raised when the quantized value needs too many digits. */
  function FromDecimal(v: Decimal, places: nat): Option<nat> {
    var minor :=
      if v.scale <= places then v.digits * Pow10(places - v.scale)
      else RoundHalfUp(v.digits, Pow10(v.scale - places));
    if minor < LIMIT then Some(minor) else None
  }

  function DigitChar(d: nat): (c: char)
    requires d < 10
    ensures IsDigit(c) && c as int - '0' as int == d
  {
    '0' + d as char
  }

  function Digits(n: nat): string {
    if n < 10 then [DigitChar(n)] else Digits(n / 10) + [DigitChar(n % 10)]
  }

  /** The last `k` digits of a number, zeros included. */
  function Padded(n: nat, k: nat): string {
    if k == 0 then "" else Padded(n / 10, k - 1) + [DigitChar(n % 10)]
  }

  function Grouped(s: string): string {
    if |s| <= 3 then s else Grouped(s[..|s| - 3]) + "," + s[|s| - 3..]
  }

  lemma DivisionSplits(n: nat, d: nat)
    requires d > 0
    ensures n / d >= 0 && 0 <= n % d < d && n == (n / d) * d + n % d
  {}

  /** Major units of an amount, and the minor units left over. */
  function Units(n: nat, places: nat): (q: nat) {
    DivisionSplits(n, Pow10(places));
    n / Pow10(places)
  }

  function Rest(n: nat, places: nat): (r: nat)
    ensures r < Pow10(places) && n == Units(n, places) * Pow10(places) + r
  {
    DivisionSplits(n, Pow10(places));
    n % Pow10(places)
  }

  lemma UnitsBelow(n: nat, places: nat, k: nat)
    ensures Units(n, places) < k <==> n < k * Pow10(places)
  {
    var q, r, d := Units(n, places), Rest(n, places), Pow10(places);
    if q < k {
      MulGrows(q + 1, k, d, d);
      assert (q + 1) * d == q * d + d;
    } else {
      MulGrows(k, q, d, d);
    }
  }

  /** `f"{n / 10^places:,.{places}f}"`. */
  function PrintedBody(n: nat, places: nat): string {
    if places == 0 then Grouped(Digits(n))
    else Grouped(Digits(Units(n, places))) + "." + Padded(Rest(n, places), places)
  }

  /** The leading digits a context keeps when it holds numbers below `limit`, and how many it drops. */
  function Lead(n: nat, limit: nat): nat
    requires limit > 0
  {
    if n < limit then n else Lead(n / 10, limit)
  }

  function Dropped(n: nat, limit: nat): nat
    requires limit > 0
  {
    if n < limit then 0 else 1 + Dropped(n / 10, limit)
  }

  /** `Decimal(n).scaleb(...)` rounds half-even to the context's digits before anything is printed. */
  function Shown(n: nat, limit: nat): nat
    requires limit > 0
  {
    var unit, lead := Pow10(Dropped(n, limit)), Lead(n, limit);
    var rest := n - lead * unit;
    if 2 * rest > unit || (2 * rest == unit && lead % 2 == 1) then (lead + 1) * unit else lead * unit
  }

  lemma {:induction false} Pow10Grows(j: nat, k: nat)
    requires j <= k
    ensures Pow10(j) <= Pow10(k)
  {
    if j < k {
      Pow10Grows(j, k - 1);
    }
  }

  lemma {:induction false} LeadIsLong(n: nat, limit: nat, floor: nat)
    requires limit == 10 * floor && floor > 0 && n >= floor
    ensures Lead(n, limit) >= floor
    ensures n >= limit ==> Dropped(n, limit) >= 1
  {
    if n >= limit {
      LeadIsLong(n / 10, limit, floor);
    }
  }

  lemma ShownKeepsSize(n: nat, limit: nat, floor: nat)
    requires limit == 10 * floor && floor > 0
    ensures n < limit ==> Shown(n, limit) == n
    ensures n >= limit ==> Shown(n, limit) >= limit
  {
    if n >= limit {
      LeadIsLong(n, limit, floor);
      Pow10Grows(1, Dropped(n, limit));
      assert Pow10(1) == 10;
      RoundedStaysLong(Lead(n, limit), Pow10(Dropped(n, limit)), floor);
    }
  }

  lemma RoundedStaysLong(lead: nat, unit: nat, floor: nat)
    requires lead >= floor && unit >= 10
    ensures lead * unit >= 10 * floor && (lead + 1) * unit >= 10 * floor
  {
    MulGrows(floor, lead, 10, unit);
    MulGrows(floor, lead + 1, 10, unit);
  }

  lemma MulGrows(a: nat, b: nat, c: nat, d: nat)
    requires a <= b && c <= d
    ensures a * c <= b * d
  {
    assert b * d - a * c == (b - a) * d + a * (d - c);
  }

  // ---- The digits of a number ----

  lemma {:induction false} DigitsSpell(n: nat)
    ensures AllDigits(Digits(n)) && Number(Digits(n)) == n
  {
    if n >= 10 {
      DigitsSpell(n / 10);
      NumberAppend(Digits(n / 10), DigitChar(n % 10));
    } else {
      NumberAppend("", DigitChar(n));
    }
  }

  lemma {:induction false} PaddedSpells(n: nat, k: nat)
    requires n < Pow10(k)
    ensures |Padded(n, k)| == k && OnlyDigits(Padded(n, k)) && Number(Padded(n, k)) == n
  {
    if k > 0 {
      PaddedSpells(n / 10, k - 1);
      NumberAppend(Padded(n / 10, k - 1), DigitChar(n % 10));
    }
  }

  lemma {:induction false} DigitsLength(n: nat, k: nat)
    requires k >= 1
    ensures |Digits(n)| <= k <==> n < Pow10(k)
  {
    if n < 10 {
      Pow10Grows(1, k);
    } else if k > 1 {
      DigitsLength(n / 10, k - 1);
    } else {
      DigitsSpell(n / 10);
    }
  }

  lemma {:induction false} NumberJoins(a: string, b: string)
    requires OnlyDigits(b)
    ensures Number(a + b) == Number(a) * Pow10(|b|) + Number(b)
  {
    if b == "" {
      assert a + b == a;
    } else {
      var front, last := b[..|b| - 1], b[|b| - 1];
      assert IsDigit(last);
      NumberJoins(a, front);
      assert a + b == (a + front) + [last] && b == front + [last];
      NumberAppend(a + front, last);
      NumberAppend(front, last);
      JoinStep(Number(a), Number(front), Pow10(|front|), last as int - '0' as int);
    }
  }

  lemma JoinStep(head: nat, tail: nat, power: nat, digit: int)
    ensures 10 * (head * power + tail) + digit == head * (10 * power) + (10 * tail + digit)
  {}

  lemma {:induction false} GroupedKeepsNumber(s: string)
    requires AllDigits(s)
    ensures Number(Grouped(s)) == Number(s)
  {
    if |s| > 3 {
      var head, tail := s[..|s| - 3], s[|s| - 3..];
      var g := Grouped(head);
      GroupedKeepsNumber(head);
      assert s == head + tail && Grouped(s) == g + [','] + tail;
      NumberSkips(g, ',', tail);
      NumberOfParts(g, tail, head);
    }
  }

  lemma {:induction false} GroupedShape(s: string)
    requires AllDigits(s)
    ensures if |s| <= 3 then Grouped(s) == s else EveryFourth(Grouped(s), ',')
  {
    if |s| > 3 {
      GroupedShape(s[..|s| - 3]);
      OneMoreGroup(s[..|s| - 3], Grouped(s[..|s| - 3]), s[|s| - 3..]);
      assert Grouped(s) == Grouped(s[..|s| - 3]) + "," + s[|s| - 3..];
    }
  }

  lemma OneMoreGroup(head: string, g: string, tail: string)
    requires AllDigits(head) && OnlyDigits(tail) && |tail| == 3
    requires if |head| <= 3 then g == head else EveryFourth(g, ',')
    ensures EveryFourth(g + "," + tail, ',')
  {
    var whole := g + "," + tail;
    forall i | 0 <= i < |whole| ensures if (|whole| - i) % 4 == 0 then whole[i] == ',' else IsDigit(whole[i]) {
      SameRest(|whole|, |g|, i);
      assert i < |g| ==> whole[i] == g[i];
      assert i > |g| ==> whole[i] == tail[i - |g| - 1];
    }
  }

  lemma SameRest(n: int, g: int, i: int)
    requires n == g + 4
    ensures (n - i) % 4 == 0 <==> (g - i) % 4 == 0
  {}

  // ---- A printed amount reads back ----

  lemma SeparatorOfGrouped(s: string)
    requires AllDigits(s)
    ensures forall c :: c in Grouped(s) ==> IsDigit(c) || c == ','
    ensures Grouped(s) != "" && IsDigit(Grouped(s)[0])
  {
    GroupedShape(s);
    var g := Grouped(s);
    if |s| > 3 {
      forall i | 0 <= i < |g| ensures IsDigit(g[i]) || g[i] == ',' {
        assert (|g| - i) % 4 == 0 || (|g| - i) % 4 != 0;
      }
    }
  }

  lemma PrintedWholeReads(n: nat)
    ensures NumericBody(PrintedBody(n, 0))
    ensures Interpret(PrintedBody(n, 0), 0) == Some(Decimal(n, 0))
  {
    var s := Digits(n);
    var body := PrintedBody(n, 0);
    DigitsSpell(n);
    GroupedKeepsNumber(s);
    GroupedShape(s);
    SeparatorOfGrouped(s);
    if |s| > 3 {
      OnlyReadingIsChosen(Grouping(','), body, 0);
      AcceptedIsOnlyReading(body, 0);
    }
  }

  lemma FractionText(s: string, tail: string, places: nat)
    requires AllDigits(s) && AllDigits(tail) && places > 0
    ensures var integer := Grouped(s);
      var body := integer + "." + tail;
      && NumericBody(body) && Defensible(Fraction('.', |integer|), body, places)
      && body[..|integer|] == integer && Number(body) == Number(s + tail)
      && (AllDigits(integer) <==> |s| <= 3)
  {
    var integer := Grouped(s);
    var body := integer + "." + tail;
    GroupedKeepsNumber(s);
    GroupedShape(s);
    SeparatorOfGrouped(s);
    assert body[..|integer|] == integer && body[|integer| + 1..] == tail;
    forall i | 0 <= i < |body| ensures IsDigit(body[i]) || IsSeparator(body[i]) {
      assert body[i] in integer || body[i] == '.' || body[i] in tail;
    }
    assert body == integer + ['.'] + tail;
    NumberSkips(integer, '.', tail);
    NumberOfParts(integer, tail, s);
    if |s| > 3 {
      LastSeparators(integer, ',');
      assert !IsDigit(integer[|integer| - 4]);
    }
  }

  /** The printed fraction's reading. */
  lemma PrintedFractionShape(n: nat, places: nat)
    requires places > 0
    ensures var integer, body := Grouped(Digits(Units(n, places))), PrintedBody(n, places);
      && NumericBody(body) && Number(body) == n
      && |body| - 1 - |integer| == places
      && Defensible(Fraction('.', |integer|), body, places)
      && body[..|integer|] == integer
      && (AllDigits(integer) <==> Units(n, places) < 1000)
  {
    var s, tail := Digits(Units(n, places)), Padded(Rest(n, places), places);
    DigitsSpell(Units(n, places));
    PaddedSpells(Rest(n, places), places);
    FractionText(s, tail, places);
    NumberJoins(s, tail);
    DigitsLength(Units(n, places), 3);
    assert Pow10(3) == 1000;
  }

  /** Printing then reading the digits gives the number back for every amount and every number of decimals,
      except below 1,000 units of a currency with three decimals, where the text is ambiguous. */
  lemma PrintedIsReadBack(n: nat, places: nat)
    ensures NumericBody(PrintedBody(n, places))
    ensures Interpret(PrintedBody(n, places), places)
         == if places == 3 && n < 1_000_000 then None else Some(Decimal(n, places))
  {
    if places == 0 {
      PrintedWholeReads(n);
    } else if places == 3 && n < 1_000_000 {
      ThreeDecimalsClash(n);
    } else {
      PrintedFractionReads(n, places);
    }
  }

  lemma PrintedFractionReads(n: nat, places: nat)
    requires places > 0 && (places == 3 ==> n >= 1_000_000)
    ensures NumericBody(PrintedBody(n, places))
    ensures Interpret(PrintedBody(n, places), places) == Some(Decimal(n, places))
  {
    var body := PrintedBody(n, places);
    var r := Fraction('.', |Grouped(Digits(Units(n, places)))|);
    PrintedFractionShape(n, places);
    PrintedFractionIsSettled(n, places);
    OnlyReadingIsChosen(r, body, places);
    AcceptedIsOnlyReading(body, places);
  }

  lemma PrintedFractionIsSettled(n: nat, places: nat)
    requires places > 0 && (places == 3 ==> n >= 1_000_000)
    ensures var body, at := PrintedBody(n, places), |Grouped(Digits(Units(n, places)))|;
      |body| - at == 4 ==> !EveryFourth(body, '.')
  {
    PrintedFractionShape(n, places);
    var body, integer := PrintedBody(n, places), Grouped(Digits(Units(n, places)));
    if |body| - |integer| == 4 {
      assert Pow10(3) == 1000;
      UnitsBelow(n, 3, 1000);
      DigitsSpell(Units(n, places));
      GroupedShape(Digits(Units(n, places)));
      LastSeparators(integer, ',');
      CommaBreaksDots(body, |integer| - 4);
    }
  }

  lemma CommaBreaksDots(body: string, i: nat)
    requires i < |body| && body[i] == ','
    ensures !EveryFourth(body, '.')
  {
    assert !IsDigit(body[i]);
  }

  lemma ThreeDecimalsClash(n: nat)
    requires n < 1_000_000
    ensures NumericBody(PrintedBody(n, 3)) && Interpret(PrintedBody(n, 3), 3).None?
  {
    PrintedFractionShape(n, 3);
    var body := PrintedBody(n, 3);
    var at := |body| - 4;
    assert Pow10(3) == 1000;
    UnitsBelow(n, 3, 1000);
    DigitsSpell(Units(n, 3));
    DigitsLength(Units(n, 3), 3);
    GroupedShape(Digits(Units(n, 3)));
    ShortFractionClashes(body, at);
    TwoReadingsRejected(body, 3, Grouping('.'), Fraction('.', at));
  }

  lemma ShortFractionClashes(body: string, at: nat)
    requires at == |body| - 4 && 1 <= at <= 3 && Defensible(Fraction('.', at), body, 3) && AllDigits(body[..at])
    ensures EveryFourth(body, '.')
  {
    forall i | 0 <= i < |body| ensures if (|body| - i) % 4 == 0 then body[i] == '.' else IsDigit(body[i]) {
      assert i < at ==> body[i] == body[..at][i];
      assert i > at ==> body[i] == body[at + 1..][i - at - 1];
    }
  }

  // ---- Rounding ----

  /** `m` units lie at most half a unit from `n`. */
  predicate WithinHalf(n: nat, m: nat, unit: nat) {
    2 * (m * unit) <= 2 * n + unit && 2 * n < 2 * (m * unit) + unit
  }

  /** An accepted amount is stored exactly, except that a fraction behind grouping may show more digits than
      the currency has; it is then off by at most half a minor unit, and an exact half is rounded up. */
  lemma StoredWithinHalfUnit(body: string, places: nat)
    requires NumericBody(body) && Interpret(body, places).Some?
    requires FromDecimal(Interpret(body, places).value, places).Some?
    ensures var v := Interpret(body, places).value;
      var minor := FromDecimal(v, places).value;
      if v.scale <= places then minor == v.digits * Pow10(places - v.scale)
      else
        && '.' in body && ',' in body && places > 0
        && WithinHalf(v.digits, minor, Pow10(v.scale - places))
  {
    var v := Interpret(body, places).value;
    if v.scale > places {
      HalfUpIsClose(v.digits, Pow10(v.scale - places));
    }
  }

  lemma HalfUpIsClose(n: nat, unit: nat)
    requires unit > 0
    ensures WithinHalf(n, RoundHalfUp(n, unit), unit)
  {
    var m := RoundHalfUp(n, unit);
    assert 2 * n + unit == m * (2 * unit) + (2 * n + unit) % (2 * unit);
    assert m * (2 * unit) == 2 * (m * unit);
  }
}

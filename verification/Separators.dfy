/** Reading the separators of an amount (apps/parsing/money.py). */
module Separators {
  import opened Common

  /** An exact decimal number: `digits / 10^scale`. */
  datatype Decimal = Decimal(digits: nat, scale: nat)

  predicate IsDigit(c: char) { '0' <= c <= '9' }

  predicate IsSeparator(c: char) { c == '.' || c == ',' }

  function Other(c: char): char { if c == '.' then ',' else '.' }

  predicate OnlyDigits(s: string) { forall i :: 0 <= i < |s| ==> IsDigit(s[i]) }

  /** `str.isdigit`. */
  predicate AllDigits(s: string) { s != "" && OnlyDigits(s) }

  /** `\d[\d.,]*` over the whole text. */
  predicate NumericBody(s: string) {
    s != "" && IsDigit(s[0]) && forall i :: 0 <= i < |s| ==> IsDigit(s[i]) || IsSeparator(s[i])
  }

  /** The number the digits of a text spell, other characters skipped. */
  function Number(s: string): nat {
    if s == "" then 0
    else if IsDigit(s[|s| - 1]) then 10 * Number(s[..|s| - 1]) + (s[|s| - 1] as int - '0' as int)
    else Number(s[..|s| - 1])
  }

  function Without(s: string, c: char): string {
    if s == "" then ""
    else Without(s[..|s| - 1], c) + if s[|s| - 1] == c then "" else [s[|s| - 1]]
  }

  /** Index of the last occurrence, -1 when there is none. */
  function RFind(s: string, c: char): (at: int)
    ensures -1 <= at < |s|
    ensures at >= 0 ==> s[at] == c
    ensures forall i :: at < i < |s| ==> s[i] != c
  {
    if s == "" then -1 else if s[|s| - 1] == c then |s| - 1 else RFind(s[..|s| - 1], c)
  }

  function Count(s: string, c: char): nat { multiset(s)[c] }

  /** `(?:g\d{3})*`. */
  predicate Groups(s: string, g: char) {
    s == "" || (|s| >= 4 && s[0] == g && OnlyDigits(s[1..4]) && Groups(s[4..], g))
  }

  predicate HeadThenGroups(s: string, g: char, k: nat) {
    k < |s| && AllDigits(s[..k]) && Groups(s[k..], g)
  }

  /** `\d{1,3}(?:g\d{3})+`. */
  predicate MatchesGrouped(s: string, g: char) {
    HeadThenGroups(s, g, 1) || HeadThenGroups(s, g, 2) || HeadThenGroups(s, g, 3)
  }

  /** The number a body stands for in a currency with `places` decimals; None is the ambiguity error. */
  function Interpret(body: string, places: nat): Option<Decimal>
    requires NumericBody(body)
  {
    if AllDigits(body) then Some(Decimal(Number(body), 0))
    else if '.' in body && ',' in body then InterpretMixed(body, places)
    else InterpretSingle(body, if '.' in body then '.' else ',', places)
  }

  function InterpretMixed(body: string, places: nat): Option<Decimal>
    requires '.' in body && ',' in body
  {
    var at := if RFind(body, '.') < RFind(body, ',') then RFind(body, ',') else RFind(body, '.');
    var grouping := if body[at] == ',' then '.' else ',';
    var integer, fraction := body[..at], body[at + 1..];
    if !MatchesGrouped(integer, grouping) || !AllDigits(fraction) || places == 0 then None
    else Some(Decimal(Number(Without(integer, grouping) + fraction), |fraction|))
  }

  function InterpretSingle(body: string, separator: char, places: nat): Option<Decimal>
    requires separator in body
  {
    if MatchesGrouped(body, separator) then
      if places == 0 || Count(body, separator) > 1 then Some(Decimal(Number(Without(body, separator)), 0)) else None
    else
      var at := RFind(body, separator);
      var head, tail := body[..at], body[at + 1..];
      if separator in head || !AllDigits(head) || !AllDigits(tail) || places == 0 || |tail| != places then None
      else Some(Decimal(Number(head + tail), |tail|))
  }

  // ---- What a body can mean, defined by position ----

  /** Counted from the right, every fourth character is the separator and all others are digits. */
  predicate EveryFourth(s: string, g: char) {
    && |s| > 4 && |s| % 4 != 0
    && forall i :: 0 <= i < |s| ==> if (|s| - i) % 4 == 0 then s[i] == g else IsDigit(s[i])
  }

  datatype Reading = Whole | Grouping(sep: char) | Fraction(sep: char, at: nat)

  /** A defensible reading in a currency with `places` decimals. */
  predicate Defensible(r: Reading, body: string, places: nat) {
    match r
    case Whole => AllDigits(body)
    case Grouping(g) => IsSeparator(g) && EveryFourth(body, g)
    case Fraction(d, at) =>
      && places > 0 && IsSeparator(d) && at < |body| && body[at] == d && AllDigits(body[at + 1..])
      && (AllDigits(body[..at]) || EveryFourth(body[..at], Other(d)))
  }

  function Value(r: Reading, body: string): Decimal {
    Decimal(Number(body), if r.Fraction? && r.at < |body| then |body| - 1 - r.at else 0)
  }

  ghost predicate OnlyReading(r: Reading, body: string, places: nat) {
    Defensible(r, body, places) && forall q :: Defensible(q, body, places) ==> q == r
  }

  /** A fraction without grouping must show exactly the currency's decimals. */
  predicate RightLength(r: Reading, body: string, places: nat) {
    r.Fraction? && r.at < |body| && AllDigits(body[..r.at]) ==> |body| - 1 - r.at == places
  }

  /** From the left: a separator at every multiple of four, digits elsewhere. */
  predicate Phased(s: string, g: char) {
    forall i :: 0 <= i < |s| ==> PhaseAt(s, g, i)
  }

  predicate PhaseAt(s: string, g: char, i: nat)
    requires i < |s|
  {
    if i % 4 == 0 then s[i] == g else IsDigit(s[i])
  }

  lemma {:induction false} GroupsArePhased(s: string, g: char)
    requires Groups(s, g)
    ensures |s| % 4 == 0 && Phased(s, g)
    decreases |s|
  {
    if s != "" {
      GroupsArePhased(s[4..], g);
      forall i | 0 <= i < |s| ensures PhaseAt(s, g, i) {
        if i >= 4 {
          assert PhaseAt(s[4..], g, i - 4);
        } else if i > 0 {
          assert s[i] == s[1..4][i - 1];
        }
      }
    }
  }

  lemma {:induction false} PhasedAreGroups(s: string, g: char)
    requires |s| % 4 == 0 && Phased(s, g)
    ensures Groups(s, g)
    decreases |s|
  {
    if s != "" {
      assert PhaseAt(s, g, 0) && PhaseAt(s, g, 1) && PhaseAt(s, g, 2) && PhaseAt(s, g, 3);
      forall i | 0 <= i < |s[4..]| ensures PhaseAt(s[4..], g, i) {
        assert PhaseAt(s, g, i + 4);
      }
      PhasedAreGroups(s[4..], g);
    }
  }

  lemma SamePhase(n: int, k: int, i: int)
    requires (n - k) % 4 == 0
    ensures (n - i) % 4 == 0 <==> (i - k) % 4 == 0
  {}

  lemma HeadIsEveryFourth(s: string, g: char, k: nat)
    requires 1 <= k <= 3 && HeadThenGroups(s, g, k)
    ensures EveryFourth(s, g) && |s| % 4 == k
  {
    var t := s[k..];
    GroupsArePhased(t, g);
    forall i | 0 <= i < |s| ensures if (|s| - i) % 4 == 0 then s[i] == g else IsDigit(s[i]) {
      SamePhase(|s|, k, i);
      assert i < k ==> s[i] == s[..k][i];
      assert i >= k ==> s[i] == t[i - k] && PhaseAt(t, g, i - k);
    }
  }

  lemma EveryFourthHasHead(s: string, g: char)
    requires EveryFourth(s, g)
    ensures HeadThenGroups(s, g, |s| % 4)
  {
    var k := |s| % 4;
    var t := s[k..];
    forall i | 0 <= i < |t| ensures PhaseAt(t, g, i) {
      SamePhase(|s|, k, i + k);
      assert t[i] == s[i + k];
    }
    PhasedAreGroups(t, g);
    forall i | 0 <= i < k ensures IsDigit(s[..k][i]) {
      SamePhase(|s|, k, i);
    }
  }

  /** The regular expression and the positional definition agree. */
  lemma GroupedByPosition(s: string, g: char)
    ensures MatchesGrouped(s, g) <==> EveryFourth(s, g)
  {
    if MatchesGrouped(s, g) {
      HeadIsEveryFourth(s, g, if HeadThenGroups(s, g, 1) then 1 else if HeadThenGroups(s, g, 2) then 2 else 3);
    }
    if EveryFourth(s, g) {
      EveryFourthHasHead(s, g);
    }
  }

  lemma NumberAppend(s: string, c: char)
    ensures Number(s + [c]) == if IsDigit(c) then 10 * Number(s) + (c as int - '0' as int) else Number(s)
  {
    assert (s + [c])[..|s|] == s;
  }

  lemma {:induction false} WithoutKeepsNumber(s: string, c: char)
    requires !IsDigit(c)
    ensures Number(Without(s, c)) == Number(s)
  {
    if s != "" {
      WithoutKeepsNumber(s[..|s| - 1], c);
      NumberAppend(Without(s[..|s| - 1], c), s[|s| - 1]);
      assert Without(s[..|s| - 1], c) + "" == Without(s[..|s| - 1], c);
    }
  }

  lemma {:induction false} NumberSkips(a: string, c: char, b: string)
    requires !IsDigit(c)
    ensures Number(a + [c] + b) == Number(a + b)
  {
    var s := a + [c] + b;
    if b == "" {
      assert s[..|s| - 1] == a && a + b == a;
    } else {
      assert s[..|s| - 1] == a + [c] + b[..|b| - 1];
      assert (a + b)[..|a + b| - 1] == a + b[..|b| - 1];
      NumberSkips(a, c, b[..|b| - 1]);
    }
  }

  lemma {:induction false} NumberOfParts(a: string, b: string, c: string)
    requires Number(a) == Number(c)
    ensures Number(a + b) == Number(c + b)
  {
    if b == "" {
      assert a + b == a && c + b == c;
    } else {
      assert (a + b)[..|a + b| - 1] == a + b[..|b| - 1];
      assert (c + b)[..|c + b| - 1] == c + b[..|b| - 1];
      NumberOfParts(a, b[..|b| - 1], c);
    }
  }

  lemma CountAround(s: string, c: char, at: nat)
    requires at < |s| && s[at] == c
    ensures Count(s, c) > 1 <==> c in s[..at] || c in s[at + 1..]
  {
    assert s == s[..at] + [c] + s[at + 1..];
    assert multiset(s) == multiset(s[..at]) + multiset{c} + multiset(s[at + 1..]);
  }

  /** Only one situation has two readings: a single group of three, as grouping or as a fraction. */
  lemma ReadingsClash(q: Reading, r: Reading, body: string, places: nat)
    requires Defensible(q, body, places) && Defensible(r, body, places) && q != r
    ensures 4 < |body| < 8 && places > 0 && (q.Grouping? || r.Grouping?)
    ensures (q.Grouping? ==> r == Fraction(q.sep, |body| - 4)) && (r.Grouping? ==> q == Fraction(r.sep, |body| - 4))
  {
    if q.Grouping? && r.Fraction? {
      GroupingAgainstFraction(q.sep, r.sep, r.at, body, places);
    } else if r.Grouping? && q.Fraction? {
      GroupingAgainstFraction(r.sep, q.sep, q.at, body, places);
    } else if q.Grouping? && r.Whole? {
      SeparatorPresent(q, body, places);
    } else if r.Grouping? && q.Whole? {
      SeparatorPresent(r, body, places);
    } else {
      SameKindAgrees(q, r, body, places);
    }
  }

  /** Two readings of which neither or both are groupings are one reading. */
  lemma SameKindAgrees(q: Reading, r: Reading, body: string, places: nat)
    requires Defensible(q, body, places) && Defensible(r, body, places)
    requires q.Grouping? <==> r.Grouping?
    ensures q == r
  {
    if q.Grouping? {
      LastSeparators(body, q.sep);
      LastSeparators(body, r.sep);
    } else {
      if q.Fraction? { FractionSeparatorIsLast(q.sep, q.at, body); }
      if r.Fraction? { FractionSeparatorIsLast(r.sep, r.at, body); }
    }
  }

  lemma SeparatorPresent(r: Reading, body: string, places: nat)
    requires Defensible(r, body, places) && !r.Whole?
    ensures exists i :: 0 <= i < |body| && !IsDigit(body[i])
  {
    var i := if r.Grouping? then |body| - 4 else r.at;
    assert (|body| - (|body| - 4)) % 4 == 0;
    assert !IsDigit(body[i]);
  }

  lemma GroupingAgainstFraction(g: char, d: char, at: nat, body: string, places: nat)
    requires Defensible(Grouping(g), body, places) && Defensible(Fraction(d, at), body, places)
    ensures d == g && at == |body| - 4 && |body| < 8
  {
    LastSeparators(body, g);
    assert forall i :: at < i < |body| ==> body[i] == body[at + 1..][i - at - 1];
    assert forall i :: 0 <= i < at ==> body[i] == body[..at][i];
  }

  lemma LastSeparators(body: string, g: char)
    requires EveryFourth(body, g)
    ensures body[|body| - 4] == g && (|body| >= 8 ==> body[|body| - 8] == g)
    ensures |body| < 8 ==> forall i :: 0 <= i < |body| && i != |body| - 4 ==> IsDigit(body[i])
  {
    assert (|body| - (|body| - 4)) % 4 == 0 && (|body| - (|body| - 8)) % 4 == 0;
    forall i | 0 <= i < |body| && i != |body| - 4 && |body| < 8 ensures IsDigit(body[i]) {
      assert (|body| - i) % 4 != 0;
    }
  }

  // ---- The code reads a body exactly when it has one reading ----

  /** The reading behind an accepted body. */
  function Chosen(body: string): (r: Reading)
    requires NumericBody(body)
  {
    if AllDigits(body) then Whole
    else if '.' in body && ',' in body then
      var at := if RFind(body, '.') < RFind(body, ',') then RFind(body, ',') else RFind(body, '.');
      Fraction(body[at], at)
    else
      var separator := if '.' in body then '.' else ',';
      if MatchesGrouped(body, separator) then Grouping(separator) else Fraction(separator, RFind(body, separator))
  }

  lemma JoinedNumber(integer: string, d: char, fraction: string, g: char)
    requires !IsDigit(d) && !IsDigit(g)
    ensures Number(Without(integer, g) + fraction) == Number(integer + [d] + fraction)
  {
    WithoutKeepsNumber(integer, g);
    NumberOfParts(Without(integer, g), fraction, integer);
    NumberSkips(integer, d, fraction);
  }

  lemma MixedAccepted(body: string, places: nat)
    requires NumericBody(body) && '.' in body && ',' in body && InterpretMixed(body, places).Some?
    ensures Defensible(Chosen(body), body, places) && RightLength(Chosen(body), body, places)
    ensures InterpretMixed(body, places) == Some(Value(Chosen(body), body))
  {
    MixedDefensible(body, places);
    MixedValue(body, places);
  }

  lemma MixedDefensible(body: string, places: nat)
    requires NumericBody(body) && '.' in body && ',' in body && InterpretMixed(body, places).Some?
    ensures Defensible(Chosen(body), body, places) && RightLength(Chosen(body), body, places)
  {
    var at := if RFind(body, '.') < RFind(body, ',') then RFind(body, ',') else RFind(body, '.');
    var d := body[at];
    GroupedByPosition(body[..at], Other(d));
    assert body == body[..at] + [d] + body[at + 1..];
    LastSeparators(body[..at], Other(d));
  }

  lemma CutOut(body: string, at: nat, g: char)
    requires at < |body| && !IsDigit(body[at]) && !IsDigit(g)
    ensures Number(Without(body[..at], g) + body[at + 1..]) == Number(body)
  {
    assert body == body[..at] + [body[at]] + body[at + 1..];
    JoinedNumber(body[..at], body[at], body[at + 1..], g);
  }

  lemma MixedValue(body: string, places: nat)
    requires NumericBody(body) && '.' in body && ',' in body && InterpretMixed(body, places).Some?
    ensures InterpretMixed(body, places) == Some(Value(Chosen(body), body))
  {
    var at := if RFind(body, '.') < RFind(body, ',') then RFind(body, ',') else RFind(body, '.');
    CutOut(body, at, Other(body[at]));
  }

  lemma SingleAccepted(body: string, separator: char, places: nat)
    requires NumericBody(body) && IsSeparator(separator) && separator in body && Other(separator) !in body
    requires InterpretSingle(body, separator, places).Some?
    ensures Defensible(Chosen(body), body, places) && RightLength(Chosen(body), body, places)
    ensures InterpretSingle(body, separator, places) == Some(Value(Chosen(body), body))
  {
    if MatchesGrouped(body, separator) {
      GroupedByPosition(body, separator);
      WithoutKeepsNumber(body, separator);
    } else {
      LoneFractionAccepted(body, separator, places);
    }
  }

  lemma LoneChoice(body: string, separator: char)
    requires NumericBody(body) && IsSeparator(separator) && separator in body && Other(separator) !in body
    requires !MatchesGrouped(body, separator)
    ensures Chosen(body) == Fraction(separator, RFind(body, separator)) && RFind(body, separator) >= 0
  {
    var i :| 0 <= i < |body| && body[i] == separator;
    assert !IsDigit(body[i]);
    assert separator == '.' ==> '.' in body && ',' !in body;
    assert separator == ',' ==> ',' in body && '.' !in body;
  }

  lemma LoneParts(body: string, at: nat)
    requires at < |body| && !IsDigit(body[at])
    ensures Number(body[..at] + body[at + 1..]) == Number(body)
  {
    assert body == body[..at] + [body[at]] + body[at + 1..];
    NumberSkips(body[..at], body[at], body[at + 1..]);
  }

  lemma LoneFractionAccepted(body: string, separator: char, places: nat)
    requires NumericBody(body) && IsSeparator(separator) && separator in body && Other(separator) !in body
    requires InterpretSingle(body, separator, places).Some? && !MatchesGrouped(body, separator)
    ensures Defensible(Chosen(body), body, places) && RightLength(Chosen(body), body, places)
    ensures InterpretSingle(body, separator, places) == Some(Value(Chosen(body), body))
  {
    LoneChoice(body, separator);
    LoneParts(body, RFind(body, separator));
  }

  lemma GroupingRepeats(body: string, g: char)
    requires EveryFourth(body, g) && IsSeparator(g)
    ensures Count(body, g) > 1 <==> |body| >= 8
  {
    var at := |body| - 4;
    LastSeparators(body, g);
    CountAround(body, g, at);
    assert |body| >= 8 ==> body[..at][at - 4] == g;
  }

  /** Every accepted body has one defensible reading, and the code returns its value. */
  lemma AcceptedIsOnlyReading(body: string, places: nat)
    requires NumericBody(body) && Interpret(body, places).Some?
    ensures OnlyReading(Chosen(body), body, places) && RightLength(Chosen(body), body, places)
    ensures Interpret(body, places) == Some(Value(Chosen(body), body))
  {
    var r := Chosen(body);
    if AllDigits(body) {
    } else if '.' in body && ',' in body {
      MixedAccepted(body, places);
    } else {
      SingleAccepted(body, if '.' in body then '.' else ',', places);
    }
    forall q | Defensible(q, body, places) ensures q == r {
      if q != r {
        ReadingsClash(q, r, body, places);
        ClashIsRejected(body, places);
      }
    }
  }

  lemma ClashIsRejected(body: string, places: nat)
    requires NumericBody(body) && places > 0 && 4 < |body| < 8
    requires EveryFourth(body, '.') || EveryFourth(body, ',')
    ensures Interpret(body, places).None?
  {
    var g := if EveryFourth(body, '.') then '.' else ',';
    LastSeparators(body, g);
    assert !IsDigit(body[|body| - 4]) && Other(g) !in body;
    GroupedByPosition(body, g);
    GroupingRepeats(body, g);
  }

  lemma OnlyReadingIsChosen(r: Reading, body: string, places: nat)
    requires NumericBody(body) && Defensible(r, body, places) && RightLength(r, body, places)
    requires r.Grouping? ==> places == 0 || |body| >= 8
    requires r.Fraction? && |body| - r.at == 4 ==> !EveryFourth(body, r.sep)
    ensures Interpret(body, places).Some?
  {
    match r
    case Whole =>
    case Grouping(g) =>
      LastSeparators(body, g);
      forall i | 0 <= i < |body| ensures body[i] != Other(g) {
        assert (|body| - i) % 4 == 0 || (|body| - i) % 4 != 0;
      }
      GroupedByPosition(body, g);
      GroupingRepeats(body, g);
    case Fraction(d, at) =>
      FractionIsChosen(d, at, body, places);
  }

  lemma FractionIsChosen(d: char, at: nat, body: string, places: nat)
    requires NumericBody(body) && Defensible(Fraction(d, at), body, places)
    requires RightLength(Fraction(d, at), body, places)
    requires |body| - at == 4 ==> !EveryFourth(body, d)
    ensures Interpret(body, places).Some?
  {
    if AllDigits(body[..at]) {
      PlainFractionIsChosen(d, at, body, places);
    } else {
      MixedFractionIsChosen(d, at, body, places);
    }
  }

  /** The fraction's separator is the last one of its kind. */
  lemma FractionSeparatorIsLast(d: char, at: nat, body: string)
    requires at < |body| && body[at] == d && IsSeparator(d) && AllDigits(body[at + 1..])
    ensures RFind(body, d) == at && RFind(body, Other(d)) < at && !AllDigits(body)
  {
    forall i | at < i < |body| ensures IsDigit(body[i]) {
      assert body[i] == body[at + 1..][i - at - 1];
    }
    assert !IsDigit(body[at]);
  }

  lemma PlainFractionIsChosen(d: char, at: nat, body: string, places: nat)
    requires NumericBody(body) && Defensible(Fraction(d, at), body, places) && AllDigits(body[..at])
    requires |body| - 1 - at == places
    requires |body| - at == 4 ==> !EveryFourth(body, d)
    ensures Interpret(body, places).Some?
  {
    FractionSeparatorIsLast(d, at, body);
    assert forall i :: 0 <= i < at ==> body[i] == body[..at][i];
    assert d !in body[..at] && Other(d) !in body;
    GroupedByPosition(body, d);
    if EveryFourth(body, d) {
      LastSeparators(body, d);
      assert false;
    }
  }

  lemma MixedFractionIsChosen(d: char, at: nat, body: string, places: nat)
    requires NumericBody(body) && Defensible(Fraction(d, at), body, places) && !AllDigits(body[..at])
    ensures Interpret(body, places).Some?
  {
    FractionSeparatorIsLast(d, at, body);
    var integer := body[..at];
    GroupedByPosition(integer, Other(d));
    LastSeparators(integer, Other(d));
    assert body[|integer| - 4] == Other(d) && body[at] == d;
  }

  /** A body is accepted if and only if it has exactly one defensible reading and, when that reading is a
      fraction without grouping, it shows the currency's decimals. */
  lemma AcceptedIff(body: string, places: nat)
    requires NumericBody(body)
    ensures Interpret(body, places).Some? <==>
      exists r :: OnlyReading(r, body, places) && RightLength(r, body, places)
  {
    if Interpret(body, places).Some? {
      AcceptedIsOnlyReading(body, places);
    }
    if r :| OnlyReading(r, body, places) && RightLength(r, body, places) {
      if r.Grouping? && places > 0 && |body| < 8 {
        SingleGroupIsFractionToo(r.sep, body, places);
      }
      if r.Fraction? && |body| - r.at == 4 && EveryFourth(body, r.sep) {
        assert Defensible(Grouping(r.sep), body, places);
      }
      OnlyReadingIsChosen(r, body, places);
    }
  }

  lemma SingleGroupIsFractionToo(g: char, body: string, places: nat)
    requires IsSeparator(g) && EveryFourth(body, g) && places > 0 && |body| < 8
    ensures Defensible(Fraction(g, |body| - 4), body, places)
  {
    LastSeparators(body, g);
  }

  /** Two defensible readings are always refused: an amount is never off by a thousand. */
  lemma TwoReadingsRejected(body: string, places: nat, q: Reading, r: Reading)
    requires NumericBody(body) && Defensible(q, body, places) && Defensible(r, body, places) && q != r
    ensures Interpret(body, places).None?
  {
    ReadingsClash(q, r, body, places);
    ClashIsRejected(body, places);
  }
}

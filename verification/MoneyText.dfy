/** Reading an amount printed on a screen (apps/parsing/money.py), and the printer's text as its input. */
module MoneyText {
  import opened Common
  import opened Values
  import opened Separators
  import opened Amounts

  /** Minor-unit exponents (apps/core/currencies.py). */
  const PLACES: map<string, nat> := map[
    "KRW" := 0, "JPY" := 0, "USD" := 2, "EUR" := 2, "GBP" := 2, "CNY" := 2, "HKD" := 2, "SGD" := 2,
    "AUD" := 2, "CAD" := 2, "CHF" := 2, "THB" := 2, "VND" := 0, "TWD" := 2
  ]

  datatype Marker = Marker(text: string, code: string)

  function CodeMarker(code: string): Marker { Marker(Fold(code), code) }

  /** Symbols, codes and local words, longest first, then in code-point order. The yen sign stands for JPY
      and CNY alike and nothing fixes which entry comes first: `yen` is the code that happened to. */
  function Markers(yen: string): seq<Marker> { ThreeLetters() + TwoLetters() + OneLetter(yen) }

  function ThreeLetters(): seq<Marker> {
    [ CodeMarker("AUD"), CodeMarker("CAD"), CodeMarker("CHF"), CodeMarker("CNY"), CodeMarker("EUR"),
      CodeMarker("GBP"), Marker("hk$", "HKD"), CodeMarker("HKD"), CodeMarker("JPY"), CodeMarker("KRW"),
      Marker("nt$", "TWD"), CodeMarker("SGD"), CodeMarker("THB"), CodeMarker("TWD"), CodeMarker("USD"),
      CodeMarker("VND") ]
  }

  function TwoLetters(): seq<Marker> {
    [Marker("a$", "AUD"), Marker("c$", "CAD"), Marker("s$", "SGD"), Marker("달러", "USD")]
  }

  function OneLetter(yen: string): seq<Marker> {
    [ Marker("$", "USD"), Marker("£", "GBP"), Marker("¥", yen), Marker("¥", if yen == "JPY" then "CNY" else "JPY"),
      Marker("฿", "THB"), Marker("₩", "KRW"), Marker("₫", "VND"), Marker("€", "EUR"), Marker("엔", "JPY"),
      Marker("원", "KRW") ]
  }

  const LABELS: seq<string> := [
    "입금", "출금", "결제", "승인", "취소", "환불", "이체", "송금", "납부", "청구", "잔액",
    "deposit", "withdrawal", "payment", "approved", "approval", "refund", "balance", "transfer"
  ]

  /** `money` is None exactly when the amount is ambiguous. */
  datatype Candidate = Candidate(money: Option<Money>, sign: string, caption: Option<string>, repaired: bool,
                                 defaulted: bool) {
    function SignedMinor(): Option<int> {
      if money.None? then None else Some(if sign == "-" then -money.value.minor else money.value.minor)
    }
  }

  datatype Outcome = NotAnAmount | UnknownCurrency | Read(candidate: Candidate)

  function FoldChar(c: char): char {
    if 'A' <= c <= 'Z' then ((c as int) - ('A' as int) + ('a' as int)) as char else c
  }

  function Fold(s: string): string {
    seq(|s|, i requires 0 <= i < |s| => FoldChar(s[i]))
  }

  predicate Contains(m: string, t: string) {
    m <= t || (t != "" && Contains(m, t[1..]))
  }

  function DetectCurrency(markers: seq<Marker>, folded: string): Option<string> {
    if markers == [] then None
    else if Contains(markers[0].text, folded) then Some(markers[0].code)
    else DetectCurrency(markers[1..], folded)
  }

  function DetectLabel(labels: seq<string>, folded: string): Option<string> {
    if labels == [] then None
    else if Contains(labels[0], folded) then Some(labels[0])
    else DetectLabel(labels[1..], folded)
  }

  /** Length of the first pattern the text starts with, 0 when there is none. */
  function FirstPrefix(patterns: seq<string>, folded: string): (k: nat)
    ensures k <= |folded|
  {
    if patterns == [] then 0
    else if patterns[0] <= folded then |patterns[0]|
    else FirstPrefix(patterns[1..], folded)
  }

  /** Case-insensitive `re.sub(p1|p2|..., " ", text)`. */
  function Blank(patterns: seq<string>, text: string): string {
    if text == "" then "" else
      var k := FirstPrefix(patterns, Fold(text));
      if k > 0 then " " + Blank(patterns, text[k..]) else [text[0]] + Blank(patterns, text[1..])
  }

  function MarkerTexts(markers: seq<Marker>): (r: seq<string>)
    ensures |r| == |markers| && forall i :: 0 <= i < |r| ==> r[i] == markers[i].text
  {
    if markers == [] then [] else [markers[0].text] + MarkerTexts(markers[1..])
  }

  function StripLeft(s: string): string { if s != "" && s[0] == ' ' then StripLeft(s[1..]) else s }

  function StripRight(s: string): string {
    if s != "" && s[|s| - 1] == ' ' then StripRight(s[..|s| - 1]) else s
  }

  function Strip(s: string): string { StripRight(StripLeft(s)) }

  function Residual(text: string, caption: Option<string>, yen: string): string {
    var stripped := Blank(MarkerTexts(Markers(yen)), text);
    Strip(if caption.Some? then Blank([caption.value], stripped) else stripped)
  }

  predicate IsSign(c: char) { c == '+' || c == '-' || c == '−' || c == '–' || c == '—' }

  datatype Signed = Signed(sign: string, body: string)

  function SplitSign(residual: string): Signed {
    if residual != "" && IsSign(residual[0]) then
      Signed(if residual[0] == '+' then "+" else "-", Strip(residual[1..]))
    else
      Signed("", residual)
  }

  function RepairChar(c: char): char {
    if c == 'O' || c == 'o' || c == 'D' || c == 'Q' then '0'
    else if c == 'l' || c == 'I' || c == '|' then '1'
    else if c == 'S' || c == 's' then '5'
    else if c == 'B' then '8'
    else if c == 'Z' then '2'
    else if c == 'b' then '6'
    else if c == 'g' then '9'
    else c
  }

  function RepairAll(s: string): (r: string)
    ensures |r| == |s| && forall i :: 0 <= i < |s| ==> r[i] == RepairChar(s[i])
  {
    if s == "" then "" else [RepairChar(s[0])] + RepairAll(s[1..])
  }

  predicate HasDigit(s: string) { exists i :: 0 <= i < |s| && IsDigit(s[i]) }

  function Repair(raw: string): string {
    if HasDigit(raw) && NumericBody(Without(RepairAll(raw), ' ')) then RepairAll(raw) else raw
  }

  /** `parse_money` on text that is already normalised and stripped. */
  function ParseMoney(cleaned: string, defaultCurrency: string, yen: string): Outcome {
    if !HasDigit(cleaned) then NotAnAmount else
      var caption := DetectLabel(LABELS, Fold(cleaned));
      var detected := DetectCurrency(Markers(yen), Fold(cleaned));
      var currency := if detected.Some? then detected.value else defaultCurrency;
      if currency !in PLACES then UnknownCurrency else
        var signed := SplitSign(Residual(cleaned, caption, yen));
        var repaired := Repair(signed.body);
        var body := Without(repaired, ' ');
        if !NumericBody(body) then NotAnAmount else
          Read(Candidate(AmountOf(body, currency), signed.sign, caption, repaired != signed.body, detected.None?))
  }

  function AmountOf(body: string, currency: string): Option<Money>
    requires NumericBody(body) && currency in PLACES
  {
    var value := Interpret(body, PLACES[currency]);
    if value.None? then None else
      var minor := FromDecimal(value.value, PLACES[currency]);
      if minor.None? then None else Some(Money(minor.value, currency))
  }

  function Magnitude(amount: int): nat { if amount < 0 then -amount else amount }

  /** `Money.format(symbol=False)`. */
  function Format(m: Money): string
    requires m.currency in PLACES
  {
    (if m.minor < 0 then "-" else "")
    + PrintedBody(Shown(Magnitude(m.minor), LIMIT), PLACES[m.currency]) + " " + m.currency
  }

  // ---- Characters no marker and no label begins with ----

  predicate Quiet(c: char) { IsDigit(c) || c == '.' || c == ',' || c == ' ' || IsSign(c) }

  predicate AllQuiet(s: string) { forall i :: 0 <= i < |s| ==> Quiet(s[i]) }

  predicate Lower(c: char) { 'a' <= c <= 'z' }

  lemma FoldQuiet(c: char)
    requires Quiet(c)
    ensures FoldChar(c) == c
  {}

  lemma {:induction false} ContainsSkipsQuiet(m: string, quiet: string, t: string)
    requires m != "" && !Quiet(m[0]) && AllQuiet(quiet)
    ensures Contains(m, Fold(quiet + t)) <==> Contains(m, Fold(t))
  {
    if quiet == "" {
      assert quiet + t == t;
    } else {
      assert quiet + t == [quiet[0]] + (quiet[1..] + t);
      FoldQuiet(quiet[0]);
      assert Fold(quiet + t)[1..] == Fold(quiet[1..] + t);
      ContainsSkipsQuiet(m, quiet[1..], t);
    }
  }

  ghost predicate LoudPatterns(patterns: seq<string>) {
    forall i :: 0 <= i < |patterns| ==> patterns[i] != "" && !Quiet(patterns[i][0])
  }

  lemma DifferentHead(p: string, t: string)
    requires p != "" && t != "" && p[0] != t[0]
    ensures !(p <= t)
  {}

  lemma {:induction false} NoPrefixAtQuiet(patterns: seq<string>, t: string)
    requires LoudPatterns(patterns) && t != "" && Quiet(t[0])
    ensures FirstPrefix(patterns, t) == 0
  {
    if patterns != [] {
      DifferentHead(patterns[0], t);
      NoPrefixAtQuiet(patterns[1..], t);
    }
  }

  lemma BlankStep(patterns: seq<string>, text: string)
    requires LoudPatterns(patterns) && text != "" && Quiet(text[0])
    ensures Blank(patterns, text) == [text[0]] + Blank(patterns, text[1..])
  {
    FoldQuiet(text[0]);
    assert Fold(text)[0] == text[0];
    NoPrefixAtQuiet(patterns, Fold(text));
  }

  lemma HeadAndTail(s: string, t: string)
    requires s != ""
    ensures [s[0]] + (s[1..] + t) == s + t
  {}

  lemma {:induction false} BlankKeepsQuiet(patterns: seq<string>, quiet: string, t: string)
    requires LoudPatterns(patterns) && AllQuiet(quiet)
    ensures Blank(patterns, quiet + t) == quiet + Blank(patterns, t)
  {
    if quiet == "" {
      assert quiet + t == t;
    } else {
      BlankKeepsQuiet(patterns, quiet[1..], t);
      assert (quiet + t)[1..] == quiet[1..] + t && (quiet + t)[0] == quiet[0];
      BlankStep(patterns, quiet + t);
      HeadAndTail(quiet, Blank(patterns, t));
    }
  }

  // ---- The currency code at the end ----

  predicate Upper(c: char) { 'A' <= c <= 'Z' }

  predicate Upper3(s: string) { |s| == 3 && Upper(s[0]) && Upper(s[1]) && Upper(s[2]) }

  lemma FoldOfCode(code: string)
    requires Upper3(code)
    ensures Fold(code) == [FoldChar(code[0]), FoldChar(code[1]), FoldChar(code[2])]
    ensures forall i :: 0 <= i < 3 ==> Lower(Fold(code)[i])
  {
  }

  lemma FoldInjective(a: string, b: string)
    requires Upper3(a) && Upper3(b) && Fold(a) == Fold(b)
    ensures a == b
  {
    FoldOfCode(a);
    FoldOfCode(b);
    assert FoldChar(a[0]) == FoldChar(b[0]) && FoldChar(a[1]) == FoldChar(b[1]) && FoldChar(a[2]) == FoldChar(b[2]);
    assert a == [a[0], a[1], a[2]] && b == [b[0], b[1], b[2]];
  }

  /** A pattern is the lower-case code of its currency, or ends in something that is no lower-case letter. */
  predicate Recognisable(m: Marker) {
    && m.text != "" && !Quiet(m.text[0])
    && ((Upper3(m.code) && m.text == Fold(m.code)) || !Lower(m.text[|m.text| - 1]))
  }

  lemma {:induction false} ContainedLast(m: string, t: string)
    requires m != "" && Contains(m, t)
    ensures |m| <= |t| && m[|m| - 1] in t && (|m| == |t| ==> m == t)
  {
    if m <= t {
      assert t[|m| - 1] == m[|m| - 1];
    } else {
      ContainedLast(m, t[1..]);
    }
  }

  lemma OnlyOwnMarker(m: Marker, code: string)
    requires Recognisable(m) && Upper3(code) && Contains(m.text, Fold(code))
    ensures m.code == code && m.text == Fold(code)
  {
    FoldOfCode(code);
    ContainedLast(m.text, Fold(code));
    FoldInjective(m.code, code);
  }

  lemma {:induction false} DetectsCode(markers: seq<Marker>, code: string)
    requires AllRecognisable(markers)
    requires Upper3(code) && exists i :: 0 <= i < |markers| && markers[i].text == Fold(code)
    ensures DetectCurrency(markers, Fold(code)) == Some(code)
    ensures FirstPrefix(MarkerTexts(markers), Fold(code)) == 3
  {
    if Contains(markers[0].text, Fold(code)) {
      OnlyOwnMarker(markers[0], code);
    } else {
      assert MarkerTexts(markers)[1..] == MarkerTexts(markers[1..]);
      var i :| 0 <= i < |markers| && markers[i].text == Fold(code);
      assert i > 0 && markers[1..][i - 1].text == Fold(code);
      DetectsCode(markers[1..], code);
    }
  }

  /** The text in front of the code does not disturb detection. */
  lemma {:induction false} DetectSkipsQuiet(markers: seq<Marker>, quiet: string, t: string)
    requires AllRecognisable(markers)
    requires AllQuiet(quiet)
    ensures DetectCurrency(markers, Fold(quiet + t)) == DetectCurrency(markers, Fold(t))
  {
    if markers != [] {
      ContainsSkipsQuiet(markers[0].text, quiet, t);
      DetectSkipsQuiet(markers[1..], quiet, t);
    }
  }

  predicate SilentLabel(l: string) {
    l != "" && !Quiet(l[0]) && (|l| > 3 || !Lower(l[|l| - 1]))
  }

  lemma {:induction false} NoLabelInPrinted(labels: seq<string>, quiet: string, code: string)
    requires forall i :: 0 <= i < |labels| ==> SilentLabel(labels[i])
    requires AllQuiet(quiet) && Upper3(code)
    ensures DetectLabel(labels, Fold(quiet + code)) == None
  {
    if labels != [] {
      ContainsSkipsQuiet(labels[0], quiet, code);
      FoldOfCode(code);
      if Contains(labels[0], Fold(code)) {
        ContainedLast(labels[0], Fold(code));
        assert false;
      }
      NoLabelInPrinted(labels[1..], quiet, code);
    }
  }

  lemma LabelsAreSilent()
    ensures forall i :: 0 <= i < |LABELS| ==> SilentLabel(LABELS[i])
  {}

  lemma CodesAreUpper(code: string)
    requires code in PLACES
    ensures Upper3(code)
  {}

  lemma CodeIsRecognisable(code: string)
    requires Upper3(code)
    ensures Recognisable(CodeMarker(code))
  {
    FoldOfCode(code);
  }

  lemma SymbolIsRecognisable(m: Marker)
    requires m.text != "" && !Quiet(m.text[0]) && !Lower(m.text[|m.text| - 1])
    ensures Recognisable(m)
  {}

  ghost predicate AllRecognisable(markers: seq<Marker>) {
    forall i :: 0 <= i < |markers| ==> Recognisable(markers[i])
  }

  ghost predicate CodeOrSymbol(m: Marker) {
    (Upper3(m.code) && m == CodeMarker(m.code))
    || (m.text != "" && !Quiet(m.text[0]) && !Lower(m.text[|m.text| - 1]))
  }

  lemma ThreeLettersAreFine()
    ensures forall i :: 0 <= i < |ThreeLetters()| ==> CodeOrSymbol(ThreeLetters()[i])
  {}

  lemma ShortMarkersAreFine(yen: string)
    ensures forall i :: 0 <= i < |TwoLetters()| ==> CodeOrSymbol(TwoLetters()[i])
    ensures forall i :: 0 <= i < |OneLetter(yen)| ==> CodeOrSymbol(OneLetter(yen)[i])
  {}

  lemma Joined<T>(a: seq<T>, b: seq<T>, c: seq<T>, i: nat)
    requires i < |a + b + c|
    ensures (a + b + c)[i] in a || (a + b + c)[i] in b || (a + b + c)[i] in c
  {}

  lemma MarkersAreRecognisable(yen: string)
    ensures AllRecognisable(Markers(yen))
  {
    ThreeLettersAreFine();
    ShortMarkersAreFine(yen);
    forall i | 0 <= i < |Markers(yen)| ensures Recognisable(Markers(yen)[i]) {
      Joined(ThreeLetters(), TwoLetters(), OneLetter(yen), i);
      var m := Markers(yen)[i];
      if Upper3(m.code) && m == CodeMarker(m.code) {
        CodeIsRecognisable(m.code);
      } else {
        SymbolIsRecognisable(m);
      }
    }
  }

  function CodeIndex(code: string): (i: nat)
    requires code in PLACES
    ensures i < |ThreeLetters()| && ThreeLetters()[i] == CodeMarker(code)
  {
    if code == "AUD" then 0
    else if code == "CAD" then 1
    else if code == "CHF" then 2
    else if code == "CNY" then 3
    else if code == "EUR" then 4
    else if code == "GBP" then 5
    else if code == "HKD" then 7
    else if code == "JPY" then 8
    else if code == "KRW" then 9
    else if code == "SGD" then 11
    else if code == "THB" then 12
    else if code == "TWD" then 13
    else if code == "USD" then 14
    else 15
  }

  lemma EveryCodeHasMarker(code: string, yen: string)
    requires code in PLACES
    ensures exists i :: 0 <= i < |Markers(yen)| && Markers(yen)[i].text == Fold(code)
  {
    var i := CodeIndex(code);
    assert Markers(yen)[i] == ThreeLetters()[i];
  }

  // ---- The whole round trip ----

  lemma StripKeeps(s: string)
    requires s != "" && s[0] != ' ' && s[|s| - 1] != ' '
    ensures Strip(s) == s && Strip(s + "  ") == s
  {
    assert StripLeft(s + "  ") == s + "  ";
    StripOneRight(s + " ");
    StripOneRight(s);
    assert (s + " ") + " " == s + "  ";
  }

  lemma StripOneRight(s: string)
    ensures StripRight(s + " ") == StripRight(s)
  {
    assert (s + " ")[..|s|] == s;
  }

  lemma NothingToRepair(s: string)
    requires NumericBody(s)
    ensures RepairAll(s) == s
  {
    forall i | 0 <= i < |s| ensures RepairAll(s)[i] == s[i] {
      assert IsDigit(s[i]) || IsSeparator(s[i]);
    }
  }

  lemma {:induction false} WithoutAbsent(s: string, c: char)
    requires c !in s
    ensures Without(s, c) == s
  {
    if s != "" {
      WithoutAbsent(s[..|s| - 1], c);
      assert s == s[..|s| - 1] + [s[|s| - 1]];
    }
  }

  lemma PatternsAreLoud(markers: seq<Marker>)
    requires AllRecognisable(markers)
    ensures LoudPatterns(MarkerTexts(markers))
  {
    forall i | 0 <= i < |markers| ensures MarkerTexts(markers)[i] != "" && !Quiet(MarkerTexts(markers)[i][0]) {
      assert Recognisable(markers[i]);
    }
  }

  /** The currency code is replaced by a blank. */
  lemma CodeIsBlanked(code: string, yen: string)
    requires code in PLACES
    ensures Blank(MarkerTexts(Markers(yen)), code) == " "
  {
    var patterns := MarkerTexts(Markers(yen));
    CodesAreUpper(code);
    MarkersAreRecognisable(yen);
    EveryCodeHasMarker(code, yen);
    DetectsCode(Markers(yen), code);
    assert code[3..] == "" && Blank(patterns, code[3..]) == "";
  }

  /** The markers and the sign come off a printed amount and leave its digits. */
  lemma PrintedResidual(front: string, code: string, yen: string)
    requires front != "" && AllQuiet(front) && front[0] != ' ' && front[|front| - 1] != ' ' && code in PLACES
    ensures Residual(front + " " + code, None, yen) == front
  {
    MarkersAreRecognisable(yen);
    PatternsAreLoud(Markers(yen));
    BlankKeepsQuiet(MarkerTexts(Markers(yen)), front + " ", code);
    CodeIsBlanked(code, yen);
    assert front + " " + " " == front + "  ";
    StripKeeps(front);
  }

  lemma PrintedDetection(front: string, code: string, yen: string)
    requires AllQuiet(front) && code in PLACES
    ensures var folded := Fold(front + " " + code);
      DetectCurrency(Markers(yen), folded) == Some(code) && DetectLabel(LABELS, folded) == None
  {
    var quiet := front + " ";
    CodesAreUpper(code);
    MarkersAreRecognisable(yen);
    EveryCodeHasMarker(code, yen);
    DetectSkipsQuiet(Markers(yen), quiet, code);
    DetectsCode(Markers(yen), code);
    LabelsAreSilent();
    NoLabelInPrinted(LABELS, quiet, code);
  }

  lemma NoBlankInBody(body: string)
    requires NumericBody(body)
    ensures ' ' !in body && AllQuiet(body)
  {
    forall i | 0 <= i < |body| ensures body[i] != ' ' && Quiet(body[i]) {
      assert IsDigit(body[i]) || IsSeparator(body[i]);
    }
  }

  lemma BodyIsNotRepaired(body: string)
    requires NumericBody(body)
    ensures Repair(body) == body && Without(body, ' ') == body
  {
    NoBlankInBody(body);
    NothingToRepair(body);
    WithoutAbsent(body, ' ');
  }

  lemma SignComesOff(sign: string, body: string)
    requires sign == "" || sign == "-"
    requires NumericBody(body)
    ensures SplitSign(sign + body) == Signed(sign, body)
    ensures AllQuiet(sign + body) && (sign + body)[0] != ' ' && (sign + body)[|sign + body| - 1] != ' '
  {
    NoBlankInBody(body);
    StripKeeps(body);
    if sign == "-" {
      assert (sign + body)[0] == '-' && (sign + body)[1..] == body;
    } else {
      assert sign + body == body && !IsSign(body[0]);
    }
  }

  lemma PrintedTextReads(sign: string, body: string, code: string, defaultCurrency: string, yen: string)
    requires sign == "" || sign == "-"
    requires NumericBody(body) && code in PLACES
    ensures ParseMoney(sign + body + " " + code, defaultCurrency, yen)
         == Read(Candidate(AmountOf(body, code), sign, None, false, false))
  {
    var text := sign + body + " " + code;
    assert text[|sign|] == body[0];
    assert HasDigit(text);
    SignComesOff(sign, body);
    BodyIsNotRepaired(body);
    PrintedDetection(sign + body, code, yen);
    PrintedResidual(sign + body, code, yen);
  }

  lemma PrintedAmount(n: nat, code: string)
    requires code in PLACES
    ensures NumericBody(PrintedBody(n, PLACES[code]))
    ensures AmountOf(PrintedBody(n, PLACES[code]), code)
         == if n < LIMIT then Some(Money(n, code)) else None
  {
    PlacesAreNotThree(code);
    PrintedIsReadBack(n, PLACES[code]);
    StoredAsPrinted(n, PLACES[code]);
  }

  lemma StoredAsPrinted(n: nat, places: nat)
    ensures FromDecimal(Decimal(n, places), places) == if n < LIMIT then Some(n) else None
  {
    assert Pow10(places - places) == 1;
  }

  lemma PlacesAreNotThree(code: string)
    requires code in PLACES
    ensures PLACES[code] != 3
  {}

  /** Printing then parsing gives back the currency and the signed amount for every integer below 10^28 minor
      units, and only for those: beyond the decimal context's 28 digits the candidate is ambiguous, never
      another amount. */
  lemma PrintThenParse(m: Money, defaultCurrency: string, yen: string)
    requires m.currency in PLACES
    ensures ParseMoney(Format(m), defaultCurrency, yen).Read?
    ensures var c := ParseMoney(Format(m), defaultCurrency, yen).candidate;
      if Magnitude(m.minor) < LIMIT
      then c.money == Some(Money(Magnitude(m.minor), m.currency)) && c.SignedMinor() == Some(m.minor)
      else c.money == None
  {
    var shown := Shown(Magnitude(m.minor), LIMIT);
    ShownKeepsSize(Magnitude(m.minor), LIMIT, LIMIT / 10);
    PrintedAmount(shown, m.currency);
    PrintedTextReads(if m.minor < 0 then "-" else "", PrintedBody(shown, PLACES[m.currency]), m.currency,
                     defaultCurrency, yen);
  }
}

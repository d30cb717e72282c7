/** Amounts with any currency marker behind them, in any case, and any of the sign glyphs a screen prints. */
module MoneyMarkers {
  import opened Common
  import opened Values
  import opened Separators
  import opened Amounts
  import opened MoneyText

  // ---- The longest marker wins ----

  /** No marker before i is shorter than it or has its text. */
  ghost predicate LongestFirst(markers: seq<Marker>, i: nat)
    requires i < |markers|
  {
    && markers[i].text != ""
    && forall j :: 0 <= j < i ==>
         |markers[j].text| >= |markers[i].text| && markers[j].text != markers[i].text && markers[j].text != ""
  }

  lemma {:induction false} PrefixIsContained(m: string, t: string)
    requires m <= t
    ensures Contains(m, t)
  {}

  /** A marker's own text names its currency, whatever shorter markers it contains, and is one match. */
  lemma {:induction false} OwnTextDetected(markers: seq<Marker>, i: nat)
    requires i < |markers| && LongestFirst(markers, i)
    ensures DetectCurrency(markers, markers[i].text) == Some(markers[i].code)
    ensures FirstPrefix(MarkerTexts(markers), markers[i].text) == |markers[i].text|
  {
    var t := markers[i].text;
    if i > 0 {
      assert MarkerTexts(markers)[1..] == MarkerTexts(markers[1..]);
      if Contains(markers[0].text, t) {
        ContainedLast(markers[0].text, t);
        assert false;
      }
      OwnTextDetected(markers[1..], i - 1);
    }
  }

  lemma LengthsFall(yen: string)
    ensures |ThreeLetters()| == 16 && |TwoLetters()| == 4 && |OneLetter(yen)| == 10 && |Markers(yen)| == 30
    ensures forall i :: 0 <= i < 16 ==> |ThreeLetters()[i].text| == 3
    ensures forall i :: 0 <= i < 4 ==> |TwoLetters()[i].text| == 2
    ensures forall i :: 0 <= i < 10 ==> |OneLetter(yen)[i].text| == 1
  {}

  /** The table is sorted by length. */
  lemma TableFalls(yen: string, j: nat, i: nat)
    requires j < i < |Markers(yen)|
    ensures |Markers(yen)[j].text| >= |Markers(yen)[i].text| > 0
  {
    LengthsFall(yen);
    TableEntry(yen, i);
    TableEntry(yen, j);
  }

  lemma TableEntry(yen: string, i: nat)
    requires i < 30
    ensures |Markers(yen)| == 30 && |ThreeLetters()| == 16 && |TwoLetters()| == 4 && |OneLetter(yen)| == 10
    ensures Markers(yen)[i] == if i < 16 then ThreeLetters()[i]
                               else if i < 20 then TwoLetters()[i - 16] else OneLetter(yen)[i - 20]
  {
    LengthsFall(yen);
  }

  predicate FirstWithText(yen: string, i: nat) {
    i < |Markers(yen)| && forall j :: 0 <= j < i ==> Markers(yen)[j].text != Markers(yen)[i].text
  }

  lemma FirstIsLongest(yen: string, i: nat)
    requires FirstWithText(yen, i)
    ensures LongestFirst(Markers(yen), i)
  {
    LengthsFall(yen);
    TableEntry(yen, i);
    forall j | 0 <= j < i
      ensures |Markers(yen)[j].text| >= |Markers(yen)[i].text| > 0
    {
      TableFalls(yen, j, i);
    }
  }

  // ---- No label hides in a marker ----

  predicate MarkerChar(c: char) { Lower(c) || c in "$£¥฿₩₫€엔원달러" }

  lemma MarkersAreMarkerChars(yen: string, i: nat)
    requires i < 30
    ensures |Markers(yen)| == 30 && |Markers(yen)[i].text| <= 3
    ensures forall k :: 0 <= k < |Markers(yen)[i].text| ==> MarkerChar(Markers(yen)[i].text[k])
  {
    TableEntry(yen, i);
    LengthsFall(yen);
    if i < 16 {
      ThreeLetterChars(i);
    }
  }

  lemma ThreeLetterChars(i: nat)
    requires i < 16
    ensures |ThreeLetters()| == 16 && |ThreeLetters()[i].text| == 3
    ensures forall k :: 0 <= k < 3 ==> MarkerChar(ThreeLetters()[i].text[k])
  {
    LengthsFall("JPY");
    ThreeLettersAreFine();
    var m := ThreeLetters()[i];
    if Upper3(m.code) && m == CodeMarker(m.code) {
      FoldOfCode(m.code);
    }
  }

  predicate NoMarkerLabel(l: string) { l != "" && !Quiet(l[0]) && (|l| > 3 || !MarkerChar(l[|l| - 1])) }

  lemma LabelsAreNoMarkers()
    ensures forall i :: 0 <= i < |LABELS| ==> NoMarkerLabel(LABELS[i])
  {}

  lemma {:induction false} NoLabelBesideMarker(labels: seq<string>, quiet: string, printed: string)
    requires forall i :: 0 <= i < |labels| ==> NoMarkerLabel(labels[i])
    requires AllQuiet(quiet) && |printed| <= 3 && forall k :: 0 <= k < |printed| ==> MarkerChar(Fold(printed)[k])
    ensures DetectLabel(labels, Fold(quiet + printed)) == None
  {
    if labels != [] {
      ContainsSkipsQuiet(labels[0], quiet, printed);
      if Contains(labels[0], Fold(printed)) {
        ContainedLast(labels[0], Fold(printed));
        assert false;
      }
      NoLabelBesideMarker(labels[1..], quiet, printed);
    }
  }

  // ---- Signs ----

  predicate SignGlyph(sign: string) { sign == "" || (|sign| == 1 && IsSign(sign[0])) }

  /** What a glyph says: plus, minus for the hyphen, the minus sign and both dashes, or nothing. */
  function SignOf(sign: string): string {
    if sign == "" then "" else if sign[0] == '+' then "+" else "-"
  }

  lemma GlyphComesOff(sign: string, body: string)
    requires SignGlyph(sign) && NumericBody(body)
    ensures SplitSign(sign + body) == Signed(SignOf(sign), body)
    ensures AllQuiet(sign + body) && (sign + body)[0] != ' ' && (sign + body)[|sign + body| - 1] != ' '
  {
    NoBlankInBody(body);
    StripKeeps(body);
    if sign != "" {
      assert (sign + body)[0] == sign[0] && (sign + body)[1..] == body;
    } else {
      assert sign + body == body && !IsSign(body[0]);
    }
  }

  // ---- A marker behind the amount ----

  predicate Gap(gap: string) { gap == "" || gap == " " }

  lemma StripTail(s: string, gap: string)
    requires s != "" && s[0] != ' ' && s[|s| - 1] != ' ' && Gap(gap)
    ensures Strip(s + gap + " ") == s
  {
    StripKeeps(s);
    if gap == "" {
      assert s + gap + " " == s + " ";
      StripOneRight(s);
    } else {
      assert s + gap + " " == s + "  ";
    }
  }

  lemma MarkerIsBlanked(yen: string, i: nat, printed: string)
    requires FirstWithText(yen, i) && Fold(printed) == Markers(yen)[i].text
    ensures Blank(MarkerTexts(Markers(yen)), printed) == " "
  {
    var patterns := MarkerTexts(Markers(yen));
    FirstIsLongest(yen, i);
    OwnTextDetected(Markers(yen), i);
    assert |Fold(printed)| == |printed|;
    assert printed[|printed|..] == "" && Blank(patterns, "") == "";
  }

  lemma MarkedResidual(front: string, gap: string, yen: string, i: nat, printed: string)
    requires front != "" && AllQuiet(front) && front[0] != ' ' && front[|front| - 1] != ' ' && Gap(gap)
    requires FirstWithText(yen, i) && Fold(printed) == Markers(yen)[i].text
    ensures Residual(front + gap + printed, None, yen) == front
  {
    MarkersAreRecognisable(yen);
    PatternsAreLoud(Markers(yen));
    BlankKeepsQuiet(MarkerTexts(Markers(yen)), front + gap, printed);
    MarkerIsBlanked(yen, i, printed);
    StripTail(front, gap);
  }

  lemma MarkedDetection(front: string, yen: string, i: nat, printed: string)
    requires AllQuiet(front) && FirstWithText(yen, i) && Fold(printed) == Markers(yen)[i].text
    ensures var folded := Fold(front + printed);
      DetectCurrency(Markers(yen), folded) == Some(Markers(yen)[i].code) && DetectLabel(LABELS, folded) == None
  {
    LengthsFall(yen);
    MarkersAreRecognisable(yen);
    DetectSkipsQuiet(Markers(yen), front, printed);
    FirstIsLongest(yen, i);
    OwnTextDetected(Markers(yen), i);
    LabelsAreNoMarkers();
    MarkersAreMarkerChars(yen, i);
    assert |Fold(printed)| == |printed|;
    NoLabelBesideMarker(LABELS, front, printed);
  }

  lemma MarkerCodes(yen: string, i: nat)
    requires i < 30 && (yen == "JPY" || yen == "CNY")
    ensures |Markers(yen)| == 30 && Markers(yen)[i].code in PLACES
  {
    TableEntry(yen, i);
  }

  lemma ReadsAs(text: string, front: string, sign: string, body: string, code: string, defaultCurrency: string,
                yen: string)
    requires HasDigit(text) && DetectLabel(LABELS, Fold(text)) == None && code in PLACES
    requires DetectCurrency(Markers(yen), Fold(text)) == Some(code) && Residual(text, None, yen) == front
    requires NumericBody(body) && SplitSign(front) == Signed(sign, body)
    ensures ParseMoney(text, defaultCurrency, yen) == Read(Candidate(AmountOf(body, code), sign, None, false, false))
  {
    BodyIsNotRepaired(body);
  }

  lemma FrontIsQuiet(sign: string, body: string, gap: string)
    requires SignGlyph(sign) && NumericBody(body) && Gap(gap)
    ensures AllQuiet(sign + body + gap) && HasDigit(sign + body + gap)
  {
    GlyphComesOff(sign, body);
    assert (sign + body + gap)[|sign|] == body[0];
  }

  lemma DigitStays(front: string, rest: string)
    requires HasDigit(front)
    ensures HasDigit(front + rest)
  {
    var i :| 0 <= i < |front| && IsDigit(front[i]);
    assert (front + rest)[i] == front[i];
  }

  /** Any sign glyph, any body of digits and separators, and any marker of the table behind it, in any case, with a
      blank or without: the marker decides the currency, the glyph the sign, the body the amount. */
  lemma MarkedTextReads(sign: string, body: string, gap: string, yen: string, i: nat, printed: string,
                        defaultCurrency: string)
    requires SignGlyph(sign) && NumericBody(body) && Gap(gap) && (yen == "JPY" || yen == "CNY")
    requires FirstWithText(yen, i) && Fold(printed) == Markers(yen)[i].text
    ensures Markers(yen)[i].code in PLACES
    ensures ParseMoney(sign + body + gap + printed, defaultCurrency, yen)
         == Read(Candidate(AmountOf(body, Markers(yen)[i].code), SignOf(sign), None, false, false))
  {
    LengthsFall(yen);
    MarkerCodes(yen, i);
    FrontIsQuiet(sign, body, gap);
    DigitStays(sign + body + gap, printed);
    GlyphComesOff(sign, body);
    MarkedDetection(sign + body + gap, yen, i, printed);
    MarkedResidual(sign + body, gap, yen, i, printed);
    ReadsAs(sign + body + gap + printed, sign + body, SignOf(sign), body, Markers(yen)[i].code, defaultCurrency, yen);
  }

  // ---- What the symbols and local words stand for ----

  /** Every way to name a currency other than its code, but for the yen sign. */
  const SYMBOLS: map<string, string> := map[
    "$" := "USD", "달러" := "USD", "a$" := "AUD", "c$" := "CAD", "s$" := "SGD", "hk$" := "HKD", "nt$" := "TWD",
    "£" := "GBP", "€" := "EUR", "₩" := "KRW", "원" := "KRW", "엔" := "JPY", "฿" := "THB", "₫" := "VND"
  ]

  function SymbolPlace(text: string): (i: nat)
    requires text in SYMBOLS
    ensures i < 30
  {
    if text == "hk$" then 6 else if text == "nt$" then 10
    else if text == "a$" then 16 else if text == "c$" then 17
    else if text == "s$" then 18 else if text == "달러" then 19
    else if text == "$" then 20 else if text == "£" then 21 else if text == "฿" then 24 else if text == "₩" then 25
    else if text == "₫" then 26 else if text == "€" then 27 else if text == "엔" then 28 else 29
  }

  lemma LongSymbolEntry(text: string)
    requires text in SYMBOLS && SymbolPlace(text) < 20
    ensures |ThreeLetters()| == 16 && |TwoLetters()| == 4
    ensures var i := SymbolPlace(text);
      (if i < 16 then ThreeLetters()[i] else TwoLetters()[i - 16]) == Marker(text, SYMBOLS[text])
  {}

  lemma ShortSymbolEntry(text: string, yen: string)
    requires text in SYMBOLS && SymbolPlace(text) >= 20
    ensures |OneLetter(yen)| == 10 && OneLetter(yen)[SymbolPlace(text) - 20] == Marker(text, SYMBOLS[text])
  {}

  lemma SymbolEntry(text: string, yen: string)
    requires text in SYMBOLS
    ensures |Markers(yen)| == 30 && Markers(yen)[SymbolPlace(text)] == Marker(text, SYMBOLS[text])
  {
    TableEntry(yen, SymbolPlace(text));
    if SymbolPlace(text) < 20 { LongSymbolEntry(text); } else { ShortSymbolEntry(text, yen); }
  }

  lemma OneLettersDiffer(yen: string, j: nat, i: nat)
    requires j < i < 10 && i != 3
    ensures |OneLetter(yen)| == 10 && OneLetter(yen)[j].text[0] != OneLetter(yen)[i].text[0]
  {}

  lemma TwoLettersDiffer(j: nat, i: nat)
    requires j < i < 4
    ensures |TwoLetters()| == 4 && TwoLetters()[j].text[0] != TwoLetters()[i].text[0]
  {}

  lemma DollarsDiffer(j: nat, i: nat)
    requires j < i && (i == 6 || i == 10)
    ensures |ThreeLetters()| == 16 && ThreeLetters()[j].text != ThreeLetters()[i].text
  {
    ThreeLetterShape(i);
    ThreeLetterShape(j);
  }

  /** Dollars with a country in front are the only three-letter symbols. */
  lemma ThreeLetterShape(j: nat)
    requires j < 16
    ensures |ThreeLetters()| == 16 && |ThreeLetters()[j].text| == 3
    ensures j == 6 || j == 10 <==> ThreeLetters()[j].text[2] == '$'
    ensures (j == 6 ==> ThreeLetters()[j].text[0] == 'h') && (j == 10 ==> ThreeLetters()[j].text[0] == 'n')
  {}

  lemma SymbolIsFirst(text: string, yen: string)
    requires text in SYMBOLS
    ensures FirstWithText(yen, SymbolPlace(text))
  {
    var i := SymbolPlace(text);
    LengthsFall(yen);
    TableEntry(yen, i);
    forall j | 0 <= j < i ensures Markers(yen)[j].text != Markers(yen)[i].text {
      TableEntry(yen, j);
      if i < 16 { DollarsDiffer(j, i); }
      else if 16 <= j && i < 20 { TwoLettersDiffer(j - 16, i - 16); }
      else if 20 <= j { OneLettersDiffer(yen, j - 20, i - 20); }
    }
  }

  /** An amount with a symbol or a local word behind it is an amount in that currency. */
  lemma SymbolReads(sign: string, body: string, gap: string, yen: string, text: string, printed: string,
                    defaultCurrency: string)
    requires SignGlyph(sign) && NumericBody(body) && Gap(gap) && (yen == "JPY" || yen == "CNY")
    requires text in SYMBOLS && Fold(printed) == text
    ensures ParseMoney(sign + body + gap + printed, defaultCurrency, yen)
         == Read(Candidate(AmountOf(body, SYMBOLS[text]), SignOf(sign), None, false, false))
  {
    SymbolEntry(text, yen);
    SymbolIsFirst(text, yen);
    MarkedTextReads(sign, body, gap, yen, SymbolPlace(text), printed, defaultCurrency);
  }

  /** Grouped digits are a whole amount wherever the currency has no decimals. */
  lemma GroupedIsWhole(body: string, code: string)
    requires NumericBody(body) && MatchesGrouped(body, ',') && ',' in body && '.' !in body
    requires code in PLACES && PLACES[code] == 0 && Number(body) < LIMIT
    ensures AmountOf(body, code) == Some(Money(Number(body), code))
  {
    WithoutKeepsNumber(body, ',');
    assert !AllDigits(body);
    assert Interpret(body, 0) == Some(Decimal(Number(body), 0));
    assert Pow10(0) == 1;
  }

  lemma FiveThousandIsGrouped()
    ensures NumericBody("5,000") && MatchesGrouped("5,000", ',')
  {
    assert EveryFourth("5,000", ',');
    GroupedByPosition("5,000", ',');
  }

  lemma NumberOfFiveThousand()
    ensures Number("5,000") == 5000
  {
    NumberAppend("5,00", '0');
    NumberAppend("5,0", '0');
    NumberAppend("5,", '0');
    NumberAppend("5", ',');
    NumberAppend("", '5');
    assert "5,00" + "0" == "5,000" && "5,0" + "0" == "5,00" && "5," + "0" == "5,0";
    assert "5" + "," == "5," && "" + "5" == "5";
  }

  lemma FiveThousand()
    ensures NumericBody("5,000") && AmountOf("5,000", "KRW") == Some(Money(5000, "KRW"))
  {
    FiveThousandIsGrouped();
    NumberOfFiveThousand();
    GroupedIsWhole("5,000", "KRW");
  }
  lemma FiveThousandReads(sign: string, defaultCurrency: string)
    requires SignGlyph(sign)
    ensures ParseMoney(sign + "5,000" + "" + "원", defaultCurrency, "JPY")
         == Read(Candidate(Some(Money(5000, "KRW")), SignOf(sign), None, false, false))
  {
    FiveThousand();
    assert Fold("원") == "원";
    SymbolReads(sign, "5,000", "", "JPY", "원", "원", defaultCurrency);
  }

  /** The local word for the won, and a minus that is not a hyphen. */
  lemma FiveThousandWon(defaultCurrency: string)
    ensures ParseMoney("5,000원", defaultCurrency, "JPY")
         == Read(Candidate(Some(Money(5000, "KRW")), "", None, false, false))
    ensures ParseMoney("−5,000원", defaultCurrency, "JPY")
         == Read(Candidate(Some(Money(5000, "KRW")), "-", None, false, false))
  {
    assert "5,000원" == "" + "5,000" + "" + "원" && "−5,000원" == "−" + "5,000" + "" + "원";
    FiveThousandReads("", defaultCurrency);
    FiveThousandReads("−", defaultCurrency);
  }

  // ---- A symbol in front of the amount ----

  predicate Loud(m: string) { m != "" && forall i :: 0 <= i < |m| ==> !Quiet(m[i]) }

  lemma {:induction false} NothingInQuiet(m: string, quiet: string)
    requires Loud(m) && AllQuiet(quiet)
    ensures !Contains(m, quiet)
  {
    if quiet != "" {
      DifferentHead(m, quiet);
      NothingInQuiet(m, quiet[1..]);
    }
  }

  lemma PrefixBeforeQuiet(m: string, t: string, quiet: string)
    requires Loud(m) && AllQuiet(quiet)
    ensures m <= t + quiet <==> m <= t
  {
    if |t| < |m| <= |t + quiet| {
      assert (t + quiet)[|t|] == quiet[0] && m[|t|] != quiet[0];
      assert !(m <= t + quiet);
    }
  }

  lemma {:induction false} ContainsBeforeQuiet(m: string, t: string, quiet: string)
    requires Loud(m) && AllQuiet(quiet)
    ensures Contains(m, t + quiet) <==> Contains(m, t)
  {
    if t == "" {
      assert t + quiet == quiet;
      NothingInQuiet(m, quiet);
    } else {
      PrefixBeforeQuiet(m, t, quiet);
      ContainsBeforeQuiet(m, t[1..], quiet);
      assert (t + quiet)[1..] == t[1..] + quiet;
    }
  }

  ghost predicate AllLoud(markers: seq<Marker>) { forall i :: 0 <= i < |markers| ==> Loud(markers[i].text) }

  lemma {:induction false} DetectBeforeQuiet(markers: seq<Marker>, t: string, quiet: string)
    requires AllLoud(markers) && AllQuiet(quiet)
    ensures DetectCurrency(markers, t + quiet) == DetectCurrency(markers, t)
    ensures FirstPrefix(MarkerTexts(markers), t + quiet) == FirstPrefix(MarkerTexts(markers), t)
  {
    if markers != [] {
      ContainsBeforeQuiet(markers[0].text, t, quiet);
      PrefixBeforeQuiet(markers[0].text, t, quiet);
      DetectBeforeQuiet(markers[1..], t, quiet);
    }
  }

  lemma {:induction false} LabelBeforeQuiet(labels: seq<string>, t: string, quiet: string)
    requires (forall i :: 0 <= i < |labels| ==> Loud(labels[i])) && AllQuiet(quiet)
    ensures DetectLabel(labels, t + quiet) == DetectLabel(labels, t)
  {
    if labels != [] {
      ContainsBeforeQuiet(labels[0], t, quiet);
      LabelBeforeQuiet(labels[1..], t, quiet);
    }
  }

  lemma LabelsAreLoud()
    ensures forall i :: 0 <= i < |LABELS| ==> Loud(LABELS[i])
  {}

  lemma MarkersAreLoud(yen: string)
    ensures AllLoud(Markers(yen))
  {
    LengthsFall(yen);
    forall i | 0 <= i < |Markers(yen)| ensures Loud(Markers(yen)[i].text) {
      MarkersAreMarkerChars(yen, i);
      TableFalls(yen, 0, if i == 0 then 1 else i);
    }
  }

  lemma FoldsApart(front: string, quiet: string)
    requires AllQuiet(quiet)
    ensures Fold(front + quiet) == Fold(front) + quiet
  {
    forall i | 0 <= i < |quiet| ensures FoldChar(quiet[i]) == quiet[i] { FoldQuiet(quiet[i]); }
  }

  lemma LeadingDetection(sign: string, yen: string, i: nat, printed: string, quiet: string)
    requires SignGlyph(sign) && AllQuiet(quiet) && FirstWithText(yen, i) && Fold(printed) == Markers(yen)[i].text
    ensures var folded := Fold(sign + printed + quiet);
      DetectCurrency(Markers(yen), folded) == Some(Markers(yen)[i].code) && DetectLabel(LABELS, folded) == None
  {
    MarkedDetection(sign, yen, i, printed);
    FoldsApart(sign + printed, quiet);
    MarkersAreLoud(yen);
    LabelsAreLoud();
    DetectBeforeQuiet(Markers(yen), Fold(sign + printed), quiet);
    LabelBeforeQuiet(LABELS, Fold(sign + printed), quiet);
  }

  lemma LeadingIsBlanked(yen: string, i: nat, printed: string, quiet: string)
    requires AllQuiet(quiet) && FirstWithText(yen, i) && Fold(printed) == Markers(yen)[i].text
    ensures Blank(MarkerTexts(Markers(yen)), printed + quiet) == " " + quiet
  {
    var patterns := MarkerTexts(Markers(yen));
    FirstIsLongest(yen, i);
    OwnTextDetected(Markers(yen), i);
    MarkersAreLoud(yen);
    FoldsApart(printed, quiet);
    DetectBeforeQuiet(Markers(yen), Fold(printed), quiet);
    assert |Fold(printed)| == |printed| && (printed + quiet)[|printed|..] == quiet;
    MarkersAreRecognisable(yen);
    PatternsAreLoud(Markers(yen));
    BlankKeepsQuiet(patterns, quiet, "");
    assert quiet + "" == quiet && Blank(patterns, "") == "";
  }

  lemma StripLead(gap: string, body: string)
    requires Gap(gap) && NumericBody(body)
    ensures Strip(" " + (gap + body)) == body
  {
    NoBlankInBody(body);
    StripKeeps(body);
    assert (" " + (gap + body))[1..] == gap + body;
    assert StripLeft(gap + body) == body by {
      assert if gap == "" then gap + body == body else (gap + body)[1..] == body;
      assert StripLeft(body) == body;
    }
    assert StripLeft(" " + (gap + body)) == body;
  }

  /** What is left of an amount whose marker stood in front. */
  function AfterMarker(sign: string, quiet: string, body: string): string {
    if sign == "" then body else sign + (" " + quiet)
  }

  lemma StripAfterMarker(sign: string, gap: string, body: string)
    requires SignGlyph(sign) && Gap(gap) && NumericBody(body)
    ensures Strip(sign + (" " + (gap + body))) == AfterMarker(sign, gap + body, body)
    ensures SplitSign(AfterMarker(sign, gap + body, body)) == Signed(SignOf(sign), body)
  {
    NoBlankInBody(body);
    StripLead(gap, body);
    var t := sign + (" " + (gap + body));
    if sign == "" {
      assert t == " " + (gap + body);
      assert AfterMarker(sign, gap + body, body) == body && !IsSign(body[0]);
    } else {
      assert AfterMarker(sign, gap + body, body) == t;
      assert t[0] == sign[0] && IsSign(t[0]);
      assert t[|t| - 1] == body[|body| - 1] && t[1..] == " " + (gap + body);
      StripKeeps(t);
    }
  }

  lemma BlankAfterSign(sign: string, yen: string, i: nat, printed: string, quiet: string)
    requires SignGlyph(sign) && AllQuiet(quiet) && FirstWithText(yen, i) && Fold(printed) == Markers(yen)[i].text
    ensures Blank(MarkerTexts(Markers(yen)), sign + printed + quiet) == sign + (" " + quiet)
  {
    MarkersAreRecognisable(yen);
    PatternsAreLoud(Markers(yen));
    assert sign + printed + quiet == sign + (printed + quiet);
    BlankKeepsQuiet(MarkerTexts(Markers(yen)), sign, printed + quiet);
    LeadingIsBlanked(yen, i, printed, quiet);
  }

  lemma LeadingResidual(sign: string, gap: string, body: string, yen: string, i: nat, printed: string)
    requires SignGlyph(sign) && NumericBody(body) && Gap(gap)
    requires FirstWithText(yen, i) && Fold(printed) == Markers(yen)[i].text
    ensures Residual(sign + printed + (gap + body), None, yen) == AfterMarker(sign, gap + body, body)
  {
    NoBlankInBody(body);
    BlankAfterSign(sign, yen, i, printed, gap + body);
    StripAfterMarker(sign, gap, body);
  }

  /** A marker in front of the digits, with or without a blank and a sign, says the same as one behind them. */
  lemma LeadingMarkerReads(sign: string, printed: string, gap: string, body: string, yen: string, i: nat,
                           defaultCurrency: string)
    requires SignGlyph(sign) && NumericBody(body) && Gap(gap) && (yen == "JPY" || yen == "CNY")
    requires FirstWithText(yen, i) && Fold(printed) == Markers(yen)[i].text
    ensures Markers(yen)[i].code in PLACES
    ensures ParseMoney(sign + printed + (gap + body), defaultCurrency, yen)
         == Read(Candidate(AmountOf(body, Markers(yen)[i].code), SignOf(sign), None, false, false))
  {
    var text := sign + printed + (gap + body);
    LengthsFall(yen);
    MarkerCodes(yen, i);
    FrontIsQuiet("", body, gap);
    NoBlankInBody(body);
    assert text[|sign| + |printed| + |gap|] == body[0];
    LeadingDetection(sign, yen, i, printed, gap + body);
    LeadingResidual(sign, gap, body, yen, i, printed);
    StripAfterMarker(sign, gap, body);
    ReadsAs(text, AfterMarker(sign, gap + body, body), SignOf(sign), body, Markers(yen)[i].code, defaultCurrency, yen);
  }

  /** An amount with a symbol or a local word in front of it is an amount in that currency. */
  lemma LeadingSymbolReads(sign: string, text: string, printed: string, gap: string, body: string, yen: string,
                           defaultCurrency: string)
    requires SignGlyph(sign) && NumericBody(body) && Gap(gap) && (yen == "JPY" || yen == "CNY")
    requires text in SYMBOLS && Fold(printed) == text
    ensures ParseMoney(sign + printed + (gap + body), defaultCurrency, yen)
         == Read(Candidate(AmountOf(body, SYMBOLS[text]), SignOf(sign), None, false, false))
  {
    SymbolEntry(text, yen);
    SymbolIsFirst(text, yen);
    LeadingMarkerReads(sign, printed, gap, body, yen, SymbolPlace(text), defaultCurrency);
  }

  // ---- Digits misread as letters ----

  /** The letters the engines read for a digit. */
  predicate Misread(read: char, digit: char) {
    match digit
    case '0' => read in "OoDQ"
    case '1' => read in "lI|"
    case '2' => read == 'Z'
    case '5' => read in "Ss"
    case '6' => read == 'b'
    case '8' => read == 'B'
    case '9' => read == 'g'
    case _ => false
  }

  predicate ReadFor(text: string, body: string) {
    |text| == |body| && forall i :: 0 <= i < |body| ==> ReadAs(text[i], body[i])
  }

  predicate ReadAs(read: char, c: char) { read == c || Misread(read, c) }

  lemma RepairOne(read: char, c: char)
    requires (IsDigit(c) || IsSeparator(c)) && ReadAs(read, c)
    ensures RepairChar(read) == c && !IsSign(read)
  {}

  lemma {:induction false} RepairEach(text: string, body: string)
    requires ReadFor(text, body) && forall i :: 0 <= i < |body| ==> IsDigit(body[i]) || IsSeparator(body[i])
    ensures RepairAll(text) == body
  {
    if text != "" {
      RepairOne(text[0], body[0]);
      assert forall i :: 0 <= i < |body| - 1 ==> text[1..][i] == text[i + 1] && body[1..][i] == body[i + 1];
      RepairEach(text[1..], body[1..]);
      assert body == [body[0]] + body[1..];
    }
  }

  lemma RepairRestores(text: string, body: string)
    requires NumericBody(body) && ReadFor(text, body) && HasDigit(text)
    ensures Repair(text) == body && Without(body, ' ') == body && !IsSign(text[0])
  {
    BodyIsNotRepaired(body);
    RepairOne(text[0], body[0]);
    RepairEach(text, body);
  }

  /** Letters read for digits are repaired, and the candidate says so: the amount is the one that was printed. */
  lemma MisreadDigitsAreRepaired(text: string, body: string, defaultCurrency: string, yen: string)
    requires NumericBody(body) && ReadFor(text, body) && HasDigit(text) && defaultCurrency in PLACES
    requires DetectLabel(LABELS, Fold(text)) == None && DetectCurrency(Markers(yen), Fold(text)) == None
    requires Residual(text, None, yen) == text
    ensures ParseMoney(text, defaultCurrency, yen)
         == Read(Candidate(AmountOf(body, defaultCurrency), "", None, text != body, true))
  {
    RepairRestores(text, body);
    assert SplitSign(text) == Signed("", text);
  }
}

/** What each piece of context does to a date without a year, and what the relative words mean. */
module DateAnswers {
  import opened Common
  import opened Calendar
  import opened Dates

  function MidMonth(statement: Date): Date { Date(statement.year, statement.month, 15) }

  /** A statement month comes before anything else: the answer is the date nearest to its 15th, over the whole
      calendar, whatever the other rows say. */
  lemma StatementDecides(month: int, day: int, c: Context)
    requires Usable(c) && c.statement.Some? && InferYear(month, day, c).value.Some?
    ensures var r := InferYear(month, day, c);
      GloballyNearest(Anchor(MidMonth(c.statement.value), StatementMonthYear, true), c.today, r.value.value)
      && r.inference == Some(StatementMonthYear)
    ensures forall rows :: Usable(c.(surrounding := rows)) ==>
      InferYear(month, day, c.(surrounding := rows)) == InferYear(month, day, c)
  {
    InferenceIsOptimal(month, day, c);
    assert AnchorOf(c) == Anchor(MidMonth(c.statement.value), StatementMonthYear, true);
    forall rows | Usable(c.(surrounding := rows))
      ensures InferYear(month, day, c.(surrounding := rows)) == InferYear(month, day, c)
    {
      SameAnchorSameYear(month, day, c.(surrounding := rows), c);
    }
  }

  /** Without a statement month the other rows come before the upload: nearest to their median. */
  lemma RowsDecide(month: int, day: int, c: Context)
    requires Usable(c) && c.statement.None? && c.surrounding != [] && InferYear(month, day, c).value.Some?
    ensures NearestToMedian(Ordinals(c.surrounding), c.today, InferYear(month, day, c).value.value)
    ensures InferYear(month, day, c).inference == Some(SurroundingRowYear)
  {
    RowsAnchorIsMedian(month, day, c);
  }

  /** With nothing but the upload: the latest such date not after tomorrow, named after its year. */
  lemma UploadDecides(month: int, day: int, c: Context)
    requires Usable(c) && c.statement.None? && c.surrounding == [] && InferYear(month, day, c).value.Some?
    ensures var r := InferYear(month, day, c);
      LatestAllowed(c.today, r.value.value)
      && r.inference == Some(if r.value.value.year == c.today.year then UploadYear else UploadPreviousYear)
  {
    InferenceIsOptimal(month, day, c);
  }

  predicate NewYearsEve(d: Date) { d.month == 12 && d.day == 31 }

  /** Tomorrow is in another year on 31 December only. */
  lemma TomorrowsYear(today: Date, d: Date)
    requires IsDate(today) && IsDate(d) && d.year == today.year + 1
    ensures Ordinal(d) <= Ordinal(today) + 1 <==> NewYearsEve(today) && d.month == 1 && d.day == 1
  {
    var y := today.year;
    InsideYear(today);
    YearStep(y);
    BeforeMonthGrows(y, today.month, 12);
    MonthsOfYear(y);
    BeforeMonthGrows(y + 1, 1, d.month);
    assert DaysInMonth(y, 12) == 31 && BeforeMonth(y, 13) == BeforeMonth(y, 12) + 31;
    assert DaysInMonth(y + 1, 1) == 31;
  }

  /** The label "previous year" is right except for 1 January read on 31 December: that is next year's. */
  lemma PreviousYearIsPreviousIff(month: int, day: int, c: Context)
    requires Usable(c) && InferYear(month, day, c).inference == Some(UploadPreviousYear)
    ensures var chosen := InferYear(month, day, c).value.value;
      (chosen.year == c.today.year - 1 <==> !(NewYearsEve(c.today) && month == 1 && day == 1))
      && (NewYearsEve(c.today) && month == 1 && day == 1 ==> chosen == Date(c.today.year + 1, 1, 1))
  {
    var chosen := InferYear(month, day, c).value.value;
    InferenceIsOptimal(month, day, c);
    CandidateShape(AnchorOf(c), c.today, month, day, chosen);
    if chosen.year == c.today.year + 1 {
      TomorrowsYear(c.today, chosen);
    } else if NewYearsEve(c.today) && month == 1 && day == 1 {
      NotLastYear(c.today, chosen);
    }
  }

  lemma NotLastYear(today: Date, chosen: Date)
    requires IsDate(today) && NewYearsEve(today) && LatestAllowed(today, chosen)
    requires IsDate(chosen) && chosen.month == 1 && chosen.day == 1
    ensures chosen.year != today.year - 1
  {
    var sameYear := Date(today.year, chosen.month, chosen.day);
    BeforeMonthGrows(today.year, 1, 12);
    assert IsDate(sameYear) && Ordinal(sameYear) <= Ordinal(today);
    if chosen.year < today.year {
      LaterYearIsLater(chosen, sameYear);
    }
  }

  // ---- The year a statement month gives ----

  lemma FarAcrossYears(d: Date, anchor: Date)
    requires IsDate(d) && IsDate(anchor) && d.month == anchor.month && anchor.day == 15
    requires d.year != anchor.year
    ensures Distance(d, anchor) >= 349
  {
    var same := Date(d.year, d.month, 15);
    assert Ordinal(d) - Ordinal(same) == d.day - 15;
    if d.year < anchor.year {
      SameDayYearsApart(same, anchor);
    } else {
      SameDayYearsApart(anchor, same);
    }
  }

  /** A day of the statement's own month gets the statement's year. */
  lemma StatementMonthKeepsItsYear(day: int, c: Context)
    requires Usable(c) && c.statement.Some?
    requires IsDate(Date(c.statement.value.year, c.statement.value.month, day))
    ensures var s := c.statement.value;
      InferYear(s.month, day, c).value == Some(Date(s.year, s.month, day))
  {
    var anchor := MidMonth(c.statement.value);
    var month := anchor.month;
    var own := Date(anchor.year, month, day);
    var candidates := Candidates(AnchorOf(c), c.today, month, day);
    CandidateListed(AnchorOf(c), c.today, anchor.year, month, day);
    NearestIsMinimal(anchor, candidates, own);
    var chosen := Nearest(anchor, candidates);
    CandidateShape(AnchorOf(c), c.today, month, day, chosen);
    assert Distance(own, anchor) <= 16;
    if chosen.year != anchor.year {
      FarAcrossYears(chosen, anchor);
    }
  }

  // ---- Relative words ----

  function DayBefore(d: Date): Date {
    if d.day > 1 then d.(day := d.day - 1)
    else if d.month > 1 then Date(d.year, d.month - 1, DaysInMonth(d.year, d.month - 1))
    else Date(d.year - 1, 12, 31)
  }

  lemma DayBeforeIsOneLess(d: Date)
    requires IsDate(d) && InRange(Ordinal(d) - 1)
    ensures IsDate(DayBefore(d)) && Ordinal(DayBefore(d)) == Ordinal(d) - 1
  {
    if d.day == 1 && d.month == 1 {
      assert BeforeYear(1) == 0;
      MonthsOfYear(d.year - 1);
      YearStep(d.year - 1);
      assert BeforeMonth(d.year - 1, 13) == BeforeMonth(d.year - 1, 12) + 31;
    }
  }

  /** "today" and "yesterday" are the day of the upload and the calendar day before it, on every screen. */
  lemma RelativeWords(tokens: seq<Token>, c: Context, i: nat)
    requires Usable(c) && i < |tokens|
    ensures tokens[i] == Today ==> ResolveRowDates(tokens, c)[i] == Resolved(Some(c.today), Some(RelativeToday))
    ensures tokens[i] == Yesterday ==>
      ResolveRowDates(tokens, c)[i] == Resolved(Some(DayBefore(c.today)), Some(RelativeYesterday))
  {
    SecondPassIsEnriched(tokens, c, i);
    DayBeforeIsOneLess(c.today);
    FromOrdinalOfOrdinal(DayBefore(c.today));
  }

  /** A full date is itself if it is a date and nothing otherwise, on every screen. */
  lemma FullDatesStand(tokens: seq<Token>, c: Context, i: nat, y: int, m: int, d: int)
    requires Usable(c) && i < |tokens| && tokens[i] == FullDate(y, m, d)
    ensures ResolveRowDates(tokens, c)[i]
         == if IsDate(Date(y, m, d)) then Resolved(Some(Date(y, m, d)), Some(Explicit)) else UNRESOLVED
  {
    SecondPassIsEnriched(tokens, c, i);
  }

  /** 10 July beside a statement of January 2026 is July 2026: nearer to the 15th, though farther from the 1st. */
  lemma MidMonthMatters(today: Date, rows: seq<Date>)
    requires Usable(Context(today, Some(Date(2026, 1, 1)), rows))
    ensures InferYear(7, 10, Context(today, Some(Date(2026, 1, 1)), rows)).value == Some(Date(2026, 7, 10))
    ensures Distance(Date(2025, 7, 10), Date(2026, 1, 1)) < Distance(Date(2026, 7, 10), Date(2026, 1, 1))
  {
    var c := Context(today, Some(Date(2026, 1, 1)), rows);
    var a := AnchorOf(c);
    YearStep(2025);
    BeforeJuly(2025);
    BeforeJuly(2026);
    CandidateListed(a, today, 2026, 7, 10);
    var candidates := Candidates(a, today, 7, 10);
    var chosen := Nearest(a.date, candidates);
    NearestIsMinimal(a.date, candidates, Date(2026, 7, 10));
    CandidateShape(a, today, 7, 10, chosen);
    if chosen.year == 2027 {
      SameDayYearsApart(Date(2026, 7, 10), chosen);
    }
  }

  lemma BeforeJuly(y: int)
    ensures BeforeMonth(y, 7) == if Leap(y) then 182 else 181
  {
    MonthsOfYear(y);
    assert BeforeMonth(y, 5) == BeforeMonth(y, 3) + 61;
    assert BeforeMonth(y, 7) == BeforeMonth(y, 5) + 61;
  }
}

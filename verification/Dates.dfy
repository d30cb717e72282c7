/** Filling in the year of a partial date (apps/parsing/dates.py). */
module Dates {
  import opened Common
  import opened Calendar
  import opened Sorting

  datatype Inference =
    | Explicit | RelativeToday | RelativeYesterday
    | StatementMonthYear | SurroundingRowYear | UploadYear | UploadPreviousYear

  datatype Resolved = Resolved(value: Option<Date>, inference: Option<Inference>)

  const UNRESOLVED := Resolved(None, None)

  /** `today` is the upload moment seen as a date in the user's time zone. */
  datatype Context = Context(today: Date, statement: Option<Date>, surrounding: seq<Date>)

  /** Real dates, with yesterday and tomorrow still inside the calendar. */
  predicate Usable(c: Context) {
    && IsDate(c.today) && InRange(Ordinal(c.today) - 1) && InRange(Ordinal(c.today) + 1)
    && (c.statement.Some? ==> IsDate(c.statement.value))
    && (forall i :: 0 <= i < |c.surrounding| ==> IsDate(c.surrounding[i]))
  }

  function Ordinals(dates: seq<Date>): seq<int> {
    Images(dates, Ordinal)
  }

  /** `int(median(...))`: the middle value, or the truncated mean of the two middle values. */
  function MedianOrdinal(values: seq<int>): int
    requires values != []
  {
    SortPermutes(values, AtMost);
    var s := Sort(values, AtMost);
    var h := |s| / 2;
    if |s| % 2 == 1 then s[h] else (s[h - 1] + s[h]) / 2
  }

  lemma MedianInRange(values: seq<int>)
    requires values != [] && forall i :: 0 <= i < |values| ==> InRange(values[i])
    ensures InRange(MedianOrdinal(values))
  {
    var s := Sort(values, AtMost);
    SortPermutes(values, AtMost);
    forall i | 0 <= i < |s| ensures InRange(s[i]) {
      assert s[i] in multiset(values);
    }
  }

  lemma OrdinalInRange(d: Date)
    requires IsDate(d)
    ensures InRange(Ordinal(d))
  {
    FromOrdinalOfOrdinal(d);
  }

  lemma OrdinalsInRange(dates: seq<Date>)
    requires forall i :: 0 <= i < |dates| ==> IsDate(dates[i])
    ensures forall i :: 0 <= i < |dates| ==> InRange(Ordinals(dates)[i])
  {
    forall i | 0 <= i < |dates| ensures InRange(Ordinals(dates)[i]) {
      OrdinalInRange(dates[i]);
    }
  }

  datatype Anchor = Anchor(date: Date, inference: Inference, allowFuture: bool)

  function AnchorOf(c: Context): (a: Anchor)
    requires Usable(c)
    ensures IsDate(a.date)
    ensures !a.allowFuture <==> a.date == c.today && a.inference == UploadYear
  {
    if c.statement.Some? then Anchor(c.statement.value.(day := 15), StatementMonthYear, true)
    else if c.surrounding != [] then
      OrdinalsInRange(c.surrounding);
      MedianInRange(Ordinals(c.surrounding));
      Anchor(FromOrdinal(MedianOrdinal(Ordinals(c.surrounding))), SurroundingRowYear, true)
    else Anchor(c.today, UploadYear, false)
  }

  function Distance(a: Date, b: Date): int {
    Gap(Ordinal(a), Ordinal(b))
  }

  /** Whether a candidate may be proposed: a real date, and not after tomorrow when only the upload is known. */
  predicate Proposable(a: Anchor, today: Date, d: Date) {
    IsDate(d) && (a.allowFuture || Ordinal(d) <= Ordinal(today) + 1)
  }

  function Candidates(a: Anchor, today: Date, month: int, day: int): seq<Date> {
    Candidate(a, today, a.date.year - 1, month, day)
    + Candidate(a, today, a.date.year, month, day)
    + Candidate(a, today, a.date.year + 1, month, day)
  }

  function Candidate(a: Anchor, today: Date, year: int, month: int, day: int): seq<Date> {
    if Proposable(a, today, Date(year, month, day)) then [Date(year, month, day)] else []
  }

  /** The minimum by (distance to the anchor, date). */
  function Nearest(anchor: Date, candidates: seq<Date>): (best: Date)
    requires candidates != []
    ensures best in candidates
  {
    if |candidates| == 1 then candidates[0] else
      var best := Nearest(anchor, candidates[..|candidates| - 1]);
      var d := candidates[|candidates| - 1];
      if Distance(d, anchor) < Distance(best, anchor)
        || (Distance(d, anchor) == Distance(best, anchor) && Ordinal(d) < Ordinal(best)) then d else best
  }

  function InferYear(month: int, day: int, c: Context): Resolved
    requires Usable(c)
  {
    var a := AnchorOf(c);
    var candidates := Candidates(a, c.today, month, day);
    if candidates == [] then UNRESOLVED else
      var chosen := Nearest(a.date, candidates);
      var previous := a.inference == UploadYear && chosen.year != a.date.year;
      Resolved(Some(chosen), Some(if previous then UploadPreviousYear else a.inference))
  }

  // ---- Three years are enough ----

  /** No proposable date with this month and day beats the chosen one, over every year of the calendar:
      nearer to the anchor first, the earlier of two equally near. */
  ghost predicate GloballyNearest(a: Anchor, today: Date, chosen: Date) {
    forall year: int {:trigger Date(year, chosen.month, chosen.day)} ::
      var d := Date(year, chosen.month, chosen.day);
      Proposable(a, today, d) ==>
        Distance(chosen, a.date) < Distance(d, a.date)
        || (Distance(chosen, a.date) == Distance(d, a.date) && Ordinal(chosen) <= Ordinal(d))
  }

  lemma {:induction false} NearestIsMinimal(anchor: Date, candidates: seq<Date>, d: Date)
    requires d in candidates
    ensures var best := Nearest(anchor, candidates);
      Distance(best, anchor) < Distance(d, anchor)
      || (Distance(best, anchor) == Distance(d, anchor) && Ordinal(best) <= Ordinal(d))
  {
    if |candidates| > 1 {
      var n := |candidates| - 1;
      if d in candidates[..n] {
        NearestIsMinimal(anchor, candidates[..n], d);
      }
    }
  }

  /** A year's 29 February, and how far 29 Februaries of different years are from each other. */
  lemma LeapDay(y: int)
    ensures Ordinal(Date(y, 2, 29)) == BeforeYear(y) + 60
  {
    assert BeforeMonth(y, 2) == 31;
  }

  lemma LeapYearsAreFourApart(y: int, z: int)
    requires Leap(y) && Leap(z) && y < z
    ensures y + 4 <= z
  {}

  /** A date outside the three years is farther from the anchor than a date inside them. */
  lemma OutsideIsFarther(anchor: Date, inside: Date, outside: Date)
    requires IsDate(anchor) && IsDate(inside) && IsDate(outside)
    requires inside.month == outside.month && inside.day == outside.day
    requires anchor.year - 1 <= inside.year <= anchor.year + 1
    requires outside.year < anchor.year - 1 || outside.year > anchor.year + 1
    requires (outside.year < anchor.year - 1 && inside.year == anchor.year - 1)
      || (outside.year > anchor.year + 1 && inside.year == anchor.year + 1)
      || (inside.month == 2 && inside.day == 29)
    ensures Distance(inside, anchor) < Distance(outside, anchor)
  {
    InsideYear(anchor);
    if outside.year < inside.year == anchor.year - 1 {
      LaterYearIsLater(outside, inside);
      LaterYearIsLater(inside, anchor);
    } else if outside.year > inside.year == anchor.year + 1 {
      LaterYearIsLater(inside, outside);
      LaterYearIsLater(anchor, inside);
    } else {
      LeapDay(inside.year);
      LeapDay(outside.year);
      if outside.year < inside.year {
        LeapYearsAreFourApart(outside.year, inside.year);
        YearsSpan(outside.year, inside.year - 4 - outside.year);
        YearsSpan(inside.year - 4, anchor.year - inside.year + 4);
        YearsSpan(anchor.year, 1);
        YearsSpan(anchor.year - 1, 1);
        YearsSpan(anchor.year, if inside.year >= anchor.year then inside.year - anchor.year else 0);
      } else {
        LeapYearsAreFourApart(inside.year, outside.year);
        YearsSpan(inside.year + 4, outside.year - inside.year - 4);
        YearsSpan(anchor.year + 1, inside.year + 4 - anchor.year - 1);
        YearsSpan(anchor.year, 1);
        YearsSpan(anchor.year - 1, 1);
        YearsSpan(inside.year, if inside.year <= anchor.year then anchor.year + 1 - inside.year else 0);
      }
    }
  }

  lemma CandidateListed(a: Anchor, today: Date, year: int, month: int, day: int)
    requires a.date.year - 1 <= year <= a.date.year + 1
    requires Proposable(a, today, Date(year, month, day))
    ensures Date(year, month, day) in Candidates(a, today, month, day)
  {}

  lemma CandidateShape(a: Anchor, today: Date, month: int, day: int, d: Date)
    requires d in Candidates(a, today, month, day)
    ensures d.month == month && d.day == day && a.date.year - 1 <= d.year <= a.date.year + 1
    ensures Proposable(a, today, d)
  {}

  /** With a date that may lie in the future: the three years hold the nearest date of the whole calendar. */
  lemma NearestIsGlobal(a: Anchor, today: Date, month: int, day: int)
    requires IsDate(a.date) && a.allowFuture && Candidates(a, today, month, day) != []
    ensures GloballyNearest(a, today, Nearest(a.date, Candidates(a, today, month, day)))
  {
    var candidates := Candidates(a, today, month, day);
    var chosen := Nearest(a.date, candidates);
    CandidateShape(a, today, month, day, chosen);
    forall year: int | Proposable(a, today, Date(year, month, day))
      ensures var d := Date(year, month, day);
        Distance(chosen, a.date) < Distance(d, a.date)
        || (Distance(chosen, a.date) == Distance(d, a.date) && Ordinal(chosen) <= Ordinal(d))
    {
      var d := Date(year, month, day);
      if a.date.year - 1 <= year <= a.date.year + 1 {
        CandidateListed(a, today, year, month, day);
        NearestIsMinimal(a.date, candidates, d);
      } else {
        var edge := if year < a.date.year then a.date.year - 1 else a.date.year + 1;
        var inside := if month == 2 && day == 29 then chosen else Date(edge, month, day);
        OutsideIsFarther(a.date, inside, d);
        CandidateListed(a, today, inside.year, month, day);
        NearestIsMinimal(a.date, candidates, inside);
      }
    }
  }

  /** With only the upload known: the chosen date is the latest one not after tomorrow. */
  ghost predicate LatestAllowed(today: Date, chosen: Date) {
    && Ordinal(chosen) <= Ordinal(today) + 1
    && forall year: int {:trigger Date(year, chosen.month, chosen.day)} ::
         var d := Date(year, chosen.month, chosen.day);
         IsDate(d) && Ordinal(d) <= Ordinal(today) + 1 ==> Ordinal(d) <= Ordinal(chosen)
  }

  lemma NotTwoYearsAhead(today: Date, d: Date)
    requires IsDate(today) && IsDate(d) && Ordinal(d) <= Ordinal(today) + 1
    ensures d.year <= today.year + 1
  {
    InsideYear(today);
    InsideYear(d);
    YearsSpan(today.year + 1, 1);
    YearsSpan(today.year + 2, if d.year >= today.year + 2 then d.year - today.year - 2 else 0);
  }

  lemma UploadPicksLatest(a: Anchor, today: Date, month: int, day: int)
    requires IsDate(today) && a.date == today && !a.allowFuture && Candidates(a, today, month, day) != []
    ensures LatestAllowed(today, Nearest(today, Candidates(a, today, month, day)))
  {
    var candidates := Candidates(a, today, month, day);
    var chosen := Nearest(today, candidates);
    CandidateShape(a, today, month, day, chosen);
    forall year: int | IsDate(Date(year, month, day)) && Ordinal(Date(year, month, day)) <= Ordinal(today) + 1
      ensures Ordinal(Date(year, month, day)) <= Ordinal(chosen)
    {
      var d := Date(year, month, day);
      NotTwoYearsAhead(today, d);
      if year < chosen.year {
        LaterYearIsLater(d, chosen);
      } else {
        CandidateListed(a, today, year, month, day);
        NearestIsMinimal(today, candidates, d);
        if year > chosen.year {
          SameDayYearsApart(chosen, d);
        }
      }
    }
  }

  lemma SameDayYearsApart(a: Date, b: Date)
    requires IsDate(a) && IsDate(b) && a.month == b.month && a.day == b.day && a.year < b.year
    ensures Ordinal(b) - Ordinal(a) >= 365
  {
    YearsSpan(a.year, b.year - a.year);
    SameMonthOffset(a.year, b.year, a.month);
    if a.month > 2 {
      YearStep(a.year);
      YearsSpan(a.year + 1, b.year - a.year - 1);
    }
  }

  lemma {:induction false} SameMonthOffset(y: int, z: int, m: int)
    requires m >= 1
    ensures BeforeMonth(z, m) - BeforeMonth(y, m) == if m <= 2 then 0 else YearLength(z) - YearLength(y)
    decreases m
  {
    if m > 1 {
      SameMonthOffset(y, z, m - 1);
    }
  }

  /** Every answer is the best over the whole calendar, 29 February included. */
  lemma InferenceIsOptimal(month: int, day: int, c: Context)
    requires Usable(c) && InferYear(month, day, c).value.Some?
    ensures var a, chosen := AnchorOf(c), InferYear(month, day, c).value.value;
      && chosen.month == month && chosen.day == day && IsDate(chosen)
      && (a.allowFuture ==> GloballyNearest(a, c.today, chosen))
      && (!a.allowFuture ==> LatestAllowed(c.today, chosen))
  {
    var a := AnchorOf(c);
    CandidateShape(a, c.today, month, day, Nearest(a.date, Candidates(a, c.today, month, day)));
    if a.allowFuture {
      NearestIsGlobal(a, c.today, month, day);
    } else {
      UploadPicksLatest(a, c.today, month, day);
    }
  }

  predicate ExistsEveryYear(month: int, day: int) {
    1 <= month <= 12 && 1 <= day <= (if month == 2 then 28 else DaysInMonth(1, month))
  }

  /** Only the three years next to the anchor's are looked at. */
  lemma UnansweredByYears(month: int, day: int, c: Context)
    requires Usable(c)
    ensures var a := AnchorOf(c);
      InferYear(month, day, c).value.None? <==>
        forall year :: a.date.year - 1 <= year <= a.date.year + 1 ==> !Proposable(a, c.today, Date(year, month, day))
  {
    var a := AnchorOf(c);
    var candidates := Candidates(a, c.today, month, day);
    if candidates != [] {
      CandidateShape(a, c.today, month, day, candidates[0]);
      assert Proposable(a, c.today, Date(candidates[0].year, month, day));
    } else {
      forall year | a.date.year - 1 <= year <= a.date.year + 1
        ensures !Proposable(a, c.today, Date(year, month, day))
      {
        if Proposable(a, c.today, Date(year, month, day)) {
          CandidateListed(a, c.today, year, month, day);
        }
      }
    }
  }

  predicate IsLeapDay(month: int, day: int) { month == 2 && day == 29 }

  /** A leap year of the calendar is at most one year away. */
  predicate LeapYearNear(year: int) {
    (year > MIN_YEAR && Leap(year - 1)) || Leap(year) || (year < MAX_YEAR && Leap(year + 1))
  }

  /** Last year's 29 February, or this year's if it is not after tomorrow. */
  predicate LeapDayPassed(today: Date) {
    || (today.year > MIN_YEAR && Leap(today.year - 1))
    || (Leap(today.year) && (today.month > 2 || (today.month == 2 && today.day >= 28)))
  }

  /** The anchor, today, the month and the day decide it. An ordinary day fails in the calendar's first year only. */
  predicate Unanswerable(a: Anchor, today: Date, month: int, day: int) {
    if IsLeapDay(month, day) then !(if a.allowFuture then LeapYearNear(a.date.year) else LeapDayPassed(today))
    else if ExistsEveryYear(month, day) then
      !a.allowFuture && today.year == MIN_YEAR && Ordinal(Date(MIN_YEAR, month, day)) > Ordinal(today) + 1
    else true
  }

  lemma NoSuchDay(month: int, day: int, year: int)
    requires !IsLeapDay(month, day) && !ExistsEveryYear(month, day)
    ensures !IsDate(Date(year, month, day))
  {}

  /** This year's 29 February is not after tomorrow from the 28th on. */
  lemma ThisLeapDay(today: Date)
    requires IsDate(today) && Leap(today.year)
    ensures Ordinal(Date(today.year, 2, 29)) <= Ordinal(today) + 1 <==>
      today.month > 2 || (today.month == 2 && today.day >= 28)
  {
    MonthsOfYear(today.year);
    assert BeforeMonth(today.year, 2) == 31;
    if today.month > 2 {
      BeforeMonthGrows(today.year, 3, today.month);
    }
  }

  lemma NextLeapDay(today: Date)
    requires IsDate(today) && IsDate(Date(today.year + 1, 2, 29))
    ensures Ordinal(Date(today.year + 1, 2, 29)) > Ordinal(today) + 1
  {
    LeapDay(today.year + 1);
    InsideYear(today);
  }

  lemma LeapDayByUpload(a: Anchor, today: Date)
    requires IsDate(today) && a.date == today && !a.allowFuture
    ensures LeapDayPassed(today) <==>
      exists year :: today.year - 1 <= year <= today.year + 1 && Proposable(a, today, Date(year, 2, 29))
  {
    var y := today.year;
    if IsDate(Date(y + 1, 2, 29)) {
      NextLeapDay(today);
    }
    if IsDate(Date(y - 1, 2, 29)) {
      LaterYearIsLater(Date(y - 1, 2, 29), today);
      assert Proposable(a, today, Date(y - 1, 2, 29));
    }
    if Leap(y) {
      ThisLeapDay(today);
      assert LeapDayPassed(today) <==>
        Proposable(a, today, Date(y, 2, 29)) || Proposable(a, today, Date(y - 1, 2, 29));
    }
  }

  lemma LeapDayByRows(a: Anchor, today: Date)
    requires IsDate(a.date) && a.allowFuture
    ensures LeapYearNear(a.date.year) <==>
      exists year :: a.date.year - 1 <= year <= a.date.year + 1 && Proposable(a, today, Date(year, 2, 29))
  {
    var y := a.date.year;
    if y > MIN_YEAR && Leap(y - 1) {
      assert Proposable(a, today, Date(y - 1, 2, 29));
    } else if Leap(y) {
      assert Proposable(a, today, Date(y, 2, 29));
    } else if y < MAX_YEAR && Leap(y + 1) {
      assert Proposable(a, today, Date(y + 1, 2, 29));
    }
  }

  lemma LastYearIsOpen(a: Anchor, today: Date, month: int, day: int)
    requires IsDate(today) && ExistsEveryYear(month, day) && today.year > MIN_YEAR
    ensures Proposable(a, today, Date(today.year - 1, month, day))
  {
    OrdinaryDayIsADate(today.year - 1, month, day);
    LaterYearIsLater(Date(today.year - 1, month, day), today);
  }

  /** In the calendar's first year the next year's day is no help: this year's is earlier. */
  lemma FirstYearDecides(a: Anchor, today: Date, month: int, day: int, year: int)
    requires IsDate(today) && !a.allowFuture && ExistsEveryYear(month, day) && today.year == MIN_YEAR
    requires MIN_YEAR - 1 <= year <= MIN_YEAR + 1
    ensures Proposable(a, today, Date(year, month, day)) ==> Proposable(a, today, Date(MIN_YEAR, month, day))
  {
    OrdinaryDayIsADate(MIN_YEAR, month, day);
    OrdinaryDayIsADate(MIN_YEAR + 1, month, day);
    LaterYearIsLater(Date(MIN_YEAR, month, day), Date(MIN_YEAR + 1, month, day));
  }

  lemma OrdinaryDayByUpload(a: Anchor, today: Date, month: int, day: int)
    requires IsDate(today) && a.date == today && !a.allowFuture && ExistsEveryYear(month, day)
    ensures Unanswerable(a, today, month, day) <==>
      forall year :: today.year - 1 <= year <= today.year + 1 ==> !Proposable(a, today, Date(year, month, day))
  {
    var y := today.year;
    if y > MIN_YEAR {
      LastYearIsOpen(a, today, month, day);
    } else {
      OrdinaryDayIsADate(MIN_YEAR, month, day);
      forall year | y - 1 <= year <= y + 1
        ensures Proposable(a, today, Date(year, month, day)) ==> Proposable(a, today, Date(MIN_YEAR, month, day))
      {
        FirstYearDecides(a, today, month, day, year);
      }
    }
  }

  /** When a month and day go unanswered, for every month, day and context: always for a day that no year has; for
      29 February when no leap year is next to the anchor, or none has its day not after tomorrow; for any other day
      only at the calendar's beginning. */
  lemma UnansweredIff(month: int, day: int, c: Context)
    requires Usable(c)
    ensures InferYear(month, day, c).value.None? <==> Unanswerable(AnchorOf(c), c.today, month, day)
  {
    var a := AnchorOf(c);
    UnansweredByYears(month, day, c);
    if IsLeapDay(month, day) {
      if a.allowFuture { LeapDayByRows(a, c.today); } else { LeapDayByUpload(a, c.today); }
    } else if !ExistsEveryYear(month, day) {
      forall year: int ensures !IsDate(Date(year, month, day)) { NoSuchDay(month, day, year); }
    } else if a.allowFuture {
      OrdinaryDayIsADate(a.date.year, month, day);
      assert Proposable(a, c.today, Date(a.date.year, month, day));
    } else {
      OrdinaryDayByUpload(a, c.today, month, day);
    }
  }

  lemma OrdinaryDayIsADate(year: int, month: int, day: int)
    requires ExistsEveryYear(month, day) && MIN_YEAR <= year <= MAX_YEAR
    ensures IsDate(Date(year, month, day))
  {}

  lemma ClosestOfThree(anchor: int, before: int, same: int, after: int)
    requires before < anchor < after && same - before <= 366 && after - same <= 366
    ensures Gap(before, anchor) <= 183 || Gap(same, anchor) <= 183 || Gap(after, anchor) <= 183
  {}

  /** A statement or row anchor puts an ordinary month and day within 183 days. */
  lemma OrdinaryDayIsClose(a: Anchor, today: Date, month: int, day: int)
    requires IsDate(a.date) && a.allowFuture && ExistsEveryYear(month, day)
    requires MIN_YEAR < a.date.year < MAX_YEAR
    ensures Candidates(a, today, month, day) != []
    ensures Distance(Nearest(a.date, Candidates(a, today, month, day)), a.date) <= 183
  {
    var y := a.date.year;
    var before, same, after := Date(y - 1, month, day), Date(y, month, day), Date(y + 1, month, day);
    OrdinaryDayIsADate(y - 1, month, day);
    OrdinaryDayIsADate(y, month, day);
    OrdinaryDayIsADate(y + 1, month, day);
    LaterYearIsLater(before, a.date);
    LaterYearIsLater(a.date, after);
    SameDayYearsClose(before, same);
    SameDayYearsClose(same, after);
    ClosestOfThree(Ordinal(a.date), Ordinal(before), Ordinal(same), Ordinal(after));
    CandidateListed(a, today, y - 1, month, day);
    CandidateListed(a, today, y, month, day);
    CandidateListed(a, today, y + 1, month, day);
    var candidates := Candidates(a, today, month, day);
    NearestIsMinimal(a.date, candidates, before);
    NearestIsMinimal(a.date, candidates, same);
    NearestIsMinimal(a.date, candidates, after);
  }

  /** Away from the calendar's two ends every ordinary month and day is answered, and a statement or row
      anchor puts it within 183 days. */
  lemma OrdinaryDayIsAnswered(month: int, day: int, c: Context)
    requires Usable(c) && ExistsEveryYear(month, day)
    requires MIN_YEAR < AnchorOf(c).date.year < MAX_YEAR
    ensures InferYear(month, day, c).value.Some?
    ensures AnchorOf(c).allowFuture ==> Distance(InferYear(month, day, c).value.value, AnchorOf(c).date) <= 183
  {
    var a := AnchorOf(c);
    if a.allowFuture {
      OrdinaryDayIsClose(a, c.today, month, day);
    } else {
      var before := Date(a.date.year - 1, month, day);
      OrdinaryDayIsADate(a.date.year - 1, month, day);
      LaterYearIsLater(before, a.date);
      CandidateListed(a, c.today, a.date.year - 1, month, day);
    }
  }

  lemma SameDayYearsClose(a: Date, b: Date)
    requires a.month == b.month && a.day == b.day && b.year == a.year + 1 && a.month >= 1
    ensures Ordinal(b) - Ordinal(a) <= 366
  {
    YearStep(a.year);
    YearStep(b.year);
    SameMonthOffset(a.year, b.year, a.month);
  }

  /** 29 February can go unanswered although it exists: the years around 2026 have none. */
  lemma LeapDayUnanswered()
    ensures var c := Context(Date(2026, 8, 5), Some(Date(2026, 7, 1)), []);
      Usable(c) && InferYear(2, 29, c) == UNRESOLVED && IsDate(Date(2028, 2, 29)) && IsDate(Date(2024, 2, 29))
  {
    var c := Context(Date(2026, 8, 5), Some(Date(2026, 7, 1)), []);
    InsideYear(c.today);
    assert BeforeYear(1) == 0;
    UnansweredIff(2, 29, c);
  }

  // ---- Rows ----

  /** A row's date token after the patterns have been matched. */
  datatype Token = FullDate(year: int, month: int, day: int) | Today | Yesterday | Partial(month: int, day: int) | Other

  function ResolveDate(t: Token, c: Context): Resolved
    requires Usable(c)
  {
    match t
    case Today => Resolved(Some(c.today), Some(RelativeToday))
    case Yesterday => Resolved(Some(FromOrdinal(Ordinal(c.today) - 1)), Some(RelativeYesterday))
    case FullDate(y, m, d) => if Build(y, m, d).Some? then Resolved(Build(y, m, d), Some(Explicit)) else UNRESOLVED
    case Partial(m, d) => InferYear(m, d, c)
    case Other => UNRESOLVED
  }

  function ExplicitDates(tokens: seq<Token>): (dates: seq<Date>)
    ensures forall i :: 0 <= i < |dates| ==> IsDate(dates[i])
  {
    if tokens == [] then [] else
      var t := tokens[|tokens| - 1];
      ExplicitDates(tokens[..|tokens| - 1])
      + if t.FullDate? && Build(t.year, t.month, t.day).Some? then [Date(t.year, t.month, t.day)] else []
  }

  function Enriched(tokens: seq<Token>, c: Context): (e: Context)
    requires Usable(c)
    ensures Usable(e)
  {
    if ExplicitDates(tokens) == [] || c.statement.Some? then c
    else c.(surrounding := c.surrounding + ExplicitDates(tokens))
  }

  /** Rows resolved on their own, then again, except those that state a full date, with the screen's dates. */
  function ResolveRowDates(tokens: seq<Token>, c: Context): seq<Resolved>
    requires Usable(c)
  {
    var first := seq(|tokens|, i requires 0 <= i < |tokens| => ResolveDate(tokens[i], c));
    if ExplicitDates(tokens) == [] || c.statement.Some? then
      first
    else
      seq(|tokens|, i requires 0 <= i < |tokens| => SecondPass(first[i], tokens[i], Enriched(tokens, c)))
  }

  function SecondPass(first: Resolved, t: Token, enriched: Context): Resolved
    requires Usable(enriched)
  {
    if first.inference == Some(Explicit) then first else ResolveDate(t, enriched)
  }

  /** Only a partial date looks further than the upload moment. */
  lemma EnrichingKeeps(t: Token, c: Context, e: Context)
    requires Usable(c) && Usable(e) && e.today == c.today && !t.Partial?
    ensures ResolveDate(t, e) == ResolveDate(t, c)
  {}

  lemma SecondPassIsEnriched(tokens: seq<Token>, c: Context, i: nat)
    requires Usable(c) && i < |tokens|
    ensures ResolveRowDates(tokens, c)[i] == ResolveDate(tokens[i], Enriched(tokens, c))
    ensures !tokens[i].Partial? ==> ResolveRowDates(tokens, c)[i] == ResolveDate(tokens[i], c)
  {
    var first, e := ResolveDate(tokens[i], c), Enriched(tokens, c);
    if !tokens[i].Partial? {
      EnrichingKeeps(tokens[i], c, e);
    } else {
      OnlyFullDatesAreExplicit(tokens[i].month, tokens[i].day, c);
    }
    assert ResolveRowDates(tokens, c)[i] == if e == c then first else SecondPass(first, tokens[i], e);
  }

  lemma OnlyFullDatesAreExplicit(month: int, day: int, c: Context)
    requires Usable(c)
    ensures InferYear(month, day, c).inference != Some(Explicit)
  {}

  /** Nearest, over the whole calendar, to the median of the given dates. */
  ghost predicate NearestToMedian(dates: seq<int>, today: Date, chosen: Date) {
    && dates != []
    && (forall k :: 0 <= k < |dates| ==> InRange(dates[k]))
    && InRange(MedianOrdinal(dates))
    && GloballyNearest(Anchor(FromOrdinal(MedianOrdinal(dates)), SurroundingRowYear, true), today, chosen)
  }

  /** The second pass changes partial rows only, and gives each the date nearest to the median of every
      date the screen states. */
  lemma RowsFollowTheScreen(tokens: seq<Token>, c: Context, i: nat)
    requires Usable(c) && i < |tokens|
    requires tokens[i].Partial? && c.statement.None? && ExplicitDates(tokens) != []
    requires ResolveRowDates(tokens, c)[i].value.Some?
    ensures NearestToMedian(Ordinals(c.surrounding + ExplicitDates(tokens)), c.today,
                            ResolveRowDates(tokens, c)[i].value.value)
  {
    SecondPassIsEnriched(tokens, c, i);
    RowsAnchorIsMedian(tokens[i].month, tokens[i].day, Enriched(tokens, c));
  }

  lemma RowsAnchorIsMedian(month: int, day: int, e: Context)
    requires Usable(e) && e.statement.None? && e.surrounding != [] && InferYear(month, day, e).value.Some?
    ensures NearestToMedian(Ordinals(e.surrounding), e.today, InferYear(month, day, e).value.value)
  {
    OrdinalsInRange(e.surrounding);
    MedianInRange(Ordinals(e.surrounding));
    InferenceIsOptimal(month, day, e);
  }

  lemma {:induction false} ExplicitDatesSplit(a: seq<Token>, b: seq<Token>)
    ensures ExplicitDates(a + b) == ExplicitDates(a) + ExplicitDates(b)
  {
    if b == [] {
      assert a + b == a;
    } else {
      assert (a + b)[..|a| + |b| - 1] == a + b[..|b| - 1];
      ExplicitDatesSplit(a, b[..|b| - 1]);
    }
  }

  lemma {:induction false} ExplicitDatesIgnoreOrder(a: seq<Token>, b: seq<Token>)
    requires multiset(a) == multiset(b)
    ensures multiset(ExplicitDates(a)) == multiset(ExplicitDates(b))
  {
    if a == [] {
      assert |b| == |multiset(b)| == 0;
    } else {
      assert a[0] in multiset(b);
      var i :| 0 <= i < |b| && b[i] == a[0];
      assert a == [a[0]] + a[1..];
      assert b == b[..i] + ([b[i]] + b[i + 1..]);
      assert multiset(a[1..]) == multiset(a) - multiset{a[0]};
      assert multiset(b[..i] + b[i + 1..]) == multiset(b) - multiset{b[i]};
      ExplicitDatesIgnoreOrder(a[1..], b[..i] + b[i + 1..]);
      ExplicitDatesSplit([a[0]], a[1..]);
      ExplicitDatesSplit(b[..i], [b[i]] + b[i + 1..]);
      ExplicitDatesSplit([b[i]], b[i + 1..]);
      ExplicitDatesSplit(b[..i], b[i + 1..]);
    }
  }

  /** The enriched context's dates, in any order, have one median. */
  lemma MedianIgnoresOrder(a: seq<Date>, b: seq<Date>)
    requires multiset(a) == multiset(b) && a != [] && b != []
    ensures MedianOrdinal(Ordinals(a)) == MedianOrdinal(Ordinals(b))
  {
    ImagesIgnoreOrder(a, b, Ordinal);
    assert TotalPreorder(AtMost);
    SortIgnoresOrder(Ordinals(a), Ordinals(b), AtMost);
  }

  lemma AnchorIgnoresOrder(c: Context, a: seq<Date>, b: seq<Date>)
    requires Usable(c.(surrounding := a)) && Usable(c.(surrounding := b)) && multiset(a) == multiset(b)
    ensures AnchorOf(c.(surrounding := a)) == AnchorOf(c.(surrounding := b))
  {
    assert |a| == |multiset(a)| == |b|;
    if a != [] {
      MedianIgnoresOrder(a, b);
    }
  }

  lemma SameAnchorSameYear(month: int, day: int, c: Context, d: Context)
    requires Usable(c) && Usable(d) && c.today == d.today && AnchorOf(c) == AnchorOf(d)
    ensures InferYear(month, day, c) == InferYear(month, day, d)
  {}

  lemma SameAnchorSameDate(t: Token, c: Context, d: Context)
    requires Usable(c) && Usable(d) && c.today == d.today && AnchorOf(c) == AnchorOf(d)
    ensures ResolveDate(t, c) == ResolveDate(t, d)
  {
    if t.Partial? {
      SameAnchorSameYear(t.month, t.day, c, d);
    } else {
      EnrichingKeeps(t, c, d);
    }
  }

  /** A row's date depends on its own token and on which dates the screen states, not on the row order. */
  lemma RowsIgnoreOrder(tokens: seq<Token>, shuffled: seq<Token>, c: Context, i: nat, j: nat)
    requires Usable(c) && multiset(tokens) == multiset(shuffled)
    requires i < |tokens| && j < |shuffled| && tokens[i] == shuffled[j]
    ensures ResolveRowDates(tokens, c)[i] == ResolveRowDates(shuffled, c)[j]
  {
    SecondPassIsEnriched(tokens, c, i);
    SecondPassIsEnriched(shuffled, c, j);
    ExplicitDatesIgnoreOrder(tokens, shuffled);
    var a, b := ExplicitDates(tokens), ExplicitDates(shuffled);
    assert |a| == |multiset(a)| == |b|;
    if a != [] && c.statement.None? {
      AnchorIgnoresOrder(c, c.surrounding + a, c.surrounding + b);
    }
    SameAnchorSameDate(tokens[i], Enriched(tokens, c), Enriched(shuffled, c));
  }
}

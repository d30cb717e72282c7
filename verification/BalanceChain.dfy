/** Running-balance checks (apps/parsing/balances.py). */
module BalanceChain {
  import opened Common
  import opened Values

  datatype Row = Row(amount: Option<int>, after: Option<Money>, before: Option<Money>)

  datatype Status = Valid | Invalid | Unavailable

  datatype Validation = Validation(status: Status, delta: real, expected: Option<Money>, difference: Option<int>)

  const UNAVAILABLE := Validation(Unavailable, 0.0, None, None)
  const CONFIDENCE_BONUS: real := 0.15
  const CONFIDENCE_PENALTY: real := -0.35

  function ValidateBalance(previous: Option<Money>, amount: Option<int>, next: Option<Money>): Validation {
    if previous.None? || next.None? || amount.None? then UNAVAILABLE else
      var expected := Money(previous.value.minor + amount.value, previous.value.currency);
      if expected.currency != next.value.currency then UNAVAILABLE else
        var difference := next.value.minor - expected.minor;
        if difference == 0 then Validation(Valid, CONFIDENCE_BONUS, Some(expected), Some(0))
        else Validation(Invalid, CONFIDENCE_PENALTY, Some(expected), Some(difference))
  }

  /** The last balance printed among the first `i` rows. */
  function LastPrinted(rows: seq<Row>, i: nat): Option<Money>
    requires i <= |rows|
  {
    if i == 0 then None else if rows[i - 1].after.Some? then rows[i - 1].after else LastPrinted(rows, i - 1)
  }

  function ValidationAt(rows: seq<Row>, i: nat): Validation
    requires i < |rows|
  {
    var anchor := if rows[i].before.Some? then rows[i].before else LastPrinted(rows, i);
    ValidateBalance(anchor, rows[i].amount, rows[i].after)
  }

  method ValidateBalanceChain(rows: seq<Row>) returns (validations: seq<Validation>)
    ensures |validations| == |rows|
    ensures forall i :: 0 <= i < |rows| ==> validations[i] == ValidationAt(rows, i)
  {
    validations := [];
    var previous: Option<Money> := None;
    for i := 0 to |rows|
      invariant |validations| == i && previous == LastPrinted(rows, i)
      invariant forall k :: 0 <= k < i ==> validations[k] == ValidationAt(rows, k)
    {
      var anchor := if rows[i].before.Some? then rows[i].before else previous;
      validations := validations + [ValidateBalance(anchor, rows[i].amount, rows[i].after)];
      if rows[i].after.Some? {
        previous := rows[i].after;
      }
    }
  }

  // ---- What a verdict means ----

  /** Row i is compared with m: the starting balance it prints itself, or else the last balance printed above it. */
  ghost predicate ComparedWith(rows: seq<Row>, i: nat, m: Money)
    requires i < |rows|
  {
    if rows[i].before.Some? then m == rows[i].before.value
    else exists j :: 0 <= j < i && rows[j].after == Some(m) && forall k :: j < k < i ==> rows[k].after.None?
  }

  lemma {:induction false} LastPrintedIsLast(rows: seq<Row>, i: nat, m: Money)
    requires i <= |rows|
    ensures LastPrinted(rows, i) == Some(m) <==>
      exists j :: 0 <= j < i && rows[j].after == Some(m) && forall k :: j < k < i ==> rows[k].after.None?
  {
    if i > 0 {
      LastPrintedIsLast(rows, i - 1, m);
    }
  }

  /** The amount, and `off` more, lead from m to the balance that the row prints. */
  ghost predicate LeadsTo(row: Row, m: Money, off: int) {
    row.amount.Some? && row.after == Some(Money(m.minor + row.amount.value + off, m.currency))
  }

  /** The verdict on a row, for every chain: valid and more confident when its amount leads from the balance it is
      compared with to the one it prints, invalid and less confident by what is missing, and no verdict when it is
      compared with nothing or one of the three is absent or in another currency. */
  lemma VerdictMeans(rows: seq<Row>, i: nat)
    requires i < |rows|
    ensures var v := ValidationAt(rows, i);
      forall m | ComparedWith(rows, i, m) ::
        && (v.status == Valid <==> LeadsTo(rows[i], m, 0))
        && (forall off :: v.status == Invalid && v.difference == Some(off) <==> LeadsTo(rows[i], m, off) && off != 0)
        && (v.status == Unavailable <==> forall off :: !LeadsTo(rows[i], m, off))
    ensures (forall m :: !ComparedWith(rows, i, m)) ==> ValidationAt(rows, i).status == Unavailable
    ensures match ValidationAt(rows, i).status
      case Valid => ValidationAt(rows, i).delta == 0.15
      case Invalid => ValidationAt(rows, i).delta == -0.35
      case Unavailable => ValidationAt(rows, i).delta == 0.0
  {
    var v := ValidationAt(rows, i);
    forall m | ComparedWith(rows, i, m)
      ensures v.status == Valid <==> LeadsTo(rows[i], m, 0)
      ensures forall off :: v.status == Invalid && v.difference == Some(off) <==> LeadsTo(rows[i], m, off) && off != 0
      ensures v.status == Unavailable <==> forall off :: !LeadsTo(rows[i], m, off)
    {
      LastPrintedIsLast(rows, i, m);
      VerdictOn(rows[i], m);
      assert v == ValidateBalance(Some(m), rows[i].amount, rows[i].after);
    }
    if rows[i].before.Some? {
      assert ComparedWith(rows, i, rows[i].before.value);
    } else if LastPrinted(rows, i).Some? {
      LastPrintedIsLast(rows, i, LastPrinted(rows, i).value);
      assert ComparedWith(rows, i, LastPrinted(rows, i).value);
    }
  }

  lemma VerdictOn(row: Row, m: Money)
    ensures var v := ValidateBalance(Some(m), row.amount, row.after);
      && (v.status == Valid <==> LeadsTo(row, m, 0))
      && (forall off :: v.status == Invalid && v.difference == Some(off) <==> LeadsTo(row, m, off) && off != 0)
      && (v.status == Unavailable <==> forall off :: !LeadsTo(row, m, off))
  {
    if row.amount.Some? && row.after.Some? && row.after.value.currency == m.currency {
      assert LeadsTo(row, m, row.after.value.minor - m.minor - row.amount.value);
    }
  }

  /** A starting balance printed on the row silences everything above it. */
  lemma OwnStartDecides(rows: seq<Row>, other: seq<Row>, i: nat, k: nat)
    requires i < |rows| && k < |other| && rows[i] == other[k] && rows[i].before.Some?
    ensures ValidationAt(rows, i) == ValidationAt(other, k)
  {}

  /** Every row prints a balance and an amount in one currency, and none prints its own starting balance. */
  ghost predicate FullyVisible(rows: seq<Row>, currency: string) {
    forall i :: 0 <= i < |rows| ==>
      rows[i].before.None? && rows[i].amount.Some? && rows[i].after.Some? && rows[i].after.value.currency == currency
  }

  function Difference(rows: seq<Row>, i: nat): int
    requires i < |rows|
  {
    if ValidationAt(rows, i).difference.Some? then ValidationAt(rows, i).difference.value else 0
  }

  /** Sum of the reported differences of rows 0 to n - 1. */
  function TotalDifference(rows: seq<Row>, n: nat): int
    requires n <= |rows|
  {
    if n == 0 then 0 else TotalDifference(rows, n - 1) + Difference(rows, n - 1)
  }

  /** Sum of the amounts of rows lo to hi - 1; an unread amount counts as nothing. */
  function AmountsBetween(rows: seq<Row>, lo: nat, hi: nat): int
    requires lo <= hi <= |rows|
  {
    if hi == lo then 0 else
      AmountsBetween(rows, lo, hi - 1) + if rows[hi - 1].amount.Some? then rows[hi - 1].amount.value else 0
  }

  /** The reported differences telescope: together they are exactly what the two ends disagree by. */
  lemma {:induction false} DifferencesTelescope(rows: seq<Row>, currency: string, n: nat)
    requires FullyVisible(rows, currency) && 0 < n <= |rows|
    ensures TotalDifference(rows, n) ==
      rows[n - 1].after.value.minor - rows[0].after.value.minor - AmountsBetween(rows, 1, n)
  {
    if n == 1 {
      assert LastPrinted(rows, 0) == None;
      assert TotalDifference(rows, 0) == 0;
    } else {
      DifferencesTelescope(rows, currency, n - 1);
      assert LastPrinted(rows, n - 1) == rows[n - 2].after;
    }
  }

  function Misprint(rows: seq<Row>, k: nat, d: int): seq<Row>
    requires k < |rows| && rows[k].after.Some?
  {
    rows[k := rows[k].(after := Some(rows[k].after.value.(minor := rows[k].after.value.minor + d)))]
  }

  /** One misread balance moves exactly two differences, by opposite amounts, in any visible chain. */
  lemma MisprintMovesTwo(rows: seq<Row>, currency: string, k: nat, d: int)
    requires FullyVisible(rows, currency) && 0 < k < |rows| - 1
    ensures forall i :: 0 <= i < |rows| ==>
      Difference(Misprint(rows, k, d), i) ==
        Difference(rows, i) + (if i == k then d else if i == k + 1 then -d else 0)
  {
    forall i | 0 <= i < |rows|
      ensures Difference(Misprint(rows, k, d), i) ==
        Difference(rows, i) + (if i == k then d else if i == k + 1 then -d else 0)
    {
      if i > 0 {
        assert LastPrinted(rows, i) == rows[i - 1].after;
        assert LastPrinted(Misprint(rows, k, d), i) == Misprint(rows, k, d)[i - 1].after;
      }
    }
  }

  /** In a valid chain that misprint makes exactly that row and the next invalid. */
  lemma MisprintFlagsTwo(rows: seq<Row>, currency: string, k: nat, d: int)
    requires FullyVisible(rows, currency) && 0 < k < |rows| - 1 && d != 0
    requires forall i :: 1 <= i < |rows| ==> ValidationAt(rows, i).status == Valid
    ensures forall i :: 0 <= i < |rows| ==>
      (ValidationAt(Misprint(rows, k, d), i).status == Invalid <==> i == k || i == k + 1)
  {
    MisprintMovesTwo(rows, currency, k, d);
    forall i | 0 <= i < |rows|
      ensures ValidationAt(Misprint(rows, k, d), i).status == Invalid <==> i == k || i == k + 1
    {
      assert Difference(Misprint(rows, k, d), i) ==
        Difference(rows, i) + (if i == k then d else if i == k + 1 then -d else 0);
    }
  }

  // ---- Hidden balances ----

  /** A screenshot of a true ledger: `balance[i]` is the real balance after row i, and what is printed is right. */
  ghost predicate Truthful(rows: seq<Row>, balance: seq<int>, currency: string) {
    && |balance| == |rows|
    && (forall i :: 0 <= i < |rows| ==> rows[i].before.None? && rows[i].amount.Some?)
    && (forall i :: 0 <= i < |rows| && rows[i].after.Some? ==> rows[i].after.value == Money(balance[i], currency))
    && (forall i :: 1 <= i < |rows| ==> balance[i] == balance[i - 1] + rows[i].amount.value)
  }

  lemma {:induction false} BalanceGap(rows: seq<Row>, balance: seq<int>, currency: string, lo: nat, hi: nat)
    requires Truthful(rows, balance, currency) && lo <= hi < |rows|
    ensures balance[hi] == balance[lo] + AmountsBetween(rows, lo + 1, hi + 1)
  {
    if lo < hi {
      BalanceGap(rows, balance, currency, lo, hi - 1);
    }
  }

  lemma {:induction false} LastPrintedAt(rows: seq<Row>, j: nat, i: nat)
    requires j < i <= |rows| && rows[j].after.Some?
    requires forall k :: j < k < i ==> rows[k].after.None?
    ensures LastPrinted(rows, i) == rows[j].after
  {
    if i > j + 1 {
      LastPrintedAt(rows, j, i - 1);
    }
  }

  /** A row is compared with the last printed balance, not with the row before it: after rows whose balance
      is hidden, a correct screenshot passes if and only if the hidden rows' amounts cancel. */
  lemma HiddenRowsDecideValidity(rows: seq<Row>, balance: seq<int>, currency: string, j: nat, i: nat)
    requires Truthful(rows, balance, currency) && j < i < |rows|
    requires rows[j].after.Some? && rows[i].after.Some?
    requires forall k :: j < k < i ==> rows[k].after.None?
    ensures Difference(rows, i) == AmountsBetween(rows, j + 1, i)
    ensures ValidationAt(rows, i).status == Valid <==> AmountsBetween(rows, j + 1, i) == 0
    ensures ValidationAt(rows, i).status != Unavailable
  {
    LastPrintedAt(rows, j, i);
    BalanceGap(rows, balance, currency, j, i);
  }

  /** A correct screenshot the chain check rejects: 100, then a hidden -30, then -20 leaving 50. */
  lemma HiddenRowRejectsTruth()
    ensures var rows := [Row(Some(0), Some(Money(100, "KRW")), None), Row(Some(-30), None, None),
                         Row(Some(-20), Some(Money(50, "KRW")), None)];
      Truthful(rows, [100, 70, 50], "KRW") && ValidationAt(rows, 2).status == Invalid
  {
    var rows := [Row(Some(0), Some(Money(100, "KRW")), None), Row(Some(-30), None, None),
                 Row(Some(-20), Some(Money(50, "KRW")), None)];
    assert LastPrinted(rows, 2) == LastPrinted(rows, 1) == Some(Money(100, "KRW"));
  }
}

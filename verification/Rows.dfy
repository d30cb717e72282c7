/** Grouping OCR tokens into visual rows (apps/parsing/rows.py). Coordinates are exact rationals. */
module Rows {
  import opened Common
  import opened Geometry
  import opened Sorting

  datatype Token = Token(text: string, box: Box, sequence: int)

  const ROW_HEIGHT_RATIO: real := 0.7
  const MINIMUM_ROW_THRESHOLD: real := 4.0

  function Center(t: Token): real {
    (t.box.top + t.box.bottom) as real / 2.0
  }

  function Height(t: Token): int {
    if t.box.bottom - t.box.top > 1 then t.box.bottom - t.box.top else 1
  }

  /** The (centre, left, sequence) order rows are built in. */
  predicate ReadingOrder(a: Token, b: Token) {
    || Center(a) < Center(b)
    || (Center(a) == Center(b)
        && (a.box.left < b.box.left || (a.box.left == b.box.left && a.sequence <= b.sequence)))
  }

  predicate LeftToRight(a: Token, b: Token) {
    a.box.left < b.box.left || (a.box.left == b.box.left && a.sequence <= b.sequence)
  }

  function Heights(tokens: seq<Token>): seq<int> {
    seq(|tokens|, i requires 0 <= i < |tokens| => Height(tokens[i]))
  }

  /** The middle value, or the mean of the two middle values. */
  function Median(values: seq<int>): real
    requires values != []
  {
    SortPermutes(values, AtMost);
    var s := Sort(values, AtMost);
    var h := |s| / 2;
    if |s| % 2 == 1 then s[h] as real else (s[h - 1] + s[h]) as real / 2.0
  }

  function Threshold(tokens: seq<Token>): (threshold: real)
    requires tokens != []
    ensures threshold >= MINIMUM_ROW_THRESHOLD
  {
    var scaled := Median(Heights(tokens)) * ROW_HEIGHT_RATIO;
    if scaled > MINIMUM_ROW_THRESHOLD then scaled else MINIMUM_ROW_THRESHOLD
  }

  function SumCenters(row: seq<Token>): real {
    if row == [] then 0.0 else SumCenters(row[..|row| - 1]) + Center(row[|row| - 1])
  }

  function Mean(row: seq<Token>): real
    requires row != []
  {
    SumCenters(row) / |row| as real
  }

  /** One step of the grouping: open a row, or join the last one and so move its mean. */
  function AddToken(rows: seq<seq<Token>>, t: Token, threshold: real): seq<seq<Token>>
    requires rows != [] ==> rows[|rows| - 1] != []
  {
    if rows == [] || Distance(Center(t), Mean(rows[|rows| - 1])) > threshold
    then rows + [[t]]
    else rows[..|rows| - 1] + [rows[|rows| - 1] + [t]]
  }

  function Bands(ordered: seq<Token>, threshold: real): (rows: seq<seq<Token>>)
    ensures (forall k :: 0 <= k < |rows| ==> rows[k] != [])
    ensures Flatten(rows) == ordered
  {
    if ordered == [] then [] else
      var n := |ordered| - 1;
      var before := Bands(ordered[..n], threshold);
      var rows := AddToken(before, ordered[n], threshold);
      assert Flatten(rows) == ordered by {
        assert ordered == ordered[..n] + [ordered[n]];
        FlattenAppend(before, [ordered[n]]);
        if before != [] {
          FlattenAppend(before[..|before| - 1], before[|before| - 1] + [ordered[n]]);
        }
      }
      rows
  }

  function GroupRowsSpec(tokens: seq<Token>): seq<seq<Token>> {
    var ordered := Sort(tokens, ReadingOrder);
    if ordered == [] then [] else
      var rows := Bands(ordered, Threshold(ordered));
      seq(|rows|, i requires 0 <= i < |rows| => Sort(rows[i], LeftToRight))
  }

  lemma BandsStep(ordered: seq<Token>, i: nat, threshold: real)
    requires i < |ordered|
    ensures Bands(ordered[..i + 1], threshold) == AddToken(Bands(ordered[..i], threshold), ordered[i], threshold)
  {
    assert ordered[..i + 1][..i] == ordered[..i];
  }

  ghost predicate RunningCenters(rows: seq<seq<Token>>, centers: seq<real>) {
    && |centers| == |rows|
    && (rows != [] ==> rows[|rows| - 1] != [] && centers[|centers| - 1] == Mean(rows[|rows| - 1]))
  }

  /** Opens a row, or joins the last one and overwrites its running centre. */
  method PlaceToken(rows: seq<seq<Token>>, centers: seq<real>, t: Token, threshold: real)
    returns (grown: seq<seq<Token>>, moved: seq<real>)
    requires RunningCenters(rows, centers)
    ensures grown == AddToken(rows, t, threshold)
    ensures RunningCenters(grown, moved)
  {
    var last := |rows| - 1;
    if rows == [] || Distance(Center(t), centers[last]) > threshold {
      grown, moved := rows + [[t]], centers + [Center(t)];
      assert SumCenters([t]) == Center(t);
    } else {
      grown := rows[..last] + [rows[last] + [t]];
      var sum := SumCentersByLoop(grown[last]);
      moved := centers[last := sum / |grown[last]| as real];
    }
  }

  method BuildRows(ordered: seq<Token>, threshold: real) returns (rows: seq<seq<Token>>)
    ensures rows == Bands(ordered, threshold)
  {
    rows := [];
    var centers: seq<real> := [];
    for i := 0 to |ordered|
      invariant rows == Bands(ordered[..i], threshold)
      invariant RunningCenters(rows, centers)
    {
      BandsStep(ordered, i, threshold);
      rows, centers := PlaceToken(rows, centers, ordered[i], threshold);
    }
    assert ordered[..|ordered|] == ordered;
  }

  method GroupRows(tokens: seq<Token>) returns (result: seq<seq<Token>>)
    ensures result == GroupRowsSpec(tokens)
  {
    var ordered := Sort(tokens, ReadingOrder);
    if ordered == [] {
      return [];
    }
    var rows := BuildRows(ordered, Threshold(ordered));
    result := seq(|rows|, i requires 0 <= i < |rows| => Sort(rows[i], LeftToRight));
  }

  method SumCentersByLoop(row: seq<Token>) returns (sum: real)
    ensures sum == SumCenters(row)
  {
    sum := 0.0;
    for i := 0 to |row|
      invariant sum == SumCenters(row[..i])
    {
      assert row[..i + 1][..i] == row[..i];
      sum := sum + Center(row[i]);
    }
    assert row[..|row|] == row;
  }

  // ---- The running mean never lets two rows share a centre ----

  ghost predicate Ascending(row: seq<Token>) {
    forall i, j :: 0 <= i < j < |row| ==> Center(row[i]) <= Center(row[j])
  }

  lemma CancelFactor(x: real, y: real, n: real)
    requires n > 0.0 && x * n <= y * n
    ensures x <= y
  {}

  /** Adding a token at or above the mean brings the mean closer to it, never past it. */
  lemma MeanFollows(sum: real, n: real, c: real)
    requires n > 0.0 && sum / n <= c
    ensures 0.0 <= c - (sum + c) / (n + 1.0) <= c - sum / n
  {
    var m := sum / n;
    var d := (sum + c) / (n + 1.0);
    assert m * n == sum && d * (n + 1.0) == sum + c;
    var u, v := c - d, c - m;
    assert u * (n + 1.0) == n * v;
    assert v * (n + 1.0) == n * v + v;
    assert n * v >= 0.0;
    CancelFactor(0.0, u, n + 1.0);
    CancelFactor(u, v, n + 1.0);
  }

  ghost predicate Below(row: seq<Token>, t: Token) {
    forall i :: 0 <= i < |row| ==> Center(row[i]) <= Center(t)
  }

  ghost predicate StrictlyBelow(row: seq<Token>, t: Token) {
    forall i :: 0 <= i < |row| ==> Center(row[i]) < Center(t)
  }

  /** The last token of a row is within the threshold of the row's mean, after the mean has moved. */
  ghost predicate Tight(row: seq<Token>, threshold: real) {
    && row != [] && Ascending(row)
    && 0.0 <= Center(row[|row| - 1]) - Mean(row) <= threshold
  }

  /** Between consecutive rows there is a gap in centres that no mean can have closed. */
  ghost predicate Separated(rows: seq<seq<Token>>) {
    forall a, b, i, j :: 0 <= a < b < |rows| && 0 <= i < |rows[a]| && 0 <= j < |rows[b]| ==>
      Center(rows[a][i]) < Center(rows[b][j])
  }

  lemma JoinKeepsTight(row: seq<Token>, t: Token, threshold: real)
    requires Tight(row, threshold) && threshold > 0.0
    requires Below(row, t)
    requires Distance(Center(t), Mean(row)) <= threshold
    ensures Tight(row + [t], threshold)
  {
    var joined := row + [t];
    assert joined[..|row|] == row;
    assert SumCenters(joined) == SumCenters(row) + Center(t);
    MeanFollows(SumCenters(row), |row| as real, Center(t));
  }

  /** A token far from the mean is strictly above the whole row, the last token included. */
  lemma FarMeansStrictlyAbove(row: seq<Token>, t: Token, threshold: real)
    requires Tight(row, threshold) && threshold > 0.0
    requires Center(row[|row| - 1]) <= Center(t)
    requires Distance(Center(t), Mean(row)) > threshold
    ensures StrictlyBelow(row, t)
  {
    assert Center(row[|row| - 1]) < Center(t);
  }

  lemma {:induction false} RowTokenIsInput(rows: seq<seq<Token>>, k: nat, i: nat)
    requires k < |rows| && i < |rows[k]|
    ensures rows[k][i] in Flatten(rows)
  {
    var n := |rows| - 1;
    if k < n {
      RowTokenIsInput(rows[..n], k, i);
    }
  }

  lemma SeparatedByNewRow(rows: seq<seq<Token>>, t: Token)
    requires Separated(rows) && rows != [] && rows[|rows| - 1] != []
    requires StrictlyBelow(rows[|rows| - 1], t)
    ensures Separated(rows + [[t]])
  {
    var last := |rows| - 1;
    var longer := rows + [[t]];
    forall a, b, i, j | 0 <= a < b < |longer| && 0 <= i < |longer[a]| && 0 <= j < |longer[b]|
      ensures Center(longer[a][i]) < Center(longer[b][j])
    {
      if b == last + 1 && a < last {
        assert Center(rows[a][i]) < Center(rows[last][0]);
      }
    }
  }

  lemma SeparatedByJoin(rows: seq<seq<Token>>, t: Token)
    requires Separated(rows) && rows != [] && rows[|rows| - 1] != []
    requires Below(rows[|rows| - 1], t)
    ensures Separated(rows[..|rows| - 1] + [rows[|rows| - 1] + [t]])
  {
    var last := |rows| - 1;
    var grown := rows[..last] + [rows[last] + [t]];
    forall a, b, i, j | 0 <= a < b < |grown| && 0 <= i < |grown[a]| && 0 <= j < |grown[b]|
      ensures Center(grown[a][i]) < Center(grown[b][j])
    {
      assert Center(rows[a][i]) < Center(rows[b][0]);
      if j < |rows[b]| {
        assert grown[b][j] == rows[b][j];
      }
    }
  }

  ghost predicate AllTight(rows: seq<seq<Token>>, threshold: real) {
    forall k :: 0 <= k < |rows| ==> Tight(rows[k], threshold)
  }

  /** Tight rows, each strictly below the next. */
  ghost predicate Banded(rows: seq<seq<Token>>, threshold: real) { Separated(rows) && AllTight(rows, threshold) }

  ghost predicate AllBelow(rows: seq<seq<Token>>, t: Token) {
    forall k, i :: 0 <= k < |rows| && 0 <= i < |rows[k]| ==> Center(rows[k][i]) <= Center(t)
  }

  lemma StepSeparates(before: seq<seq<Token>>, t: Token, threshold: real, after: seq<seq<Token>>)
    requires threshold > 0.0 && Banded(before, threshold) && AllBelow(before, t)
    requires before != [] ==> before[|before| - 1] != []
    requires after == AddToken(before, t, threshold)
    ensures Banded(after, threshold)
  {
    assert SumCenters([t]) == Center(t);
    assert Tight([t], threshold);
    if before != [] {
      var last := before[|before| - 1];
      if Distance(Center(t), Mean(last)) > threshold {
        FarMeansStrictlyAbove(last, t, threshold);
        SeparatedByNewRow(before, t);
      } else {
        JoinKeepsTight(last, t, threshold);
        SeparatedByJoin(before, t);
      }
    }
  }

  lemma EarlierTokensBelow(rows: seq<seq<Token>>, ordered: seq<Token>, t: Token)
    requires Flatten(rows) == ordered && Below(ordered, t)
    ensures AllBelow(rows, t)
  {
    forall k, i | 0 <= k < |rows| && 0 <= i < |rows[k]| ensures Center(rows[k][i]) <= Center(t) {
      RowTokenIsInput(rows, k, i);
    }
  }

  /** Rows are bands: no centre of a later row is at or above any centre of an earlier one. */
  lemma {:induction false} BandsSeparate(ordered: seq<Token>, threshold: real)
    requires Ascending(ordered) && threshold > 0.0
    ensures Banded(Bands(ordered, threshold), threshold)
  {
    if ordered != [] {
      var n := |ordered| - 1;
      var before := Bands(ordered[..n], threshold);
      BandsSeparate(ordered[..n], threshold);
      EarlierTokensBelow(before, ordered[..n], ordered[n]);
      StepSeparates(before, ordered[n], threshold, Bands(ordered, threshold));
    }
  }

  lemma ReadingOrderIsTotal()
    ensures TotalPreorder(ReadingOrder) && TotalPreorder(LeftToRight)
  {}

  lemma {:induction false} SortedRowsPartition(rows: seq<seq<Token>>, sorted: seq<seq<Token>>)
    requires |sorted| == |rows|
    requires forall k :: 0 <= k < |rows| ==> sorted[k] == Sort(rows[k], LeftToRight)
    ensures multiset(Flatten(sorted)) == multiset(Flatten(rows))
  {
    if rows != [] {
      var n := |rows| - 1;
      SortedRowsPartition(rows[..n], sorted[..n]);
      SortPermutes(rows[n], LeftToRight);
    }
  }

  /** Every token lands in exactly one row, and every row reads left to right. */
  lemma RowsPartitionTokens(tokens: seq<Token>)
    ensures multiset(Flatten(GroupRowsSpec(tokens))) == multiset(tokens)
    ensures forall k :: 0 <= k < |GroupRowsSpec(tokens)| ==>
      GroupRowsSpec(tokens)[k] != [] && Sorted(GroupRowsSpec(tokens)[k], LeftToRight)
  {
    ReadingOrderIsTotal();
    var ordered := Sort(tokens, ReadingOrder);
    SortPermutes(tokens, ReadingOrder);
    if ordered != [] {
      var rows := Bands(ordered, Threshold(ordered));
      SortedRowsPartition(rows, GroupRowsSpec(tokens));
      forall k | 0 <= k < |rows|
        ensures Sort(rows[k], LeftToRight) != [] && Sorted(Sort(rows[k], LeftToRight), LeftToRight)
      {
        SortSorted(rows[k], LeftToRight);
        SortPermutes(rows[k], LeftToRight);
      }
    }
  }

  lemma RowSortKeepsSeparation(rows: seq<seq<Token>>, sorted: seq<seq<Token>>)
    requires Separated(rows) && |sorted| == |rows|
    requires forall k :: 0 <= k < |rows| ==> multiset(sorted[k]) == multiset(rows[k])
    ensures Separated(sorted)
  {
    forall a, b, i, j | 0 <= a < b < |sorted| && 0 <= i < |sorted[a]| && 0 <= j < |sorted[b]|
      ensures Center(sorted[a][i]) < Center(sorted[b][j])
    {
      assert sorted[a][i] in multiset(rows[a]) && sorted[b][j] in multiset(rows[b]);
    }
  }

  /** Rows come top to bottom with a strict gap between centres, whatever the mean did on the way. */
  lemma RowsAreStrictBands(tokens: seq<Token>)
    ensures Separated(GroupRowsSpec(tokens))
  {
    ReadingOrderIsTotal();
    var ordered := Sort(tokens, ReadingOrder);
    SortSorted(tokens, ReadingOrder);
    if ordered != [] {
      var rows := Bands(ordered, Threshold(ordered));
      assert Ascending(ordered);
      BandsSeparate(ordered, Threshold(ordered));
      forall k | 0 <= k < |rows| ensures multiset(Sort(rows[k], LeftToRight)) == multiset(rows[k]) {
        SortPermutes(rows[k], LeftToRight);
      }
      RowSortKeepsSeparation(rows, GroupRowsSpec(tokens));
    }
  }

  ghost predicate DistinctSequences(tokens: seq<Token>) {
    forall i, j :: 0 <= i < |tokens| && 0 <= j < |tokens| && tokens[i].sequence == tokens[j].sequence ==> i == j
  }

  /** With distinct sequence numbers the grouping is a function of the tokens, not of their order. */
  lemma RowsIgnoreInputOrder(tokens: seq<Token>, shuffled: seq<Token>)
    requires multiset(tokens) == multiset(shuffled) && DistinctSequences(tokens)
    ensures GroupRowsSpec(tokens) == GroupRowsSpec(shuffled)
  {
    ReadingOrderIsTotal();
    SortIgnoresOrder(tokens, shuffled, ReadingOrder);
  }
}

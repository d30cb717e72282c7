/** Which tokens share a row: the threshold by the heights on the screen, and the rows of a screen with clear lines. */
module RowLines {
  import opened Common
  import opened Geometry
  import opened Sorting
  import opened Rows

  // ---- The threshold ----

  function Truths(flags: seq<bool>): nat { multiset(flags)[true] }

  lemma {:induction false} LeadingTruths(flags: seq<bool>, k: nat)
    requires k <= |flags| && forall i :: 0 <= i < k ==> flags[i]
    ensures Truths(flags) >= k
  {
    if k > 0 {
      assert flags == [flags[0]] + flags[1..];
      LeadingTruths(flags[1..], k - 1);
    }
  }

  lemma {:induction false} TrailingTruths(flags: seq<bool>, k: nat)
    requires k <= |flags| && forall i :: |flags| - k <= i < |flags| ==> flags[i]
    ensures Truths(flags) >= k
  {
    if k > 0 {
      var n := |flags| - 1;
      assert flags == flags[..n] + [flags[n]];
      TrailingTruths(flags[..n], k - 1);
    }
  }

  function AtMostCount(values: seq<int>, m: real): nat { Truths(Images(values, (v: int) => v as real <= m)) }

  function AtLeastCount(values: seq<int>, m: real): nat { Truths(Images(values, (v: int) => v as real >= m)) }

  /** At least half of the heights are at or under the median, at least half at or over it. */
  lemma MedianSplits(values: seq<int>)
    requires values != []
    ensures 2 * AtMostCount(values, Median(values)) >= |values|
    ensures 2 * AtLeastCount(values, Median(values)) >= |values|
  {
    var s, m := Sort(values, AtMost), Median(values);
    var h := |s| / 2;
    SortPermutes(values, AtMost);
    assert TotalPreorder(AtMost);
    SortSorted(values, AtMost);
    MiddleBounds(s);
    var low, high := (v: int) => v as real <= m, (v: int) => v as real >= m;
    ImagesIgnoreOrder(s, values, low);
    ImagesIgnoreOrder(s, values, high);
    LeadingTruths(Images(s, low), |s| - h);
    TrailingTruths(Images(s, high), |s| - h);
  }

  lemma MiddleBounds(s: seq<int>)
    requires s != [] && Sorted(s, AtMost)
    ensures var h := |s| / 2;
      var m := if |s| % 2 == 1 then s[h] as real else (s[h - 1] + s[h]) as real / 2.0;
      (forall i :: 0 <= i < |s| - h ==> s[i] as real <= m) && (forall i :: h <= i < |s| ==> s[i] as real >= m)
  {
    var h := |s| / 2;
    forall i | 0 <= i < |s| - h ensures s[i] <= s[h] && (|s| % 2 == 0 ==> s[i] <= s[h - 1]) {
      assert i < h ==> AtMost(s[i], s[h]);
      assert |s| % 2 == 0 && i < h - 1 ==> AtMost(s[i], s[h - 1]);
    }
    forall i | h <= i < |s| ensures s[i] >= s[h] && (|s| % 2 == 0 ==> s[i] >= s[h - 1]) {
      assert i > h ==> AtMost(s[h], s[i]);
      assert |s| % 2 == 0 ==> AtMost(s[h - 1], s[i]);
    }
  }

  lemma {:induction false} SortOfEqual(values: seq<int>, h: int)
    requires forall i :: 0 <= i < |values| ==> values[i] == h
    ensures Sort(values, AtMost) == values
  {
    if values != [] {
      SortOfEqual(values[1..], h);
    }
  }

  /** Text of one height: seven tenths of it, but never less than four pixels. */
  lemma OneHeight(tokens: seq<Token>, h: int)
    requires tokens != [] && forall i :: 0 <= i < |tokens| ==> Height(tokens[i]) == h
    ensures Threshold(tokens) == if h >= 6 then h as real * 0.7 else 4.0
  {
    assert Height(tokens[0]) == h;
    SortOfEqual(Heights(tokens), h);
    assert Median(Heights(tokens)) == h as real by {
      assert (h + h) as real / 2.0 == h as real;
    }
  }

  function TwoTokenThreshold(a: Token, b: Token): real {
    var scaled := (Height(a) + Height(b)) as real * 0.35;
    if scaled > 4.0 then scaled else 4.0
  }

  lemma SortOfTwo<T(!new)>(x: T, y: T, leq: (T, T) -> bool)
    ensures Sort([x, y], leq) == if leq(x, y) then [x, y] else [y, x]
  {
    assert [x, y][1..] == [y] && [y][1..] == [];
    assert Sort([y], leq) == [y];
    assert [y] + Insert(x, [], leq) == [y, x] && [x] + [y] == [x, y];
  }

  lemma ThresholdOfTwo(a: Token, b: Token)
    ensures Threshold([a, b]) == TwoTokenThreshold(a, b)
  {
    var x, y := Height(a), Height(b);
    assert Heights([a, b]) == [x, y];
    SortOfTwo(x, y, AtMost);
  }

  /** Two tokens are one row if and only if their centres are within 35% of the sum of their heights, or four pixels. */
  lemma TwoTokensShareRowIff(a: Token, b: Token)
    ensures |GroupRowsSpec([a, b])| == 1 <==> Distance(Center(a), Center(b)) <= TwoTokenThreshold(a, b)
    ensures 1 <= |GroupRowsSpec([a, b])| <= 2
  {
    SortOfTwo(a, b, ReadingOrder);
    var x, y := if ReadingOrder(a, b) then a else b, if ReadingOrder(a, b) then b else a;
    assert Sort([a, b], ReadingOrder) == [x, y];
    ThresholdOfTwo(x, y);
    assert TwoTokenThreshold(x, y) == TwoTokenThreshold(a, b);
    TwoBands(x, y, TwoTokenThreshold(a, b));
    assert |GroupRowsSpec([a, b])| == |Bands([x, y], TwoTokenThreshold(a, b))|;
  }

  lemma TwoBands(a: Token, b: Token, threshold: real)
    ensures Bands([a, b], threshold) == if Distance(Center(b), Center(a)) > threshold then [[a], [b]] else [[a, b]]
  {
    var one: seq<seq<Token>> := [[a]];
    assert [a, b][..1] == [a] && [a][..0] == [];
    assert Bands([], threshold) == [];
    assert AddToken([], a, threshold) == one;
    assert Bands([a], threshold) == one;
    assert SumCenters([a]) == Center(a);
    assert Mean([a]) == Center(a);
    assert Bands([a, b], threshold) == AddToken(one, b, threshold);
    assert one[0] + [b] == [a, b] && one[..0] == [];
    assert one[..0] + [one[0] + [b]] == [one[0] + [b]];
  }

  // ---- Clear lines ----

  predicate Near(a: Token, b: Token, threshold: real) { Distance(Center(a), Center(b)) <= threshold }

  /** Being near is a matter of lines: what is near to something near is near. */
  ghost predicate ClearLines(tokens: seq<Token>, threshold: real) {
    forall a, b, c :: a in tokens && b in tokens && c in tokens && Near(a, b, threshold) && Near(b, c, threshold) ==>
      Near(a, c, threshold)
  }

  /** Two tokens are in one row if and only if they are near. */
  ghost predicate RowsAreLines(rows: seq<seq<Token>>, threshold: real) {
    forall x, y, a, b :: 0 <= x < |rows| && 0 <= y < |rows| && a in rows[x] && b in rows[y] ==>
      (x == y <==> Near(a, b, threshold))
  }

  lemma {:induction false} SumFromBelow(row: seq<Token>, low: real)
    requires forall i :: 0 <= i < |row| ==> Center(row[i]) >= low
    ensures SumCenters(row) >= low * |row| as real
  {
    if row != [] {
      SumFromBelow(row[..|row| - 1], low);
      assert low * |row| as real == low * (|row| - 1) as real + low;
    }
  }

  lemma MeanFromBelow(row: seq<Token>, low: real)
    requires row != [] && forall i :: 0 <= i < |row| ==> Center(row[i]) >= low
    ensures Mean(row) >= low
  {
    SumFromBelow(row, low);
    var n := |row| as real;
    assert Mean(row) * n == SumCenters(row);
    CancelFactor(low, Mean(row), n);
  }

  /** The next token joins the last row exactly when it is near its last token. */
  lemma JoinsIffNear(row: seq<Token>, t: Token, threshold: real)
    requires Tight(row, threshold) && Below(row, t) && ClearLines(row + [t], threshold) && threshold > 0.0
    requires forall a, b :: a in row && b in row ==> Near(a, b, threshold)
    ensures Distance(Center(t), Mean(row)) <= threshold <==> Near(row[|row| - 1], t, threshold)
    ensures Near(row[|row| - 1], t, threshold) ==> forall a :: a in row ==> Near(a, t, threshold)
  {
    var last := row[|row| - 1];
    assert last in row + [t] && t in row + [t];
    if Near(last, t, threshold) {
      forall a | a in row ensures Near(a, t, threshold) {
        assert a in row + [t] && Near(a, last, threshold);
      }
      forall i | 0 <= i < |row| ensures Center(row[i]) >= Center(t) - threshold {
        assert row[i] in row && Near(row[i], t, threshold);
      }
      MeanFromBelow(row, Center(t) - threshold);
    }
  }

  lemma BandRowIsInput(rows: seq<seq<Token>>, x: nat, a: Token)
    requires x < |rows| && a in rows[x]
    ensures a in Flatten(rows)
  {
    var i :| 0 <= i < |rows[x]| && rows[x][i] == a;
    RowTokenIsInput(rows, x, i);
  }

  lemma EarlierRowsStayAway(before: seq<seq<Token>>, ordered: seq<Token>, t: Token, threshold: real, x: nat, a: Token)
    requires before != [] && Flatten(before) == ordered && Banded(before, threshold) && RowsAreLines(before, threshold)
    requires Below(ordered, t) && ClearLines(ordered + [t], threshold) && x < |before| - 1 && a in before[x]
    ensures !Near(a, t, threshold)
  {
    var row := before[|before| - 1];
    var last := row[|row| - 1];
    BandRowIsInput(before, x, a);
    BandRowIsInput(before, |before| - 1, last);
    var i :| 0 <= i < |before[x]| && before[x][i] == a;
    assert Center(before[x][i]) < Center(before[|before| - 1][|row| - 1]);
    assert !Near(a, last, threshold);
    var k :| 0 <= k < |ordered| && ordered[k] == last;
    assert Center(ordered[k]) <= Center(t);
  }

  /** The last row is near the token throughout or not at all, and the earlier rows are not. */
  lemma LastRowDecides(before: seq<seq<Token>>, ordered: seq<Token>, t: Token, threshold: real)
    requires before != [] && Flatten(before) == ordered && Banded(before, threshold) && RowsAreLines(before, threshold)
    requires threshold > 0.0 && Below(ordered, t) && ClearLines(ordered + [t], threshold)
    ensures var row := before[|before| - 1];
      row != [] && if Distance(Center(t), Mean(row)) <= threshold then forall a :: a in row ==> Near(a, t, threshold)
                   else forall a :: a in row ==> !Near(a, t, threshold)
  {
    var n := |before| - 1;
    var row := before[n];
    var last := row[|row| - 1];
    EarlierTokensBelow(before, ordered, t);
    forall a | a in row ensures a in ordered { BandRowIsInput(before, n, a); }
    assert Below(row, t) by {
      forall i | 0 <= i < |row| ensures Center(row[i]) <= Center(t) { assert Center(before[n][i]) <= Center(t); }
    }
    forall a, b, c
      | a in row + [t] && b in row + [t] && c in row + [t] && Near(a, b, threshold) && Near(b, c, threshold)
      ensures Near(a, c, threshold)
    {
      assert a in ordered + [t] && b in ordered + [t] && c in ordered + [t];
    }
    forall a, b | a in row && b in row ensures Near(a, b, threshold) { assert a in before[n] && b in before[n]; }
    JoinsIffNear(row, t, threshold);
    forall a | a in row && Near(a, t, threshold) ensures Near(last, t, threshold) {
      assert last in row + [t] && a in row + [t] && t in row + [t] && Near(last, a, threshold);
    }
  }

  lemma LinesGrow(before: seq<seq<Token>>, ordered: seq<Token>, t: Token, threshold: real)
    requires Flatten(before) == ordered && Banded(before, threshold) && RowsAreLines(before, threshold)
    requires threshold > 0.0 && Below(ordered, t) && ClearLines(ordered + [t], threshold)
    ensures before != [] ==> before[|before| - 1] != []
    ensures RowsAreLines(AddToken(before, t, threshold), threshold)
  {
    if before != [] {
      LastRowDecides(before, ordered, t, threshold);
      forall x, a | 0 <= x < |before| - 1 && a in before[x] ensures !Near(a, t, threshold) {
        EarlierRowsStayAway(before, ordered, t, threshold, x, a);
      }
      if Distance(Center(t), Mean(before[|before| - 1])) <= threshold {
        JoinedLines(before, t, threshold);
      } else {
        OpenedLines(before, t, threshold);
      }
    } else {
      OpenedLines(before, t, threshold);
    }
  }

  lemma NearIsSymmetric(a: Token, b: Token, threshold: real)
    ensures Near(a, b, threshold) <==> Near(b, a, threshold)
    ensures threshold > 0.0 ==> Near(a, a, threshold)
  {}

  lemma JoinedLines(before: seq<seq<Token>>, t: Token, threshold: real)
    requires before != [] && RowsAreLines(before, threshold) && threshold > 0.0
    requires forall a :: a in before[|before| - 1] ==> Near(a, t, threshold)
    requires forall x, a :: 0 <= x < |before| - 1 && a in before[x] ==> !Near(a, t, threshold)
    ensures RowsAreLines(before[..|before| - 1] + [before[|before| - 1] + [t]], threshold)
  {
    var n := |before| - 1;
    var rows := before[..n] + [before[n] + [t]];
    forall x, y, a, b | 0 <= x < |rows| && 0 <= y < |rows| && a in rows[x] && b in rows[y]
      ensures x == y <==> Near(a, b, threshold)
    {
      assert rows[x] == (if x < n then before[x] else before[n] + [t]) && (a in before[x] || (x == n && a == t));
      assert rows[y] == (if y < n then before[y] else before[n] + [t]) && (b in before[y] || (y == n && b == t));
      NearIsSymmetric(a, b, threshold);
    }
  }

  lemma OpenedLines(before: seq<seq<Token>>, t: Token, threshold: real)
    requires RowsAreLines(before, threshold) && threshold > 0.0
    requires forall x, a :: 0 <= x < |before| && a in before[x] ==> !Near(a, t, threshold)
    ensures RowsAreLines(before + [[t]], threshold)
  {
    var rows := before + [[t]];
    forall x, y, a, b | 0 <= x < |rows| && 0 <= y < |rows| && a in rows[x] && b in rows[y]
      ensures x == y <==> Near(a, b, threshold)
    {
      assert if x < |before| then a in before[x] else a in [t];
      assert if y < |before| then b in before[y] else b in [t];
      NearIsSymmetric(a, b, threshold);
    }
  }

  lemma ClearWithoutLast(ordered: seq<Token>, t: Token, threshold: real)
    requires ClearLines(ordered + [t], threshold)
    ensures ClearLines(ordered, threshold)
  {
    forall a | a in ordered ensures a in ordered + [t] {}
  }

  lemma {:induction false} BandsAreLines(ordered: seq<Token>, threshold: real)
    requires Ascending(ordered) && threshold > 0.0 && ClearLines(ordered, threshold)
    ensures RowsAreLines(Bands(ordered, threshold), threshold)
  {
    if ordered != [] {
      var n := |ordered| - 1;
      var head, t := ordered[..n], ordered[n];
      assert head + [t] == ordered;
      ClearWithoutLast(head, t, threshold);
      BandsSeparate(head, threshold);
      BandsAreLines(head, threshold);
      LinesGrow(Bands(head, threshold), head, t, threshold);
    }
  }

  lemma ThresholdIgnoresOrder(tokens: seq<Token>, ordered: seq<Token>)
    requires tokens != [] && ordered != [] && multiset(tokens) == multiset(ordered)
    ensures Threshold(tokens) == Threshold(ordered)
  {
    ImagesIgnoreOrder(tokens, ordered, Height);
    assert Heights(tokens) == Images(tokens, Height) && Heights(ordered) == Images(ordered, Height);
    assert TotalPreorder(AtMost);
    SortIgnoresOrder(Heights(tokens), Heights(ordered), AtMost);
  }

  /** On a screen whose lines are clear at its own threshold the rows are exactly the lines, whatever order the tokens
      came in and however the running mean moved. */
  lemma ClearLinesAreRows(tokens: seq<Token>)
    requires tokens != [] && ClearLines(tokens, Threshold(tokens))
    ensures RowsAreLines(GroupRowsSpec(tokens), Threshold(tokens))
  {
    var ordered := Sort(tokens, ReadingOrder);
    ReadingOrderIsTotal();
    SortPermutes(tokens, ReadingOrder);
    SortSorted(tokens, ReadingOrder);
    ThresholdIgnoresOrder(tokens, ordered);
    var threshold := Threshold(ordered);
    forall a | a in ordered ensures a in tokens { SortKeepsMembers(tokens, ReadingOrder, a); }
    assert Ascending(ordered);
    BandsAreLines(ordered, threshold);
    SortedLines(Bands(ordered, threshold), GroupRowsSpec(tokens), threshold);
  }

  lemma SortedLines(rows: seq<seq<Token>>, sorted: seq<seq<Token>>, threshold: real)
    requires RowsAreLines(rows, threshold) && |sorted| == |rows|
    requires forall k :: 0 <= k < |rows| ==> sorted[k] == Sort(rows[k], LeftToRight)
    ensures RowsAreLines(sorted, threshold)
  {
    forall x, y, a, b | 0 <= x < |sorted| && 0 <= y < |sorted| && a in sorted[x] && b in sorted[y]
      ensures x == y <==> Near(a, b, threshold)
    {
      SortKeepsMembers(rows[x], LeftToRight, a);
      SortKeepsMembers(rows[y], LeftToRight, b);
    }
  }

  // ---- Inside a row ----

  /** A row reads from left to right; tokens that begin at one column keep the order of their numbers. */
  lemma RowsReadLeftToRight(tokens: seq<Token>, k: nat, i: nat, j: nat)
    requires k < |GroupRowsSpec(tokens)| && i < j < |GroupRowsSpec(tokens)[k]|
    ensures var a, b := GroupRowsSpec(tokens)[k][i], GroupRowsSpec(tokens)[k][j];
      a.box.left < b.box.left || (a.box.left == b.box.left && a.sequence <= b.sequence)
  {
    RowsPartitionTokens(tokens);
    assert LeftToRight(GroupRowsSpec(tokens)[k][i], GroupRowsSpec(tokens)[k][j]);
  }
}

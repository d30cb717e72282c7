/** Which tokens of two engines can be one token, and which partner the matching takes. */
module MatchingChoices {
  import opened Common
  import opened Geometry
  import opened Matching
  import opened Sorting

  // ---- Compatible places, in whole pixels ----

  function Span(low: nat, high: nat): (s: set<nat>)
    ensures forall x: nat :: x in s <==> low <= x < high
    ensures |s| == Max(0, high - low)
    decreases high
  {
    if high <= low then {} else Span(low, high - 1) + {high - 1}
  }

  ghost function Columns(b: Box): set<nat> { Span(b.left, b.right) }

  ghost function Lines(b: Box): set<nat> { Span(b.top, b.bottom) }

  ghost function Pixels(b: Box): int { |Columns(b)| * |Lines(b)| }

  ghost function SharedPixels(a: Box, b: Box): int { |Columns(a) * Columns(b)| * |Lines(a) * Lines(b)| }

  function Longer(lowA: int, highA: int, lowB: int, highB: int): int {
    Max(Max(highA - lowA, highB - lowB), 1)
  }

  /** Centres at most 55% of the taller token's height and 75% of the wider token's width apart. */
  predicate CloseBy(a: Box, b: Box) {
    && 10 * Gap(a.top + a.bottom, b.top + b.bottom) <= 11 * Longer(a.top, a.bottom, b.top, b.bottom)
    && 2 * Gap(a.left + a.right, b.left + b.right) <= 3 * Longer(a.left, a.right, b.left, b.right)
  }

  /** Neither box is empty, and the smaller one has a quarter of its pixels in common with the other. */
  ghost predicate Overlapping(a: Box, b: Box) {
    QuarterShared(SharedPixels(a, b), Pixels(a), Pixels(b))
  }

  predicate QuarterShared(part: int, first: int, second: int) {
    first > 0 && second > 0 && 4 * part >= Min(first, second)
  }

  lemma SharedSpan(lowA: nat, highA: nat, lowB: nat, highB: nat)
    ensures |Span(lowA, highA) * Span(lowB, highB)| == Max(0, Min(highA, highB) - Max(lowA, lowB))
  {
    assert Span(lowA, highA) * Span(lowB, highB) == Span(Max(lowA, lowB), Min(highA, highB));
  }

  lemma PixelsAreArea(b: Box)
    ensures Pixels(b) == Area(b)
  {}

  lemma MulOrder(p: real, q: real, k: real)
    requires k > 0.0
    ensures p <= q <==> p * k <= q * k
  {}

  function SharedWidth(a: Box, b: Box): nat { Max(0, Min(a.right, b.right) - Max(a.left, b.left)) }

  function SharedHeight(a: Box, b: Box): nat { Max(0, Min(a.bottom, b.bottom) - Max(a.top, b.top)) }

  lemma SharedSides(a: Box, b: Box)
    ensures |Columns(a) * Columns(b)| == SharedWidth(a, b) && |Lines(a) * Lines(b)| == SharedHeight(a, b)
  {
    SharedSpan(a.left, a.right, b.left, b.right);
    SharedSpan(a.top, a.bottom, b.top, b.bottom);
  }

  lemma EqualProducts(w: int, h: int, x: int, y: int)
    requires w == x && h == y
    ensures w * h == x * y
  {}

  lemma SharedPixelsAre(a: Box, b: Box)
    ensures SharedPixels(a, b) == SharedWidth(a, b) * SharedHeight(a, b)
  {
    SharedSides(a, b);
    EqualProducts(|Columns(a) * Columns(b)|, |Lines(a) * Lines(b)|, SharedWidth(a, b), SharedHeight(a, b));
  }

  lemma OverlapIs(a: Box, b: Box)
    ensures Overlap(a, b) == if Min(Area(a), Area(b)) == 0 then 0.0
                             else (SharedWidth(a, b) * SharedHeight(a, b)) as real / Min(Area(a), Area(b)) as real
  {}

  lemma QuarterOverlap(a: Box, b: Box, part: int, first: int, second: int)
    requires part == SharedWidth(a, b) * SharedHeight(a, b) && first == Area(a) && second == Area(b)
    ensures Overlap(a, b) >= 0.25 <==> QuarterShared(part, first, second)
  {
    OverlapIs(a, b);
    if Min(first, second) > 0 {
      QuarterIff(part, Min(first, second));
    }
  }

  lemma OverlapIff(a: Box, b: Box)
    ensures Overlap(a, b) >= 0.25 <==> Overlapping(a, b)
  {
    QuarterOverlap(a, b, SharedPixels(a, b), Pixels(a), Pixels(b)) by {
      PixelsAreArea(a);
      PixelsAreArea(b);
      SharedPixelsAre(a, b);
    }
  }

  lemma QuarterIff(part: int, whole: int)
    requires whole > 0
    ensures part as real / whole as real >= 0.25 <==> 4 * part >= whole
  {
    var r := part as real / whole as real;
    assert r * whole as real == part as real;
    MulOrder(0.25, r, whole as real);
  }

  lemma HalfGap(x: int, y: int)
    ensures Distance(x as real / 2.0, y as real / 2.0) == Gap(x, y) as real / 2.0
  {}

  lemma RatioIff(gap: int, scale: int, limit: real)
    requires scale > 0
    ensures gap as real / 2.0 / scale as real <= limit <==> gap as real <= 2.0 * (limit * scale as real)
  {
    var r := gap as real / 2.0 / scale as real;
    assert r * scale as real == gap as real / 2.0;
    MulOrder(r, limit, scale as real);
  }

  lemma CloseByIff(a: Box, b: Box)
    ensures VerticalDistance(a, b) <= 0.55 && HorizontalDistance(a, b) <= 0.75 <==> CloseBy(a, b)
  {
    HalfGap(a.top + a.bottom, b.top + b.bottom);
    RatioIff(Gap(a.top + a.bottom, b.top + b.bottom), Longer(a.top, a.bottom, b.top, b.bottom), 0.55);
    HalfGap(a.left + a.right, b.left + b.right);
    RatioIff(Gap(a.left + a.right, b.left + b.right), Longer(a.left, a.right, b.left, b.right), 0.75);
  }

  /** Two tokens can be one token if and only if their boxes share enough pixels or lie close by. */
  lemma CompatibleIff(a: Box, b: Box)
    ensures Compatible(a, b) <==> Overlapping(a, b) || CloseBy(a, b)
  {
    OverlapIff(a, b);
    CloseByIff(a, b);
  }

  lemma OverlapIsSymmetric(a: Box, b: Box)
    ensures Overlap(a, b) == Overlap(b, a)
  {
    OverlapIs(a, b);
    OverlapIs(b, a);
    EqualProducts(SharedWidth(a, b), SharedHeight(a, b), SharedWidth(b, a), SharedHeight(b, a));
  }

  lemma DistancesAreSymmetric(a: Box, b: Box)
    ensures VerticalDistance(a, b) == VerticalDistance(b, a) && HorizontalDistance(a, b) == HorizontalDistance(b, a)
  {}

  /** Whichever engine is called the first. */
  lemma CompatibleIsSymmetric(a: Box, b: Box)
    ensures Compatible(a, b) <==> Compatible(b, a)
  {
    OverlapIsSymmetric(a, b);
    DistancesAreSymmetric(a, b);
  }

  // ---- The partner taken ----

  /** More similar, or as similar with no smaller overlap. */
  predicate AsGood(rules: TextRules, c: Candidate, x: Candidate, y: Candidate) {
    var sx, sy := rules.similarity(c.text, x.text), rules.similarity(c.text, y.text);
    sx >= sy && (sx == sy ==> Overlap(c.box, x.box) >= Overlap(c.box, y.box))
  }

  /** Token i of the first engine is paired with the best of the compatible tokens that the earlier ones left over,
      the first of equals, and that one is left over no longer; it stays alone when there is none. */
  lemma BestPartner(rules: TextRules, primary: seq<Candidate>, secondary: seq<Candidate>, i: nat)
    requires i < |primary|
    ensures var before, after := Greedy(rules, primary[..i], secondary), Greedy(rules, primary[..i + 1], secondary);
      && |after.groups| > i && after.groups == before.groups + [after.groups[i]]
      && if forall j: nat :: j in before.available && j < |secondary| ==> !Compatible(primary[i].box, secondary[j].box)
         then after.groups[i].tokens == [primary[i]] && after.available == before.available
         else exists j: nat :: TakesBest(rules, primary[i], secondary, before, after, j)
  {
    var before, after := Greedy(rules, primary[..i], secondary), Greedy(rules, primary[..i + 1], secondary);
    var c := primary[i];
    GreedyExplained(rules, primary[..i], secondary);
    assert primary[..i + 1][..i] == primary[..i] && primary[..i + 1][i] == c;
    assert after == Step(rules, c, secondary, before);
    var best := Best(rules, c, secondary, before.available, |secondary|);
    if best.Some? {
      assert Compatible(c.box, secondary[best.value].box);
      forall k: nat {:trigger secondary[k]}
        | k in before.available && k < |secondary| && Compatible(c.box, secondary[k].box)
        ensures AsGood(rules, c, secondary[best.value], secondary[k])
        ensures k < best.value ==> !AsGood(rules, c, secondary[k], secondary[best.value])
      {
        assert Usable(c, secondary, before.available, k);
      }
      assert TakesBest(rules, c, secondary, before, after, best.value);
    } else {
      forall j: nat | j in before.available && j < |secondary| ensures !Compatible(c.box, secondary[j].box) {
        assert !Usable(c, secondary, before.available, j);
      }
    }
  }

  ghost predicate TakesBest(rules: TextRules, c: Candidate, secondary: seq<Candidate>, before: Progress,
                            after: Progress, j: nat)
  {
    && j in before.available && j < |secondary| && Compatible(c.box, secondary[j].box)
    && after.groups != [] && after.groups[|after.groups| - 1].tokens == [c, secondary[j]]
    && after.available == before.available - {j}
    && forall k: nat {:trigger secondary[k]} ::
         k in before.available && k < |secondary| && Compatible(c.box, secondary[k].box) ==>
           AsGood(rules, c, secondary[j], secondary[k])
           && (k < j ==> !AsGood(rules, c, secondary[k], secondary[j]))
  }

  // ---- The order of the groups ----

  lemma RegionOrderIsTotal()
    ensures TotalPreorder(RegionOrder)
  {}

  /** The groups come top to bottom, then left to right; at one corner conflicts before matches before single tokens. */
  lemma GroupsAreOrdered(rules: TextRules, primary: seq<Candidate>, secondary: seq<Candidate>, i: nat, j: nat)
    requires i < j < |MatchSpec(rules, primary, secondary)|
    ensures var a, b := MatchSpec(rules, primary, secondary)[i], MatchSpec(rules, primary, secondary)[j];
      && a.region.top <= b.region.top
      && (a.region.top == b.region.top ==> a.region.left <= b.region.left)
      && (a.region.top == b.region.top && a.region.left == b.region.left ==>
            a.status == b.status || a.status == Conflict || b.status == Unmatched)
  {
    var p := Greedy(rules, primary, secondary);
    RegionOrderIsTotal();
    SortSorted(p.groups + Singles(Remaining(secondary, p.available, |secondary|)), RegionOrder);
    assert RegionOrder(MatchSpec(rules, primary, secondary)[i], MatchSpec(rules, primary, secondary)[j]);
  }
}

/** Pairing the tokens of two OCR engines (apps/ocr/matching.py). Ratios are exact rationals; text similarity is a
    parameter. */
module Matching {
  import opened Common
  import opened Geometry
  import opened Sorting
  import opened Text

  /** The fuzzy ratio and the structured-value pattern, both supplied by libraries. */
  datatype TextRules = TextRules(similarity: (string, string) -> real, structured: string -> bool)

  datatype Candidate = Candidate(engine: string, text: string, confidence: real, box: Box)

  datatype Status = Conflict | Matched | Unmatched

  datatype Group = Group(status: Status, tokens: seq<Candidate>, region: Box, similarity: real)

  const FUZZY_THRESHOLD: real := 82.0

  function Min(a: int, b: int): int { if a <= b then a else b }
  function Max(a: int, b: int): int { if a <= b then b else a }

  function Area(b: Box): nat {
    Max(0, b.right - b.left) * Max(0, b.bottom - b.top)
  }

  function Overlap(a: Box, b: Box): real {
    var width := Max(0, Min(a.right, b.right) - Max(a.left, b.left));
    var height := Max(0, Min(a.bottom, b.bottom) - Max(a.top, b.top));
    var smallest := Min(Area(a), Area(b));
    if smallest == 0 then 0.0 else (width * height) as real / smallest as real
  }

  function VerticalDistance(a: Box, b: Box): real {
    var scale := Max(Max(a.bottom - a.top, b.bottom - b.top), 1);
    Distance((a.top + a.bottom) as real / 2.0, (b.top + b.bottom) as real / 2.0) / scale as real
  }

  function HorizontalDistance(a: Box, b: Box): real {
    var scale := Max(Max(a.right - a.left, b.right - b.left), 1);
    Distance((a.left + a.right) as real / 2.0, (b.left + b.right) as real / 2.0) / scale as real
  }

  predicate Compatible(a: Box, b: Box) {
    || Overlap(a, b) >= 0.25
    || (VerticalDistance(a, b) <= 0.55 && HorizontalDistance(a, b) <= 0.75)
  }

  function Union(a: Box, b: Box): Box {
    Box(Min(a.left, b.left), Min(a.top, b.top), Max(a.right, b.right), Max(a.bottom, b.bottom))
  }

  /** Strictly better by (similarity, overlap). */
  predicate Better(rules: TextRules, c: Candidate, x: Candidate, y: Candidate) {
    var sx, sy := rules.similarity(c.text, x.text), rules.similarity(c.text, y.text);
    sx > sy || (sx == sy && Overlap(c.box, x.box) > Overlap(c.box, y.box))
  }

  predicate Usable(c: Candidate, secondary: seq<Candidate>, available: set<nat>, j: nat)
    requires j < |secondary|
  {
    j in available && Compatible(c.box, secondary[j].box)
  }

  /** The first best usable token among the first `n`, scanning indexes upwards. */
  function Best(rules: TextRules, c: Candidate, secondary: seq<Candidate>, available: set<nat>, n: nat)
    : (best: Option<nat>)
    requires n <= |secondary|
    ensures best.Some? ==> best.value < n && Usable(c, secondary, available, best.value)
    ensures best.None? <==> forall j :: 0 <= j < n ==> !Usable(c, secondary, available, j)
    ensures best.Some? ==> forall j :: 0 <= j < n && Usable(c, secondary, available, j) ==>
      !Better(rules, c, secondary[j], secondary[best.value])
    ensures best.Some? ==> forall j :: 0 <= j < best.value && Usable(c, secondary, available, j) ==>
      Better(rules, c, secondary[best.value], secondary[j])
  {
    if n == 0 then None else
      var before := Best(rules, c, secondary, available, n - 1);
      if !Usable(c, secondary, available, n - 1) then before
      else if before.None? || Better(rules, c, secondary[n - 1], secondary[before.value]) then Some(n - 1)
      else before
  }

  function Single(c: Candidate): Group {
    Group(Unmatched, [c], c.box, 0.0)
  }

  function Pair(rules: TextRules, c: Candidate, other: Candidate): Group {
    var similarity := rules.similarity(c.text, other.text);
    var disagree := c.text != other.text && (rules.structured(c.text) || rules.structured(other.text));
    Group(if similarity >= FUZZY_THRESHOLD && !disagree then Matched else Conflict,
          [c, other], Union(c.box, other.box), similarity)
  }

  datatype Progress = Progress(groups: seq<Group>, available: set<nat>)

  function AllIndexes(n: nat): (s: set<nat>)
    ensures forall i: nat :: i in s <==> i < n
  {
    if n == 0 then {} else AllIndexes(n - 1) + {n - 1}
  }

  function Step(rules: TextRules, c: Candidate, secondary: seq<Candidate>, p: Progress): Progress {
    match Best(rules, c, secondary, p.available, |secondary|)
    case None => Progress(p.groups + [Single(c)], p.available)
    case Some(j) => Progress(p.groups + [Pair(rules, c, secondary[j])], p.available - {j})
  }

  function Greedy(rules: TextRules, primary: seq<Candidate>, secondary: seq<Candidate>): Progress {
    if primary == [] then Progress([], AllIndexes(|secondary|))
    else Step(rules, primary[|primary| - 1], secondary, Greedy(rules, primary[..|primary| - 1], secondary))
  }

  /** The tokens still available among the first `n`, in index order. */
  function Remaining(secondary: seq<Candidate>, available: set<nat>, n: nat): seq<Candidate>
    requires n <= |secondary|
  {
    if n == 0 then [] else
      Remaining(secondary, available, n - 1) + if n - 1 in available then [secondary[n - 1]] else []
  }

  function Singles(tokens: seq<Candidate>): seq<Group> {
    seq(|tokens|, i requires 0 <= i < |tokens| => Single(tokens[i]))
  }

  predicate RegionOrder(a: Group, b: Group) {
    || a.region.top < b.region.top
    || (a.region.top == b.region.top
        && (a.region.left < b.region.left || (a.region.left == b.region.left && Rank(a.status) <= Rank(b.status))))
  }

  /** Alphabetical order of the stored status values. */
  function Rank(s: Status): int {
    match s case Conflict => 0 case Matched => 1 case Unmatched => 2
  }

  function MatchSpec(rules: TextRules, primary: seq<Candidate>, secondary: seq<Candidate>): seq<Group> {
    var p := Greedy(rules, primary, secondary);
    Sort(p.groups + Singles(Remaining(secondary, p.available, |secondary|)), RegionOrder)
  }

  method FindBest(rules: TextRules, c: Candidate, secondary: seq<Candidate>, available: set<nat>)
    returns (best: Option<nat>)
    ensures best == Best(rules, c, secondary, available, |secondary|)
  {
    best := None;
    for j := 0 to |secondary|
      invariant best == Best(rules, c, secondary, available, j)
    {
      if j in available && Compatible(c.box, secondary[j].box) {
        if best.None? || Better(rules, c, secondary[j], secondary[best.value]) {
          best := Some(j);
        }
      }
    }
  }

  /** The set of available tokens shrinks while the list of groups grows. */
  method MatchEngineTokens(rules: TextRules, primary: seq<Candidate>, secondary: seq<Candidate>)
    returns (result: seq<Group>)
    ensures result == MatchSpec(rules, primary, secondary)
  {
    var available, groups := AllIndexes(|secondary|), [];
    for i := 0 to |primary|
      invariant Progress(groups, available) == Greedy(rules, primary[..i], secondary)
    {
      assert primary[..i + 1][..i] == primary[..i];
      var best := FindBest(rules, primary[i], secondary, available);
      if best.None? {
        groups := groups + [Single(primary[i])];
      } else {
        available := available - {best.value};
        groups := groups + [Pair(rules, primary[i], secondary[best.value])];
      }
    }
    assert primary[..|primary|] == primary;
    var left: seq<Candidate> := [];
    for j := 0 to |secondary|
      invariant left == Remaining(secondary, available, j)
    {
      if j in available {
        left := left + [secondary[j]];
      }
    }
    result := Sort(groups + Singles(left), RegionOrder);
  }

  // ---- Conservation ----

  function Tokens(groups: seq<Group>): seq<Candidate> {
    if groups == [] then [] else Tokens(groups[..|groups| - 1]) + groups[|groups| - 1].tokens
  }

  lemma {:induction false} TokensAppend(a: seq<Group>, b: seq<Group>)
    ensures Tokens(a + b) == Tokens(a) + Tokens(b)
  {
    if b == [] {
      assert a + b == a;
    } else {
      var n := |b| - 1;
      assert (a + b)[..|a| + n] == a + b[..n];
      TokensAppend(a, b[..n]);
    }
  }

  lemma {:induction false} SinglesKeepTokens(tokens: seq<Candidate>)
    ensures Tokens(Singles(tokens)) == tokens
  {
    if tokens != [] {
      var n := |tokens| - 1;
      assert Singles(tokens)[..n] == Singles(tokens[..n]);
      SinglesKeepTokens(tokens[..n]);
    }
  }

  lemma {:induction false} RemainingAll(secondary: seq<Candidate>, n: nat)
    requires n <= |secondary|
    ensures Remaining(secondary, AllIndexes(|secondary|), n) == secondary[..n]
  {
    if n > 0 {
      RemainingAll(secondary, n - 1);
    }
  }

  /** The candidate at n, when it is available, as a multiset. */
  function Offered(secondary: seq<Candidate>, available: set<nat>, n: nat): multiset<Candidate>
    requires n < |secondary|
  {
    if n in available then multiset{secondary[n]} else multiset{}
  }

  lemma RemainingNext(secondary: seq<Candidate>, available: set<nat>, n: nat)
    requires n < |secondary|
    ensures multiset(Remaining(secondary, available, n + 1))
         == multiset(Remaining(secondary, available, n)) + Offered(secondary, available, n)
  {
    var before := Remaining(secondary, available, n);
    if n in available {
      assert multiset(before + [secondary[n]]) == multiset(before) + multiset{secondary[n]};
    } else {
      assert before + [] == before;
    }
  }

  lemma SumsPair<T>(a: multiset<T>, b: multiset<T>, z: multiset<T>, x: multiset<T>, y: multiset<T>, w: multiset<T>)
    requires a == b + z && x == y + w
    ensures a + x == (b + y) + (z + w)
  {
    assert forall t :: (a + x)[t] == ((b + y) + (z + w))[t];
  }

  function Taken(secondary: seq<Candidate>, j: nat, taken: bool): multiset<Candidate>
    requires j < |secondary|
  {
    if taken then multiset{secondary[j]} else multiset{}
  }

  lemma OfferedMinus(secondary: seq<Candidate>, available: set<nat>, j: nat, n: nat)
    requires n < |secondary| && j in available && j < |secondary|
    ensures Offered(secondary, available, n) == Offered(secondary, available - {j}, n) + Taken(secondary, j, j == n)
    ensures Taken(secondary, j, j < n) + Taken(secondary, j, j == n) == Taken(secondary, j, j < n + 1)
  {}

  /** Taking token j away removes it, and only it, from the first n. */
  ghost predicate Minus(secondary: seq<Candidate>, available: set<nat>, j: nat, n: nat)
    requires n <= |secondary| && j < |secondary|
  {
    multiset(Remaining(secondary, available, n))
      == multiset(Remaining(secondary, available - {j}, n)) + Taken(secondary, j, j < n)
  }

  lemma MinusStart(secondary: seq<Candidate>, available: set<nat>, j: nat)
    requires j < |secondary|
    ensures Minus(secondary, available, j, 0)
  {}

  lemma MinusNext(secondary: seq<Candidate>, available: set<nat>, j: nat, n: nat)
    requires n < |secondary| && j in available && j < |secondary| && Minus(secondary, available, j, n)
    ensures Minus(secondary, available, j, n + 1)
  {
    RemainingNext(secondary, available, n);
    RemainingNext(secondary, available - {j}, n);
    OfferedMinus(secondary, available, j, n);
    SumsPair(multiset(Remaining(secondary, available, n)), multiset(Remaining(secondary, available - {j}, n)),
             Taken(secondary, j, j < n), Offered(secondary, available, n), Offered(secondary, available - {j}, n),
             Taken(secondary, j, j == n));
  }

  lemma RemainingMinus(secondary: seq<Candidate>, available: set<nat>, j: nat, n: nat)
    requires n <= |secondary| && j in available && j < |secondary|
    ensures Minus(secondary, available, j, n)
  {
    MinusStart(secondary, available, j);
    for k := 0 to n
      invariant Minus(secondary, available, j, k)
    {
      MinusNext(secondary, available, j, k);
    }
  }

  ghost predicate Conserved(p: Progress, primary: seq<Candidate>, secondary: seq<Candidate>) {
    multiset(Tokens(p.groups)) + multiset(Remaining(secondary, p.available, |secondary|))
      == multiset(primary) + multiset(secondary)
  }

  lemma SumAlone<T>(t: multiset<T>, rest: multiset<T>, d: multiset<T>, s: multiset<T>, c: multiset<T>)
    requires t + rest == d + s
    ensures (t + c) + rest == (d + c) + s
  {
    assert forall x :: ((t + c) + rest)[x] == (t + rest)[x] + c[x] && ((d + c) + s)[x] == (d + s)[x] + c[x];
  }

  lemma TokensOfOneMore(groups: seq<Group>, g: Group)
    ensures multiset(Tokens(groups + [g])) == multiset(Tokens(groups)) + multiset(g.tokens)
  {
    TokensAppend(groups, [g]);
    assert Tokens([g]) == g.tokens;
  }

  lemma AloneConserves(p: Progress, done: seq<Candidate>, c: Candidate, secondary: seq<Candidate>)
    requires Conserved(p, done, secondary)
    ensures Conserved(Progress(p.groups + [Single(c)], p.available), done + [c], secondary)
  {
    TokensOfOneMore(p.groups, Single(c));
    assert multiset(Single(c).tokens) == multiset{c};
    assert multiset(done + [c]) == multiset(done) + multiset{c};
    SumAlone(multiset(Tokens(p.groups)), multiset(Remaining(secondary, p.available, |secondary|)),
             multiset(done), multiset(secondary), multiset{c});
  }

  lemma PairConserves(rules: TextRules, p: Progress, done: seq<Candidate>, c: Candidate, secondary: seq<Candidate>,
                      j: nat)
    requires Conserved(p, done, secondary) && j in p.available && j < |secondary|
    ensures Conserved(Progress(p.groups + [Pair(rules, c, secondary[j])], p.available - {j}), done + [c], secondary)
  {
    var g, o := Pair(rules, c, secondary[j]), multiset{secondary[j]};
    var t, rest := multiset(Tokens(p.groups)), multiset(Remaining(secondary, p.available - {j}, |secondary|));
    TokensOfOneMore(p.groups, g);
    assert g.tokens == [c] + [secondary[j]];
    assert multiset(g.tokens) == multiset{c} + o;
    assert multiset(done + [c]) == multiset(done) + multiset{c};
    RemainingMinus(secondary, p.available, j, |secondary|);
    SumAlone(t, rest + o, multiset(done), multiset(secondary), multiset{c});
    assert (t + (multiset{c} + o)) + rest == (t + multiset{c}) + (rest + o);
  }

  lemma StepConserves(rules: TextRules, p: Progress, done: seq<Candidate>, c: Candidate, secondary: seq<Candidate>)
    requires Conserved(p, done, secondary)
    ensures Conserved(Step(rules, c, secondary, p), done + [c], secondary)
  {
    var best := Best(rules, c, secondary, p.available, |secondary|);
    if best.None? {
      AloneConserves(p, done, c, secondary);
    } else {
      PairConserves(rules, p, done, c, secondary, best.value);
    }
  }

  lemma {:induction false} GreedyConserves(rules: TextRules, primary: seq<Candidate>, secondary: seq<Candidate>)
    ensures Conserved(Greedy(rules, primary, secondary), primary, secondary)
  {
    if primary == [] {
      RemainingAll(secondary, |secondary|);
      assert secondary[..|secondary|] == secondary;
    } else {
      var n := |primary| - 1;
      GreedyConserves(rules, primary[..n], secondary);
      StepConserves(rules, Greedy(rules, primary[..n], secondary), primary[..n], primary[n], secondary);
      assert primary == primary[..n] + [primary[n]];
    }
  }

  lemma TokensCons(g: Group, rest: seq<Group>)
    ensures Tokens([g] + rest) == g.tokens + Tokens(rest)
  {
    TokensAppend([g], rest);
    assert Tokens([g]) == g.tokens;
  }

  lemma {:induction false} InsertKeepsTokens(g: Group, s: seq<Group>)
    ensures multiset(Tokens(Insert(g, s, RegionOrder))) == multiset(g.tokens) + multiset(Tokens(s))
  {
    TokensCons(g, s);
    if s != [] && !RegionOrder(g, s[0]) {
      InsertKeepsTokens(g, s[1..]);
      TokensCons(s[0], Insert(g, s[1..], RegionOrder));
      assert s == [s[0]] + s[1..];
      TokensCons(s[0], s[1..]);
    }
  }

  lemma {:induction false} SortKeepsTokens(groups: seq<Group>)
    ensures multiset(Tokens(Sort(groups, RegionOrder))) == multiset(Tokens(groups))
  {
    if groups != [] {
      SortKeepsTokens(groups[1..]);
      InsertKeepsTokens(groups[0], Sort(groups[1..], RegionOrder));
      assert groups == [groups[0]] + groups[1..];
      TokensCons(groups[0], groups[1..]);
    }
  }

  /** Each primary and each secondary token lands in exactly one group. */
  lemma MatchingConservesTokens(rules: TextRules, primary: seq<Candidate>, secondary: seq<Candidate>)
    ensures multiset(Tokens(MatchSpec(rules, primary, secondary))) == multiset(primary) + multiset(secondary)
  {
    var p := Greedy(rules, primary, secondary);
    var left := Remaining(secondary, p.available, |secondary|);
    GreedyConserves(rules, primary, secondary);
    SortKeepsTokens(p.groups + Singles(left));
    TokensAppend(p.groups, Singles(left));
    SinglesKeepTokens(left);
  }

  // ---- What a pair and what a leftover mean ----

  ghost predicate SoundGroup(rules: TextRules, g: Group, primary: seq<Candidate>, secondary: seq<Candidate>) {
    || (|g.tokens| == 1 && g == Single(g.tokens[0]))
    || (|g.tokens| == 2 && g.tokens[0] in primary && g.tokens[1] in secondary
        && Compatible(g.tokens[0].box, g.tokens[1].box) && g == Pair(rules, g.tokens[0], g.tokens[1]))
  }

  /** The i-th group starts with the i-th primary token, and a lone one is compatible with nothing available. */
  ghost predicate Explained(rules: TextRules, p: Progress, primary: seq<Candidate>, secondary: seq<Candidate>) {
    && |p.groups| == |primary|
    && (forall i :: 0 <= i < |primary| ==>
          && SoundGroup(rules, p.groups[i], primary, secondary)
          && p.groups[i].tokens[0] == primary[i]
          && (|p.groups[i].tokens| == 1 ==> Missed(primary[i], secondary, p.available)))
  }

  /** Nothing available among the second engine's tokens is compatible with this one. */
  ghost predicate Missed(c: Candidate, secondary: seq<Candidate>, available: set<nat>) {
    forall j: nat :: j < |secondary| && j in available ==> !Compatible(c.box, secondary[j].box)
  }

  lemma SoundInLarger(rules: TextRules, g: Group, done: seq<Candidate>, c: Candidate, secondary: seq<Candidate>)
    requires SoundGroup(rules, g, done, secondary)
    ensures SoundGroup(rules, g, done + [c], secondary)
  {}

  lemma MissedByFewer(c: Candidate, secondary: seq<Candidate>, available: set<nat>, fewer: set<nat>)
    requires Missed(c, secondary, available) && fewer <= available
    ensures Missed(c, secondary, fewer)
  {}

  lemma NewGroupExplained(rules: TextRules, p: Progress, done: seq<Candidate>, c: Candidate, secondary: seq<Candidate>)
    ensures var after := Step(rules, c, secondary, p);
      && after.available <= p.available
      && |after.groups| == |p.groups| + 1 && after.groups[..|p.groups|] == p.groups
      && SoundGroup(rules, after.groups[|p.groups|], done + [c], secondary)
      && after.groups[|p.groups|].tokens[0] == c
      && (|after.groups[|p.groups|].tokens| == 1 ==> Missed(c, secondary, after.available))
  {
    var best := Best(rules, c, secondary, p.available, |secondary|);
    if best.None? {
      forall j: nat | j < |secondary| && j in p.available ensures !Compatible(c.box, secondary[j].box) {
        assert !Usable(c, secondary, p.available, j);
      }
    }
  }

  lemma StepExplained(rules: TextRules, p: Progress, done: seq<Candidate>, c: Candidate, secondary: seq<Candidate>)
    requires Explained(rules, p, done, secondary)
    ensures Explained(rules, Step(rules, c, secondary, p), done + [c], secondary)
  {
    var after, all := Step(rules, c, secondary, p), done + [c];
    NewGroupExplained(rules, p, done, c, secondary);
    forall i | 0 <= i < |done|
      ensures SoundGroup(rules, after.groups[i], all, secondary)
      ensures after.groups[i].tokens[0] == all[i]
      ensures |after.groups[i].tokens| == 1 ==> Missed(all[i], secondary, after.available)
    {
      assert after.groups[i] == p.groups[i];
      SoundInLarger(rules, p.groups[i], done, c, secondary);
      if |p.groups[i].tokens| == 1 {
        MissedByFewer(done[i], secondary, p.available, after.available);
      }
    }
  }

  lemma {:induction false} GreedyExplained(rules: TextRules, primary: seq<Candidate>, secondary: seq<Candidate>)
    ensures Explained(rules, Greedy(rules, primary, secondary), primary, secondary)
  {
    if primary != [] {
      var n := |primary| - 1;
      GreedyExplained(rules, primary[..n], secondary);
      StepExplained(rules, Greedy(rules, primary[..n], secondary), primary[..n], primary[n], secondary);
      assert primary == primary[..n] + [primary[n]];
    }
  }

  /** Greedy matching is maximal: a token of the first engine left alone is compatible with no token of
      the second engine left alone; every pair is spatially compatible and scored by the rules. */
  lemma MatchingIsMaximal(rules: TextRules, primary: seq<Candidate>, secondary: seq<Candidate>)
    ensures forall g :: g in MatchSpec(rules, primary, secondary) ==> SoundGroup(rules, g, primary, secondary)
    ensures Explained(rules, Greedy(rules, primary, secondary), primary, secondary)
  {
    GreedyExplained(rules, primary, secondary);
    AllSound(rules, Greedy(rules, primary, secondary), primary, secondary);
  }

  lemma UnsortedSound(rules: TextRules, p: Progress, primary: seq<Candidate>, secondary: seq<Candidate>, g: Group)
    requires Explained(rules, p, primary, secondary)
    requires g in p.groups + Singles(Remaining(secondary, p.available, |secondary|))
    ensures SoundGroup(rules, g, primary, secondary)
  {
    var left := Singles(Remaining(secondary, p.available, |secondary|));
    if g in left {
      var k :| 0 <= k < |left| && left[k] == g;
    } else {
      var k :| 0 <= k < |p.groups| && p.groups[k] == g;
    }
  }

  lemma AllSound(rules: TextRules, p: Progress, primary: seq<Candidate>, secondary: seq<Candidate>)
    requires Explained(rules, p, primary, secondary)
    ensures forall g :: g in Sort(p.groups + Singles(Remaining(secondary, p.available, |secondary|)), RegionOrder) ==>
      SoundGroup(rules, g, primary, secondary)
  {
    var all := p.groups + Singles(Remaining(secondary, p.available, |secondary|));
    forall g | g in Sort(all, RegionOrder) ensures SoundGroup(rules, g, primary, secondary) {
      SortKeepsMembers(all, RegionOrder, g);
      UnsortedSound(rules, p, primary, secondary, g);
    }
  }
}

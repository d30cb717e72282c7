/** What the parser is given of the OCR runs of a screenshot (apps/ocr/pipeline.py). */
module ParserInput {
  import opened Common
  import opened Geometry
  import opened Matching
  import opened Sorting
  import opened Text

  // ---- The tokens for parsing ----

  datatype Item = Item(text: string, confidence: real, box: Box, engines: seq<string>)

  datatype Normalized = Normalized(text: string, confidence: real, box: Box, sequence: int, engines: seq<string>)

  function ItemOf(c: Candidate): Item {
    Item(c.text, c.confidence, c.box, [c.engine])
  }

  function ItemsOf(run: seq<Candidate>): seq<Item> {
    seq(|run|, i requires 0 <= i < |run| => ItemOf(run[i]))
  }

  function GroupItems(g: Group): seq<Item> {
    if g.status == Matched && |g.tokens| == 2 then
      var strongest := if g.tokens[1].confidence > g.tokens[0].confidence then g.tokens[1] else g.tokens[0];
      [Item(strongest.text, strongest.confidence, g.region, [g.tokens[0].engine, g.tokens[1].engine])]
    else ItemsOf(g.tokens)
  }

  function GroupsItems(groups: seq<Group>): seq<Item> {
    if groups == [] then [] else GroupsItems(groups[..|groups| - 1]) + GroupItems(groups[|groups| - 1])
  }

  function RunsItems(runs: seq<seq<Candidate>>): seq<Item> {
    if runs == [] then [] else RunsItems(runs[..|runs| - 1]) + ItemsOf(runs[|runs| - 1])
  }

  predicate ScreenOrder(a: Item, b: Item) {
    || a.box.top < b.box.top
    || (a.box.top == b.box.top
        && (a.box.left < b.box.left || (a.box.left == b.box.left && TextAtMost(a.text, b.text))))
  }

  function Number(items: seq<Item>): seq<Normalized> {
    seq(|items|, i requires 0 <= i < |items| =>
      Normalized(items[i].text, items[i].confidence, items[i].box, i, items[i].engines))
  }

  function Collected(rules: TextRules, runs: seq<seq<Candidate>>): seq<Item> {
    if |runs| < 2 then RunsItems(runs)
    else GroupsItems(MatchSpec(rules, runs[0], runs[1])) + RunsItems(runs[2..])
  }

  function TokensForParsingSpec(rules: TextRules, runs: seq<seq<Candidate>>): seq<Normalized> {
    Number(Sort(Collected(rules, runs), ScreenOrder))
  }

  method ExtendWithRuns(base: seq<Item>, runs: seq<seq<Candidate>>) returns (grouped: seq<Item>)
    ensures grouped == base + RunsItems(runs)
  {
    grouped := base;
    for k := 0 to |runs|
      invariant grouped == base + RunsItems(runs[..k])
    {
      assert runs[..k + 1][..k] == runs[..k];
      grouped := grouped + ItemsOf(runs[k]);
    }
    assert runs[..|runs|] == runs;
  }

  method TokensForParsing(rules: TextRules, runs: seq<seq<Candidate>>) returns (result: seq<Normalized>)
    ensures result == TokensForParsingSpec(rules, runs)
  {
    var grouped: seq<Item> := [];
    if |runs| < 2 {
      grouped := ExtendWithRuns(grouped, runs);
      assert grouped == Collected(rules, runs);
    } else {
      var groups := MatchEngineTokens(rules, runs[0], runs[1]);
      for i := 0 to |groups|
        invariant grouped == GroupsItems(groups[..i])
      {
        assert groups[..i + 1][..i] == groups[..i];
        grouped := grouped + GroupItems(groups[i]);
      }
      assert groups[..|groups|] == groups;
      grouped := ExtendWithRuns(grouped, runs[2..]);
    }
    result := Number(Sort(grouped, ScreenOrder));
  }

  function MatchedCount(groups: seq<Group>): nat {
    if groups == [] then 0 else
      MatchedCount(groups[..|groups| - 1]) + if groups[|groups| - 1].status == Matched then 1 else 0
  }

  function RunTotal(runs: seq<seq<Candidate>>): nat {
    if runs == [] then 0 else RunTotal(runs[..|runs| - 1]) + |runs[|runs| - 1]|
  }

  lemma {:induction false} RunsItemsCount(runs: seq<seq<Candidate>>)
    ensures |RunsItems(runs)| == RunTotal(runs)
  {
    if runs != [] {
      RunsItemsCount(runs[..|runs| - 1]);
    }
  }

  /** A matched pair becomes one item; everything else keeps one item per token. */
  lemma {:induction false} GroupsItemsCount(groups: seq<Group>)
    requires forall i :: 0 <= i < |groups| ==> groups[i].status == Matched ==> |groups[i].tokens| == 2
    ensures |GroupsItems(groups)| + MatchedCount(groups) == |Tokens(groups)|
  {
    if groups != [] {
      GroupsItemsCount(groups[..|groups| - 1]);
    }
  }

  lemma ScreenOrderIsTotal()
    ensures TotalPreorder(ScreenOrder)
  {
    forall x, y ensures ScreenOrder(x, y) || ScreenOrder(y, x) {
      TextOrderTotal(x.text, y.text);
    }
    forall x, y, z | ScreenOrder(x, y) && ScreenOrder(y, z) ensures ScreenOrder(x, z) {
      if x.box == y.box == z.box || (x.box.top == y.box.top == z.box.top && x.box.left == y.box.left == z.box.left) {
        TextOrderTransitive(x.text, y.text, z.text);
      }
    }
  }

  /** Higher on the screen, then further left, then first by text. */
  predicate ReadBefore(a: Normalized, b: Normalized) {
    || a.box.top < b.box.top
    || (a.box.top == b.box.top && a.box.left < b.box.left)
    || (a.box.top == b.box.top && a.box.left == b.box.left && TextAtMost(a.text, b.text))
  }

  /** For two or more runs the parser sees every token once, except that each agreed pair counts once;
      the result is in screen order and numbered from zero. */
  lemma ParsingInputCounts(rules: TextRules, runs: seq<seq<Candidate>>)
    requires |runs| >= 2
    ensures var result := TokensForParsingSpec(rules, runs);
      && |result| == |runs[0]| + |runs[1]| + RunTotal(runs[2..]) - MatchedCount(MatchSpec(rules, runs[0], runs[1]))
      && (forall i :: 0 <= i < |result| ==> result[i].sequence == i)
      && (forall i, j :: 0 <= i < j < |result| ==> ReadBefore(result[i], result[j]))
  {
    var groups := MatchSpec(rules, runs[0], runs[1]);
    MatchingIsMaximal(rules, runs[0], runs[1]);
    MatchingConservesTokens(rules, runs[0], runs[1]);
    forall i | 0 <= i < |groups| && groups[i].status == Matched ensures |groups[i].tokens| == 2 {
      assert groups[i] in groups;
    }
    GroupsItemsCount(groups);
    RunsItemsCount(runs[2..]);
    assert |Tokens(groups)| == |multiset(Tokens(groups))| == |multiset(runs[0]) + multiset(runs[1])|;
    SortPermutes(Collected(rules, runs), ScreenOrder);
    ScreenOrderIsTotal();
    SortSorted(Collected(rules, runs), ScreenOrder);
  }

  // ---- Where the tokens come from ----

  predicate Encloses(u: Box, a: Box) {
    u.left <= a.left && u.top <= a.top && u.right >= a.right && u.bottom >= a.bottom
  }

  /** The smallest box around both. */
  ghost predicate IsHull(u: Box, a: Box, b: Box) {
    Encloses(u, a) && Encloses(u, b) && forall v :: Encloses(v, a) && Encloses(v, b) ==> Encloses(v, u)
  }

  /** A token that one engine read, as it read it. */
  predicate AsRead(n: Normalized, c: Candidate) {
    n.text == c.text && n.confidence == c.confidence && n.box == c.box && n.engines == [c.engine]
  }

  predicate SpeaksFor(n: Normalized, c: Candidate) { n.text == c.text && n.confidence == c.confidence }

  /** Two tokens at one place that agree: their texts are similar enough, and equal where one is a structured value. */
  predicate Agree(rules: TextRules, c: Candidate, o: Candidate) {
    && Compatible(c.box, o.box) && rules.similarity(c.text, o.text) >= 82.0
    && (rules.structured(c.text) || rules.structured(o.text) ==> c.text == o.text)
  }

  /** One token for a pair that agrees: around both, from both engines, in the words of the more confident one, of the
      first when they are equally confident. */
  ghost predicate Agreed(rules: TextRules, n: Normalized, c: Candidate, o: Candidate) {
    && Agree(rules, c, o) && IsHull(n.box, c.box, o.box) && n.engines == [c.engine, o.engine]
    && if o.confidence > c.confidence then SpeaksFor(n, o) else SpeaksFor(n, c)
  }

  predicate ReadBy(runs: seq<seq<Candidate>>, c: Candidate) { exists k :: 0 <= k < |runs| && c in runs[k] }

  /** The token is one engine's, or an agreed pair of the first two engines'. */
  ghost predicate Accounted(rules: TextRules, runs: seq<seq<Candidate>>, n: Normalized) {
    || (exists c :: ReadBy(runs, c) && AsRead(n, c))
    || (|runs| >= 2 && exists c, o :: c in runs[0] && o in runs[1] && Agreed(rules, n, c, o))
  }

  /** The token reaches the parser as it was read, or as one of an agreed pair. */
  ghost predicate Represented(rules: TextRules, runs: seq<seq<Candidate>>, result: seq<Normalized>, c: Candidate) {
    exists i :: 0 <= i < |result| && Represents(rules, runs, result[i], c)
  }

  ghost predicate Represents(rules: TextRules, runs: seq<seq<Candidate>>, n: Normalized, c: Candidate) {
    || AsRead(n, c)
    || (|runs| >= 2 && c in runs[0] && exists o :: o in runs[1] && Agreed(rules, n, c, o))
    || (|runs| >= 2 && c in runs[1] && exists p :: p in runs[0] && Agreed(rules, n, p, c))
  }

  function Numbered(x: Item, sequence: int): Normalized { Normalized(x.text, x.confidence, x.box, sequence, x.engines) }

  lemma UnionIsHull(a: Box, b: Box)
    ensures IsHull(Union(a, b), a, b)
  {}

  lemma PairAgrees(rules: TextRules, c: Candidate, o: Candidate, sequence: int)
    requires Compatible(c.box, o.box) && Pair(rules, c, o).status == Matched
    ensures GroupItems(Pair(rules, c, o)) != []
    ensures Agreed(rules, Numbered(GroupItems(Pair(rules, c, o))[0], sequence), c, o)
  {
    UnionIsHull(c.box, o.box);
  }

  lemma RunListed(run: seq<Candidate>, x: Item)
    ensures x in ItemsOf(run) <==> exists c :: c in run && x == ItemOf(c)
  {
    if c :| c in run && x == ItemOf(c) {
      var i :| 0 <= i < |run| && run[i] == c;
      assert ItemsOf(run)[i] == x;
    }
    if x in ItemsOf(run) {
      var i :| 0 <= i < |run| && ItemsOf(run)[i] == x;
      assert run[i] in run && x == ItemOf(run[i]);
    }
  }

  lemma {:induction false} RunItemsListed(runs: seq<seq<Candidate>>, x: Item)
    ensures x in RunsItems(runs) <==> exists k :: 0 <= k < |runs| && x in ItemsOf(runs[k])
  {
    if runs != [] {
      var n := |runs| - 1;
      RunItemsListed(runs[..n], x);
      assert forall k :: 0 <= k < n ==> runs[..n][k] == runs[k];
    }
  }

  /** What the matching says of a group: a pair matches if and only if its tokens agree, a pair that does not is a
      conflict, and a token alone is unmatched. */
  lemma StatusMeans(rules: TextRules, primary: seq<Candidate>, secondary: seq<Candidate>, g: Group)
    requires g in MatchSpec(rules, primary, secondary)
    ensures |g.tokens| == 1 || |g.tokens| == 2
    ensures g.status == Unmatched <==> |g.tokens| == 1
    ensures g.status == Matched <==> |g.tokens| == 2 && Agree(rules, g.tokens[0], g.tokens[1])
  {
    MatchingIsMaximal(rules, primary, secondary);
  }

  lemma {:induction false} GroupItemsListed(groups: seq<Group>, x: Item)
    ensures x in GroupsItems(groups) <==> exists i :: 0 <= i < |groups| && x in GroupItems(groups[i])
  {
    if groups != [] {
      var n := |groups| - 1;
      GroupItemsListed(groups[..n], x);
      assert forall k :: 0 <= k < n ==> groups[..n][k] == groups[k];
    }
  }

  lemma {:induction false} TokenListed(groups: seq<Group>, c: Candidate)
    ensures c in Tokens(groups) <==> exists i :: 0 <= i < |groups| && c in groups[i].tokens
  {
    if groups != [] {
      var n := |groups| - 1;
      TokenListed(groups[..n], c);
      assert forall k :: 0 <= k < n ==> groups[..n][k] == groups[k];
    }
  }

  lemma TokenOfEither(rules: TextRules, runs: seq<seq<Candidate>>, c: Candidate)
    requires |runs| >= 2
    ensures c in Tokens(MatchSpec(rules, runs[0], runs[1])) <==> c in runs[0] || c in runs[1]
  {
    MatchingConservesTokens(rules, runs[0], runs[1]);
    var tokens := Tokens(MatchSpec(rules, runs[0], runs[1]));
    assert c in tokens <==> c in multiset(tokens);
    assert c in multiset(tokens) <==> c in multiset(runs[0]) + multiset(runs[1]);
  }

  lemma GroupItemAccounted(rules: TextRules, runs: seq<seq<Candidate>>, g: Group, x: Item, sequence: int)
    requires |runs| >= 2 && g in MatchSpec(rules, runs[0], runs[1]) && x in GroupItems(g)
    ensures Accounted(rules, runs, Numbered(x, sequence))
  {
    var groups := MatchSpec(rules, runs[0], runs[1]);
    MatchingIsMaximal(rules, runs[0], runs[1]);
    if g.status == Matched && |g.tokens| == 2 {
      PairAgrees(rules, g.tokens[0], g.tokens[1], sequence);
    } else {
      var i :| 0 <= i < |g.tokens| && ItemOf(g.tokens[i]) == x;
      TokenListed(groups, g.tokens[i]);
      TokenOfEither(rules, runs, g.tokens[i]);
      assert ReadBy(runs, g.tokens[i]) && AsRead(Numbered(x, sequence), g.tokens[i]);
    }
  }

  lemma ItemAccounted(rules: TextRules, runs: seq<seq<Candidate>>, x: Item, sequence: int)
    requires x in Collected(rules, runs)
    ensures Accounted(rules, runs, Numbered(x, sequence))
  {
    var rest := if |runs| < 2 then runs else runs[2..];
    RunItemsListed(rest, x);
    if x in RunsItems(rest) {
      var k :| 0 <= k < |rest| && x in ItemsOf(rest[k]);
      RunListed(rest[k], x);
      var c :| c in rest[k] && x == ItemOf(c);
      assert c in runs[if |runs| < 2 then k else k + 2];
      assert ReadBy(runs, c) && AsRead(Numbered(x, sequence), c);
    } else {
      var groups := MatchSpec(rules, runs[0], runs[1]);
      GroupItemsListed(groups, x);
      var i :| 0 <= i < |groups| && x in GroupItems(groups[i]);
      GroupItemAccounted(rules, runs, groups[i], x, sequence);
    }
  }

  lemma GroupRepresents(rules: TextRules, runs: seq<seq<Candidate>>, g: Group, c: Candidate) returns (x: Item)
    requires |runs| >= 2 && g in MatchSpec(rules, runs[0], runs[1]) && c in g.tokens
    ensures x in GroupItems(g) && forall sequence :: Represents(rules, runs, Numbered(x, sequence), c)
  {
    MatchingIsMaximal(rules, runs[0], runs[1]);
    if g.status == Matched && |g.tokens| == 2 {
      x := GroupItems(g)[0];
      forall sequence ensures Represents(rules, runs, Numbered(x, sequence), c) {
        PairAgrees(rules, g.tokens[0], g.tokens[1], sequence);
      }
    } else {
      var i :| 0 <= i < |g.tokens| && g.tokens[i] == c;
      x := ItemOf(c);
      assert GroupItems(g)[i] == x;
    }
  }

  lemma CandidateCollected(rules: TextRules, runs: seq<seq<Candidate>>, c: Candidate) returns (x: Item)
    requires ReadBy(runs, c)
    ensures x in Collected(rules, runs) && forall sequence :: Represents(rules, runs, Numbered(x, sequence), c)
  {
    var k :| 0 <= k < |runs| && c in runs[k];
    if |runs| < 2 || k >= 2 {
      var rest := if |runs| < 2 then runs else runs[2..];
      x := ItemOf(c);
      RunListed(runs[k], x);
      assert rest[if |runs| < 2 then k else k - 2] == runs[k];
      RunItemsListed(rest, x);
    } else {
      var groups := MatchSpec(rules, runs[0], runs[1]);
      TokenOfEither(rules, runs, c);
      TokenListed(groups, c);
      var i :| 0 <= i < |groups| && c in groups[i].tokens;
      x := GroupRepresents(rules, runs, groups[i], c);
      GroupItemsListed(groups, x);
    }
  }

  lemma ResultAccounted(rules: TextRules, runs: seq<seq<Candidate>>, i: nat)
    requires i < |TokensForParsingSpec(rules, runs)|
    ensures Accounted(rules, runs, TokensForParsingSpec(rules, runs)[i])
  {
    var items := Sort(Collected(rules, runs), ScreenOrder);
    SortKeepsMembers(Collected(rules, runs), ScreenOrder, items[i]);
    ItemAccounted(rules, runs, items[i], i);
    assert TokensForParsingSpec(rules, runs)[i] == Numbered(items[i], i);
  }

  lemma SortFinds<T(!new)>(s: seq<T>, leq: (T, T) -> bool, x: T) returns (i: nat)
    requires x in s
    ensures i < |Sort(s, leq)| && Sort(s, leq)[i] == x
  {
    SortPermutes(s, leq);
    assert x in multiset(Sort(s, leq));
    i :| 0 <= i < |Sort(s, leq)| && Sort(s, leq)[i] == x;
  }

  lemma CandidateRepresented(rules: TextRules, runs: seq<seq<Candidate>>, c: Candidate)
    requires ReadBy(runs, c)
    ensures Represented(rules, runs, TokensForParsingSpec(rules, runs), c)
  {
    var x := CandidateCollected(rules, runs, c);
    var i := SortFinds(Collected(rules, runs), ScreenOrder, x);
    assert TokensForParsingSpec(rules, runs)[i] == Numbered(x, i);
    assert Represents(rules, runs, Numbered(x, i), c);
  }

  /** Every token the parser is given is one engine's own or an agreed pair, and every token that an engine read reaches
      the parser, as it was read or in an agreed pair. */
  lemma ParsingInputIsFaithful(rules: TextRules, runs: seq<seq<Candidate>>)
    ensures var result := TokensForParsingSpec(rules, runs);
      && (forall i :: 0 <= i < |result| ==> Accounted(rules, runs, result[i]))
      && (forall c :: ReadBy(runs, c) ==> Represented(rules, runs, result, c))
  {
    forall i | 0 <= i < |TokensForParsingSpec(rules, runs)|
      ensures Accounted(rules, runs, TokensForParsingSpec(rules, runs)[i])
    {
      ResultAccounted(rules, runs, i);
    }
    forall c | ReadBy(runs, c) ensures Represented(rules, runs, TokensForParsingSpec(rules, runs), c) {
      CandidateRepresented(rules, runs, c);
    }
  }
}

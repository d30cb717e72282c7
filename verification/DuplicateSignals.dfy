/** What the duplicate score is worth, which pairs become candidates, and which rows share a key. */
module DuplicateSignals {
  import opened Common
  import opened Values
  import opened Duplicates
  import opened DuplicateLaws
  import opened Sorting

  /** The ways in which two rows can agree. */
  datatype Signal =
    | SameAmount | SameInstrument | NearbyDate | SameDirection | SimilarMerchant | SameApproval | SameBalance
    | SameSource

  predicate BothKnow<T(==)>(a: Option<T>, b: Option<T>) { a.Some? && b.Some? && a.value == b.value }

  predicate Agrees(rules: MerchantRules, s: Signal, l: Facts, r: Facts) {
    match s
    case SameAmount => BothKnow(l.amount, r.amount) && l.currency == r.currency
    case SameInstrument => BothKnow(Mapped(l), Mapped(r))
    case NearbyDate => l.occurred.Some? && r.occurred.Some? && -1 <= l.occurred.value - r.occurred.value <= 1
    case SameDirection => (l.direction.Debit? && r.direction.Debit?) || (l.direction.Credit? && r.direction.Credit?)
    case SimilarMerchant => l.merchant != "" && r.merchant != "" && rules.merchantRatio(l.merchant, r.merchant) >= 85.0
    case SameApproval => l.approval == r.approval && l.approval != ""
    case SameBalance => BothKnow(l.balance, r.balance)
    case SameSource => l.sourceType == r.sourceType && l.sourceType != ""
  }

  function Weight(s: Signal): int {
    match s
    case SameAmount => 30
    case SameInstrument => 25
    case NearbyDate => 15
    case SameDirection => 10
    case SimilarMerchant => 10
    case SameApproval => 30
    case SameBalance => 15
    case SameSource => 5
  }

  /** Nothing in common, no points. */
  lemma NothingInCommon(rules: MerchantRules, l: Facts, r: Facts)
    requires forall s :: !Agrees(rules, s, l, r)
    ensures RawScore(rules, l, r) == 0
  {
    assert !Agrees(rules, SameAmount, l, r) && !Agrees(rules, SameInstrument, l, r) && !Agrees(rules, NearbyDate, l, r);
    assert !Agrees(rules, SameDirection, l, r) && !Agrees(rules, SimilarMerchant, l, r);
    assert !Agrees(rules, SameApproval, l, r) && !Agrees(rules, SameBalance, l, r) && !Agrees(rules, SameSource, l, r);
  }

  /** One more agreement is worth its weight, in whatever company: with NothingInCommon this fixes every score. */
  lemma OneMoreAgreement(rules: MerchantRules, l: Facts, r: Facts, l': Facts, r': Facts, more: Signal)
    requires Agrees(rules, more, l', r') && !Agrees(rules, more, l, r)
    requires forall s :: s != more ==> (Agrees(rules, s, l, r) <==> Agrees(rules, s, l', r'))
    ensures RawScore(rules, l', r') == RawScore(rules, l, r) + Weight(more)
  {
    SignalWorth(rules, l, r);
    SignalWorth(rules, l', r');
    assert forall s: Signal {:trigger Worth(rules, s, l, r)} :: s != more ==>
      Worth(rules, s, l, r) == Worth(rules, s, l', r');
  }

  function Worth(rules: MerchantRules, s: Signal, l: Facts, r: Facts): int {
    if Agrees(rules, s, l, r) then Weight(s) else 0
  }

  lemma WorthOfAgreement(rules: MerchantRules, s: Signal, l: Facts, r: Facts)
    ensures Worth(rules, s, l, r) == match s
      case SameAmount => Points(l.amount.Some? && l.amount == r.amount && l.currency == r.currency, EXACT_AMOUNT_POINTS)
      case SameInstrument => Points(Mapped(l).Some? && Mapped(l) == Mapped(r), SAME_INSTRUMENT_POINTS)
      case NearbyDate =>
        Points(l.occurred.Some? && r.occurred.Some? && Gap(l.occurred.value, r.occurred.value) <= 1, NEARBY_DATE_POINTS)
      case SameDirection => Points(l.direction == r.direction && l.direction != Unknown, SAME_DIRECTION_POINTS)
      case SimilarMerchant =>
        Points(MerchantSimilarity(rules, l.merchant, r.merchant) >= MERCHANT_SIMILARITY_THRESHOLD,
               MERCHANT_SIMILARITY_POINTS)
      case SameApproval => Points(l.approval != "" && l.approval == r.approval, SAME_APPROVAL_CODE_POINTS)
      case SameBalance => Points(l.balance.Some? && l.balance == r.balance, SAME_BALANCE_POINTS)
      case SameSource => Points(l.sourceType != "" && l.sourceType == r.sourceType, SAME_SOURCE_TYPE_POINTS)
  {}

  lemma SignalWorth(rules: MerchantRules, l: Facts, r: Facts)
    ensures RawScore(rules, l, r)
         == Worth(rules, SameAmount, l, r) + Worth(rules, SameInstrument, l, r) + Worth(rules, NearbyDate, l, r)
            + Worth(rules, SameDirection, l, r) + Worth(rules, SimilarMerchant, l, r)
            + Worth(rules, SameApproval, l, r) + Worth(rules, SameBalance, l, r) + Worth(rules, SameSource, l, r)
  {
    WorthOfAgreement(rules, SameAmount, l, r);
    WorthOfAgreement(rules, SameInstrument, l, r);
    WorthOfAgreement(rules, NearbyDate, l, r);
    WorthOfAgreement(rules, SameDirection, l, r);
    WorthOfAgreement(rules, SimilarMerchant, l, r);
    WorthOfAgreement(rules, SameApproval, l, r);
    WorthOfAgreement(rules, SameBalance, l, r);
    WorthOfAgreement(rules, SameSource, l, r);
  }

  const REVIEW_CANDIDATE_SCORE := 65
  const LIKELY_MERGE_SCORE := 90

  /** A day's purchase read twice from the same account: amount, account, date and direction make a review candidate,
      the approval code or the running balance with the source make it a likely merge. */
  lemma UsualDuplicate(rules: MerchantRules, l: Facts, r: Facts)
    requires l.user == r.user && l.id != r.id
    requires Agrees(rules, SameAmount, l, r) && Agrees(rules, SameInstrument, l, r)
    requires Agrees(rules, NearbyDate, l, r) && Agrees(rules, SameDirection, l, r)
    ensures ScorePair(rules, l, r) >= 80 >= REVIEW_CANDIDATE_SCORE
    ensures Agrees(rules, SameApproval, l, r) ==> ScorePair(rules, l, r) == 100
    ensures ScorePair(rules, l, r) >= LIKELY_MERGE_SCORE <==>
      Agrees(rules, SimilarMerchant, l, r) || Agrees(rules, SameApproval, l, r) || Agrees(rules, SameBalance, l, r)
  {
    SignalWorth(rules, l, r);
  }

  // ---- Which pairs become candidates ----

  /** A pair that shares no key is proposed when it scores enough and its known dates are not too far apart. */
  ghost predicate Proposed(rules: MerchantRules, l: Facts, r: Facts, minimum: int, window: int) {
    && ScorePair(rules, l, r) >= minimum
    && (l.occurred.Some? && r.occurred.Some? ==> -window <= l.occurred.value - r.occurred.value <= window)
  }

  /** Row i and a later row before row n are the pair. */
  ghost predicate InRow(rules: MerchantRules, facts: seq<Facts>, keyed: set<(string, string)>, minimum: int,
                        window: int, i: nat, n: nat, c: Candidate)
    requires i < n <= |facts|
  {
    exists j :: i < j < n && IsPair(rules, facts, keyed, minimum, window, i, j, c)
  }

  ghost predicate IsPair(rules: MerchantRules, facts: seq<Facts>, keyed: set<(string, string)>, minimum: int,
                         window: int, i: nat, j: nat, c: Candidate)
    requires i < j < |facts|
  {
    var l, r := facts[i], facts[j];
    && c.left == l.id && c.right == r.id && c.score == ScorePair(rules, l, r)
    && (c.deterministic <==> (l.id, r.id) in keyed)
    && (c.deterministic || Proposed(rules, l, r, minimum, window))
  }

  lemma {:induction false} RowHoldsPairs(rules: MerchantRules, facts: seq<Facts>, keyed: set<(string, string)>,
                                         minimum: int, window: int, i: nat, n: nat, c: Candidate)
    requires i < n <= |facts|
    ensures c in Row(rules, facts, keyed, minimum, window, i, n) <==>
      InRow(rules, facts, keyed, minimum, window, i, n, c)
    decreases n
  {
    if n > i + 1 {
      RowHoldsPairs(rules, facts, keyed, minimum, window, i, n - 1, c);
      var l, r := facts[i], facts[n - 1];
      var k := Candidate(l.id, r.id, ScorePair(rules, l, r), (l.id, r.id) in keyed);
      assert Considered(l, r, k.score, k.deterministic, minimum, window) <==>
        k.deterministic || Proposed(rules, l, r, minimum, window);
      assert IsPair(rules, facts, keyed, minimum, window, i, n - 1, c) <==>
        c == k && Considered(l, r, k.score, k.deterministic, minimum, window);
      assert InRow(rules, facts, keyed, minimum, window, i, n, c) <==>
        InRow(rules, facts, keyed, minimum, window, i, n - 1, c)
        || IsPair(rules, facts, keyed, minimum, window, i, n - 1, c);
    }
  }

  lemma {:induction false} FlatMember<T>(rows: seq<seq<T>>, x: T)
    ensures x in Flatten(rows) <==> exists k :: 0 <= k < |rows| && x in rows[k]
  {
    if rows != [] {
      var n := |rows| - 1;
      FlatMember(rows[..n], x);
      assert forall k :: 0 <= k < n ==> rows[..n][k] == rows[k];
      assert x in Flatten(rows) <==> x in Flatten(rows[..n]) || x in rows[n];
    }
  }

  /** The candidates before ranking: each pair of rows, earlier row left, that shares a key or is proposed, with its
      score and whether a key decided, and nothing else. */
  lemma PairsAreTheProposed(rules: MerchantRules, facts: seq<Facts>, keyed: set<(string, string)>, minimum: int,
                            window: int, c: Candidate)
    ensures c in Pairs(rules, facts, keyed, minimum, window, |facts|) <==>
      exists i :: 0 <= i < |facts| && InRow(rules, facts, keyed, minimum, window, i, |facts|, c)
  {
    var rows := AllRows(rules, facts, keyed, minimum, window);
    PairsAreFlat(rules, facts, keyed, minimum, window, |facts|);
    assert rows[..|facts|] == rows;
    FlatMember(rows, c);
    forall i | 0 <= i < |facts|
      ensures c in rows[i] <==> InRow(rules, facts, keyed, minimum, window, i, |facts|, c)
    {
      RowHoldsPairs(rules, facts, keyed, minimum, window, i, |facts|, c);
    }
  }

  // ---- Which candidates the cap leaves ----

  /** Keyed while the other is not, or alike in that and with at least the other's score. */
  predicate Stronger(x: Candidate, c: Candidate) {
    (x.deterministic && !c.deterministic) || (x.deterministic == c.deterministic && x.score >= c.score)
  }

  predicate UsedUpByStronger(selected: seq<Candidate>, cap: nat, id: string, c: Candidate) {
    Uses(selected, id) == cap && forall x :: x in selected && (x.left == id || x.right == id) ==> Stronger(x, c)
  }

  /** A candidate is missing from the selection only if one of its rows is used up by stronger candidates. */
  lemma OnlyWeakerAreDropped(candidates: seq<Candidate>, cap: nat, k: nat)
    requires TwoEnded(Sort(candidates, Priority)) && k < |Sort(candidates, Priority)|
    ensures var ranked := Sort(candidates, Priority);
      var c, selected := ranked[k], Select(ranked, cap);
      c in selected || UsedUpByStronger(selected, cap, c.left, c) || UsedUpByStronger(selected, cap, c.right, c)
  {
    var ranked := Sort(candidates, Priority);
    PriorityIsTotal();
    SortSorted(candidates, Priority);
    DroppedOnlyWhenFull(ranked, cap, k);
    var c, selected := ranked[k], Select(ranked, cap);
    forall x, id | x in selected && Touches(x, id) && Priority(x, c) ensures Stronger(x, c) {}
  }

  // ---- Which rows share a key ----

  predicate Coded(f: Facts) { f.approval != "" }

  predicate SameLine(a: Facts, b: Facts) {
    && BothKnow(a.amount, b.amount) && BothKnow(a.occurred, b.occurred) && a.currency == b.currency
    && a.direction == b.direction && Mapped(a) == Mapped(b)
  }

  /** Approval codes come first and are compared folded; without one on either row the whole line must agree, an
      unmapped account included; a row with a code never shares a key with a row without. */
  lemma ShareKeyIff(rules: MerchantRules, facts: seq<Facts>, i: nat, j: nat)
    requires i < j < |facts|
    ensures var a, b := facts[i], facts[j];
      SharesKey(rules, facts, i, j) <==>
        a.user == b.user
        && (Coded(a) <==> Coded(b))
        && if Coded(a) then rules.fold(a.approval) == rules.fold(b.approval) else SameLine(a, b)
  {}

  /** Two spellings of one code: the pair is keyed although the score sees no common code. */
  lemma FoldedCodeIsKeyed(rules: MerchantRules, facts: seq<Facts>, i: nat, j: nat)
    requires i < j < |facts| && facts[i].user == facts[j].user
    requires Coded(facts[i]) && Coded(facts[j]) && facts[i].approval != facts[j].approval
    requires rules.fold(facts[i].approval) == rules.fold(facts[j].approval)
    ensures SharesKey(rules, facts, i, j) && !Agrees(rules, SameApproval, facts[i], facts[j])
  {}
}

/** Duplicate scoring and capped candidate selection (apps/reconciliation/duplicates.py). */
module Duplicates {
  import opened Common
  import opened Sorting
  import opened Text
  import opened Values

  /** One decrypted observation; dates are day ordinals, identifiers are the stored text. */
  datatype Facts = Facts(
    id: string, user: string, occurred: Option<int>, amount: Option<int>, currency: string,
    direction: Direction, merchant: string, approval: string, balance: Option<int>,
    instrument: Option<string>, account: Option<string>, sourceType: string)

  /** Library behaviour: the fuzzy merchant ratio and the strip-and-casefold of an approval code. */
  datatype MerchantRules = MerchantRules(merchantRatio: (string, string) -> real, fold: string -> string)

  const EXACT_AMOUNT_POINTS := 30
  const SAME_INSTRUMENT_POINTS := 25
  const NEARBY_DATE_POINTS := 15
  const SAME_DIRECTION_POINTS := 10
  const MERCHANT_SIMILARITY_POINTS := 10
  const SAME_APPROVAL_CODE_POINTS := 30
  const SAME_BALANCE_POINTS := 15
  const SAME_SOURCE_TYPE_POINTS := 5
  const MERCHANT_SIMILARITY_THRESHOLD: real := 85.0

  function Points(holds: bool, points: int): int { if holds then points else 0 }

  function Mapped(f: Facts): Option<string> {
    if f.instrument.Some? then f.instrument else f.account
  }

  function MerchantSimilarity(rules: MerchantRules, a: string, b: string): real {
    if a == "" || b == "" then 0.0 else rules.merchantRatio(a, b)
  }

  function RawScore(rules: MerchantRules, l: Facts, r: Facts): int {
    Points(l.amount.Some? && l.amount == r.amount && l.currency == r.currency, EXACT_AMOUNT_POINTS)
    + Points(Mapped(l).Some? && Mapped(l) == Mapped(r), SAME_INSTRUMENT_POINTS)
    + Points(l.occurred.Some? && r.occurred.Some? && Gap(l.occurred.value, r.occurred.value) <= 1,
             NEARBY_DATE_POINTS)
    + Points(l.direction == r.direction && l.direction != Unknown, SAME_DIRECTION_POINTS)
    + Points(MerchantSimilarity(rules, l.merchant, r.merchant) >= MERCHANT_SIMILARITY_THRESHOLD,
             MERCHANT_SIMILARITY_POINTS)
    + Points(l.approval != "" && l.approval == r.approval, SAME_APPROVAL_CODE_POINTS)
    + Points(l.balance.Some? && l.balance == r.balance, SAME_BALANCE_POINTS)
    + Points(l.sourceType != "" && l.sourceType == r.sourceType, SAME_SOURCE_TYPE_POINTS)
  }

  function ScorePair(rules: MerchantRules, l: Facts, r: Facts): int {
    if l.user != r.user || l.id == r.id then 0
    else if RawScore(rules, l, r) > 100 then 100 else RawScore(rules, l, r)
  }

  /** Scoring does not depend on which row is called left, and stays within 0..100. */
  lemma ScoreIsSymmetricAndBounded(rules: MerchantRules, l: Facts, r: Facts)
    requires rules.merchantRatio(l.merchant, r.merchant) == rules.merchantRatio(r.merchant, l.merchant)
    ensures ScorePair(rules, l, r) == ScorePair(rules, r, l)
    ensures 0 <= ScorePair(rules, l, r) <= 100
    ensures ScorePair(rules, l, r) > 0 ==> l.user == r.user && l.id != r.id
  {}

  // ---- Deterministic keys ----

  /** What the keyed digest is taken of; the digest itself is injective and stays abstract. */
  datatype Key =
    | ApprovalKey(user: string, code: string)
    | RowKey(owner: string, mapped: Option<string>, day: int, minor: int, currency: string, direction: Direction)

  function DeterministicKey(rules: MerchantRules, f: Facts): Option<Key> {
    if f.approval != "" then Some(ApprovalKey(f.user, rules.fold(f.approval)))
    else if f.amount.None? || f.occurred.None? then None
    else Some(RowKey(f.user, Mapped(f), f.occurred.value, f.amount.value, f.currency, f.direction))
  }

  /** Positions of the first `n` facts holding a key, in input order. */
  function Holders(rules: MerchantRules, facts: seq<Facts>, key: Key, n: nat): (holders: seq<nat>)
    requires n <= |facts|
    ensures forall p :: 0 <= p < |holders| ==> holders[p] < n && DeterministicKey(rules, facts[holders[p]]) == Some(key)
    ensures forall p, q :: 0 <= p < q < |holders| ==> holders[p] < holders[q]
    ensures forall i :: 0 <= i < n && DeterministicKey(rules, facts[i]) == Some(key) ==> i in holders
  {
    if n == 0 then [] else
      var before := Holders(rules, facts, key, n - 1);
      if DeterministicKey(rules, facts[n - 1]) == Some(key) then before + [n - 1] else before
  }

  ghost predicate SharesKey(rules: MerchantRules, facts: seq<Facts>, i: nat, j: nat)
    requires i < j < |facts|
  {
    DeterministicKey(rules, facts[i]).Some? && DeterministicKey(rules, facts[i]) == DeterministicKey(rules, facts[j])
  }

  ghost predicate KeyedPairsOf(rules: MerchantRules, facts: seq<Facts>, pairs: set<(string, string)>) {
    forall l, r :: (l, r) in pairs <==>
      exists i, j :: 0 <= i < j < |facts| && facts[i].id == l && facts[j].id == r && SharesKey(rules, facts, i, j)
  }

  /** The dictionary after the first n facts. */
  ghost predicate Gathered(rules: MerchantRules, facts: seq<Facts>, grouped: map<Key, seq<nat>>, n: nat)
    requires n <= |facts|
  {
    forall k :: Lookup(grouped, k) == Holders(rules, facts, k, n)
  }

  function Lookup(grouped: map<Key, seq<nat>>, k: Key): seq<nat> {
    if k in grouped then grouped[k] else []
  }

  /** The next fact joins its own key's list and no other. */
  lemma HoldersNext(rules: MerchantRules, facts: seq<Facts>, k: Key, n: nat)
    requires n < |facts|
    ensures Holders(rules, facts, k, n + 1)
         == Holders(rules, facts, k, n) + if DeterministicKey(rules, facts[n]) == Some(k) then [n] else []
  {}

  function Gather(grouped: map<Key, seq<nat>>, key: Option<Key>, n: nat): map<Key, seq<nat>> {
    if key.Some? then grouped[key.value := Lookup(grouped, key.value) + [n]] else grouped
  }

  lemma GatherOne(rules: MerchantRules, facts: seq<Facts>, grouped: map<Key, seq<nat>>, n: nat)
    requires n < |facts| && Gathered(rules, facts, grouped, n)
    ensures Gathered(rules, facts, Gather(grouped, DeterministicKey(rules, facts[n]), n), n + 1)
  {
    var after := Gather(grouped, DeterministicKey(rules, facts[n]), n);
    forall k ensures Lookup(after, k) == Holders(rules, facts, k, n + 1) {
      HoldersNext(rules, facts, k, n);
      assert Lookup(grouped, k) == Holders(rules, facts, k, n);
    }
  }

  /** `groups.setdefault(key, []).append(...)` over the facts. */
  method GatherAll(rules: MerchantRules, facts: seq<Facts>) returns (grouped: map<Key, seq<nat>>)
    ensures Gathered(rules, facts, grouped, |facts|)
  {
    grouped := map[];
    for i := 0 to |facts|
      invariant Gathered(rules, facts, grouped, i)
    {
      GatherOne(rules, facts, grouped, i);
      grouped := Gather(grouped, DeterministicKey(rules, facts[i]), i);
    }
  }

  method GroupByKey(rules: MerchantRules, facts: seq<Facts>) returns (groups: map<Key, seq<nat>>)
    ensures forall k :: k in groups ==> groups[k] == Holders(rules, facts, k, |facts|)
    ensures forall k :: k !in groups ==> |Holders(rules, facts, k, |facts|)| <= 1
  {
    var grouped := GatherAll(rules, facts);
    groups := map k | k in grouped && |grouped[k]| > 1 :: grouped[k];
    forall k | k !in groups ensures |Holders(rules, facts, k, |facts|)| <= 1 {
      assert Lookup(grouped, k) == Holders(rules, facts, k, |facts|);
    }
    forall k | k in groups ensures groups[k] == Holders(rules, facts, k, |facts|) {
      assert Lookup(grouped, k) == Holders(rules, facts, k, |facts|);
    }
  }

  /** (l, r) are the identifiers of two group members, the right one before position `end`. */
  ghost predicate Paired(facts: seq<Facts>, group: seq<nat>, end: nat, l: string, r: string)
    requires end <= |group| && forall p :: 0 <= p < |group| ==> group[p] < |facts|
  {
    exists p, q :: 0 <= p < q < end && facts[group[p]].id == l && facts[group[q]].id == r
  }

  ghost predicate PairedWith(facts: seq<Facts>, group: seq<nat>, q: nat, end: nat, l: string, r: string)
    requires q < |group| && end <= q && forall p :: 0 <= p < |group| ==> group[p] < |facts|
  {
    facts[group[q]].id == r && exists p :: 0 <= p < end && facts[group[p]].id == l
  }

  lemma PairedGrows(facts: seq<Facts>, group: seq<nat>, q: nat, l: string, r: string)
    requires q < |group| && forall p :: 0 <= p < |group| ==> group[p] < |facts|
    ensures Paired(facts, group, q + 1, l, r) <==> Paired(facts, group, q, l, r) || PairedWith(facts, group, q, q, l, r)
  {}

  lemma PairedWithGrows(facts: seq<Facts>, group: seq<nat>, q: nat, p: nat, l: string, r: string)
    requires p < q < |group| && forall p :: 0 <= p < |group| ==> group[p] < |facts|
    ensures PairedWith(facts, group, q, p + 1, l, r) <==>
      PairedWith(facts, group, q, p, l, r) || (l == facts[group[p]].id && r == facts[group[q]].id)
  {}

  /** Pairs within one key group, left before right. */
  method PairsOfGroup(facts: seq<Facts>, group: seq<nat>) returns (pairs: set<(string, string)>)
    requires forall p :: 0 <= p < |group| ==> group[p] < |facts|
    ensures forall l, r :: (l, r) in pairs <==>
      exists p, q :: 0 <= p < q < |group| && facts[group[p]].id == l && facts[group[q]].id == r
  {
    pairs := {};
    for q := 0 to |group|
      invariant forall l, r :: (l, r) in pairs <==> Paired(facts, group, q, l, r)
    {
      for p := 0 to q
        invariant forall l, r :: (l, r) in pairs <==>
          Paired(facts, group, q, l, r) || PairedWith(facts, group, q, p, l, r)
      {
        forall l, r { PairedWithGrows(facts, group, q, p, l, r); }
        pairs := pairs + {(facts[group[p]].id, facts[group[q]].id)};
      }
      forall l, r { PairedGrows(facts, group, q, l, r); }
    }
    assert forall l, r :: Paired(facts, group, |group|, l, r) <==>
      exists p, q :: 0 <= p < q < |group| && facts[group[p]].id == l && facts[group[q]].id == r;
  }

  ghost predicate FromGroup(facts: seq<Facts>, group: seq<nat>, l: string, r: string)
    requires forall p :: 0 <= p < |group| ==> group[p] < |facts|
  {
    exists p, q :: 0 <= p < q < |group| && facts[group[p]].id == l && facts[group[q]].id == r
  }

  ghost predicate SharedAs(rules: MerchantRules, facts: seq<Facts>, key: Key, l: string, r: string) {
    exists i, j :: 0 <= i < j < |facts| && facts[i].id == l && facts[j].id == r
      && DeterministicKey(rules, facts[i]) == Some(key) && DeterministicKey(rules, facts[j]) == Some(key)
  }

  lemma SharedKeyIsInGroup(rules: MerchantRules, facts: seq<Facts>, key: Key, i: nat, j: nat)
    requires i < j < |facts|
    requires DeterministicKey(rules, facts[i]) == Some(key) && DeterministicKey(rules, facts[j]) == Some(key)
    ensures FromGroup(facts, Holders(rules, facts, key, |facts|), facts[i].id, facts[j].id)
  {
    var group := Holders(rules, facts, key, |facts|);
    assert i in group && j in group;
    var p :| 0 <= p < |group| && group[p] == i;
    var q :| 0 <= q < |group| && group[q] == j;
    assert p < q;
  }

  lemma GroupMeansSharedKey(rules: MerchantRules, facts: seq<Facts>, key: Key, l: string, r: string)
    requires FromGroup(facts, Holders(rules, facts, key, |facts|), l, r)
    ensures SharedAs(rules, facts, key, l, r)
  {
    var group := Holders(rules, facts, key, |facts|);
    var p, q :| 0 <= p < q < |group| && facts[group[p]].id == l && facts[group[q]].id == r;
    var i, j := group[p], group[q];
    assert 0 <= i < j < |facts| && facts[i].id == l && facts[j].id == r;
  }

  /** The pairs reached through a deterministic key are exactly the pairs of rows sharing one. */
  method KeyedPairs(rules: MerchantRules, facts: seq<Facts>) returns (pairs: set<(string, string)>)
    ensures KeyedPairsOf(rules, facts, pairs)
  {
    var groups := GroupByKey(rules, facts);
    var todo := groups.Keys;
    pairs := {};
    while todo != {}
      invariant todo <= groups.Keys
      invariant forall l, r :: (l, r) in pairs <==>
        exists k :: k in groups && k !in todo && FromGroup(facts, groups[k], l, r)
      decreases todo
    {
      var key :| key in todo;
      var found := PairsOfGroup(facts, groups[key]);
      assert forall l, r :: (l, r) in found <==> FromGroup(facts, groups[key], l, r);
      pairs := pairs + found;
      todo := todo - {key};
    }
    forall l, r
      ensures (l, r) in pairs <==>
        exists i, j :: 0 <= i < j < |facts| && facts[i].id == l && facts[j].id == r && SharesKey(rules, facts, i, j)
    {
      if (l, r) in pairs {
        var k :| k in groups && FromGroup(facts, groups[k], l, r);
        GroupMeansSharedKey(rules, facts, k, l, r);
        var i, j :| 0 <= i < j < |facts| && facts[i].id == l && facts[j].id == r
          && DeterministicKey(rules, facts[i]) == Some(k) && DeterministicKey(rules, facts[j]) == Some(k);
        assert SharesKey(rules, facts, i, j);
      }
      forall i, j | 0 <= i < j < |facts| && facts[i].id == l && facts[j].id == r && SharesKey(rules, facts, i, j)
        ensures (l, r) in pairs
      {
        SharedKeyIsInGroup(rules, facts, DeterministicKey(rules, facts[i]).value, i, j);
      }
    }
  }

  // ---- Candidates and the cap ----

  datatype Candidate = Candidate(left: string, right: string, score: int, deterministic: bool)

  /** Deterministic first, then higher score, then the left identifier. */
  predicate Priority(a: Candidate, b: Candidate) {
    || (a.deterministic && !b.deterministic)
    || (a.deterministic == b.deterministic
        && (a.score > b.score || (a.score == b.score && TextAtMost(a.left, b.left))))
  }

  predicate Considered(l: Facts, r: Facts, score: int, deterministic: bool, minimum: int, window: int) {
    deterministic
    || (!(l.occurred.Some? && r.occurred.Some? && Gap(l.occurred.value, r.occurred.value) > window)
        && score >= minimum)
  }

  /** The candidates pairing row j with the rows i before it, in input order. */
  function Row(rules: MerchantRules, facts: seq<Facts>, keyed: set<(string, string)>, minimum: int, window: int,
               i: nat, n: nat): seq<Candidate>
    requires i < n <= |facts|
  {
    if n == i + 1 then [] else
      var l, r := facts[i], facts[n - 1];
      var score, deterministic := ScorePair(rules, l, r), (l.id, r.id) in keyed;
      Row(rules, facts, keyed, minimum, window, i, n - 1)
      + if Considered(l, r, score, deterministic, minimum, window) then [Candidate(l.id, r.id, score, deterministic)]
        else []
  }

  function Pairs(rules: MerchantRules, facts: seq<Facts>, keyed: set<(string, string)>, minimum: int, window: int,
                 n: nat): seq<Candidate>
    requires n <= |facts|
  {
    if n == 0 then [] else
      Pairs(rules, facts, keyed, minimum, window, n - 1)
      + Row(rules, facts, keyed, minimum, window, n - 1, |facts|)
  }

  /** How many candidate endpoints an observation fills. */
  function Uses(candidates: seq<Candidate>, id: string): nat {
    if candidates == [] then 0 else
      var c := candidates[|candidates| - 1];
      Uses(candidates[..|candidates| - 1], id) + (if c.left == id then 1 else 0) + (if c.right == id then 1 else 0)
  }

  predicate Full(selected: seq<Candidate>, c: Candidate, cap: nat) {
    Uses(selected, c.left) >= cap || Uses(selected, c.right) >= cap
  }

  function Select(candidates: seq<Candidate>, cap: nat): seq<Candidate> {
    if candidates == [] then [] else
      var before := Select(candidates[..|candidates| - 1], cap);
      var c := candidates[|candidates| - 1];
      if Full(before, c, cap) then before else before + [c]
  }

  datatype Outcome = Refused | Selected(candidates: seq<Candidate>, capped: bool)

  method CollectPairs(rules: MerchantRules, facts: seq<Facts>, keyed: set<(string, string)>, minimum: int, window: int)
    returns (candidates: seq<Candidate>)
    ensures candidates == Pairs(rules, facts, keyed, minimum, window, |facts|)
  {
    candidates := [];
    for i := 0 to |facts|
      invariant candidates == Pairs(rules, facts, keyed, minimum, window, i)
    {
      ghost var before := candidates;
      for j := i + 1 to |facts|
        invariant candidates == before + Row(rules, facts, keyed, minimum, window, i, j)
      {
        var score := ScorePair(rules, facts[i], facts[j]);
        var deterministic := (facts[i].id, facts[j].id) in keyed;
        if Considered(facts[i], facts[j], score, deterministic, minimum, window) {
          candidates := candidates + [Candidate(facts[i].id, facts[j].id, score, deterministic)];
        }
      }
    }
  }

  function Counted(counts: map<string, nat>, id: string): nat {
    if id in counts then counts[id] else 0
  }

  lemma UsesAppend(selected: seq<Candidate>, c: Candidate, id: string)
    ensures Uses(selected + [c], id) ==
      Uses(selected, id) + (if c.left == id then 1 else 0) + (if c.right == id then 1 else 0)
  {
    assert (selected + [c])[..|selected|] == selected;
  }

  /** Keeps a candidate while both of its observations are under the cap, counting in a dictionary. */
  method CapCandidates(candidates: seq<Candidate>, cap: nat) returns (selected: seq<Candidate>, capped: bool)
    ensures selected == Select(candidates, cap)
    ensures capped <==> |selected| < |candidates|
  {
    selected, capped := [], false;
    var counts: map<string, nat> := map[];
    for k := 0 to |candidates|
      invariant selected == Select(candidates[..k], cap)
      invariant forall id :: Uses(selected, id) == Counted(counts, id)
      invariant |selected| <= k && (capped <==> |selected| < k)
    {
      assert candidates[..k + 1][..k] == candidates[..k];
      var c := candidates[k];
      if Counted(counts, c.left) >= cap || Counted(counts, c.right) >= cap {
        capped := true;
      } else {
        ghost var before := counts;
        counts := counts[c.left := Counted(counts, c.left) + 1];
        counts := counts[c.right := Counted(counts, c.right) + 1];
        forall id ensures Uses(selected + [c], id) == Counted(counts, id) {
          UsesAppend(selected, c, id);
          assert Uses(selected, id) == Counted(before, id);
        }
        selected := selected + [c];
      }
    }
    assert candidates[..|candidates|] == candidates;
  }

  method FindDuplicateCandidates(rules: MerchantRules, facts: seq<Facts>, minimum: int, window: int, cap: int)
    returns (outcome: Outcome, ghost keyed: set<(string, string)>)
    ensures outcome.Refused? <==> window < 0 || cap < 1
    ensures KeyedPairsOf(rules, facts, keyed)
    ensures outcome.Selected? ==>
      var ranked := Sort(Pairs(rules, facts, keyed, minimum, window, |facts|), Priority);
      outcome.candidates == Select(ranked, cap) && (outcome.capped <==> |outcome.candidates| < |ranked|)
  {
    var pairs := KeyedPairs(rules, facts);
    keyed := pairs;
    if window < 0 || cap < 1 {
      return Refused, keyed;
    }
    var candidates := CollectPairs(rules, facts, pairs, minimum, window);
    var selected, capped := CapCandidates(Sort(candidates, Priority), cap);
    outcome := Selected(selected, capped);
  }
}

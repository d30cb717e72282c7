/** What the capped selection of duplicate candidates guarantees. */
module DuplicateLaws {
  import opened Common
  import opened Duplicates
  import opened Sorting
  import opened Text
  import opened Values

  // ---- What the cap guarantees ----

  lemma PriorityIsTotal()
    ensures TotalPreorder(Priority)
  {
    forall x, y ensures Priority(x, y) || Priority(y, x) {
      TextOrderTotal(x.left, y.left);
    }
    forall x, y, z | Priority(x, y) && Priority(y, z) ensures Priority(x, z) {
      if TextAtMost(x.left, y.left) && TextAtMost(y.left, z.left) {
        TextOrderTransitive(x.left, y.left, z.left);
      }
    }
  }

  ghost predicate TwoEnded(candidates: seq<Candidate>) {
    forall k :: 0 <= k < |candidates| ==> candidates[k].left != candidates[k].right
  }

  /** No observation appears in more than the cap. */
  lemma {:induction false} CapHolds(candidates: seq<Candidate>, cap: nat, id: string)
    requires TwoEnded(candidates)
    ensures Uses(Select(candidates, cap), id) <= cap
  {
    if candidates != [] {
      var n := |candidates| - 1;
      var before := Select(candidates[..n], cap);
      CapHolds(candidates[..n], cap, id);
      assert (before + [candidates[n]])[..|before|] == before;
    }
  }

  lemma SelectGrows(candidates: seq<Candidate>, cap: nat)
    requires candidates != []
    ensures Select(candidates[..|candidates| - 1], cap) <= Select(candidates, cap)
  {}

  lemma PrefixTrans<T>(a: seq<T>, b: seq<T>, c: seq<T>)
    requires a <= b <= c
    ensures a <= c
  {}

  lemma {:induction false} SelectedEarlier(candidates: seq<Candidate>, cap: nat, m: nat)
    requires m <= |candidates|
    ensures Select(candidates[..m], cap) <= Select(candidates, cap)
    ensures |Select(candidates[..m], cap)| <= |Select(candidates, cap)|
    ensures Select(candidates, cap)[..|Select(candidates[..m], cap)|] == Select(candidates[..m], cap)
  {
    if m < |candidates| {
      var front := candidates[..|candidates| - 1];
      assert front[..m] == candidates[..m];
      SelectedEarlier(front, cap, m);
      SelectGrows(candidates, cap);
      PrefixTrans(Select(candidates[..m], cap), Select(front, cap), Select(candidates, cap));
    } else {
      assert candidates[..m] == candidates;
    }
  }

  lemma {:induction false} SelectedCameFrom(candidates: seq<Candidate>, cap: nat, c: Candidate)
    requires c in Select(candidates, cap)
    ensures c in candidates
  {
    var n := |candidates| - 1;
    if c in Select(candidates[..n], cap) {
      SelectedCameFrom(candidates[..n], cap, c);
    }
  }

  predicate Touches(c: Candidate, id: string) { c.left == id || c.right == id }

  lemma {:induction false} UsesOfNone(candidates: seq<Candidate>, id: string)
    requires Uses(candidates, id) == 0
    ensures forall c :: c in candidates ==> !Touches(c, id)
  {
    if candidates != [] {
      UsesOfNone(candidates[..|candidates| - 1], id);
    }
  }

  lemma {:induction false} UsesSplit(a: seq<Candidate>, b: seq<Candidate>, id: string)
    ensures Uses(a + b, id) == Uses(a, id) + Uses(b, id)
  {
    if b == [] {
      assert a + b == a;
    } else {
      UsesSplit(a, b[..|b| - 1], id);
      assert (a + b)[..|a + b| - 1] == a + b[..|b| - 1];
    }
  }

  predicate Dropped(candidates: seq<Candidate>, cap: nat, k: nat)
    requires k < |candidates|
  {
    Full(Select(candidates[..k], cap), candidates[k], cap)
  }

  /** In the whole selection the observation is used up, by candidates that rank at least as high as c. */
  predicate FullAbove(selected: seq<Candidate>, cap: nat, id: string, c: Candidate) {
    Uses(selected, id) == cap && forall x :: x in selected && Touches(x, id) ==> Priority(x, c)
  }

  lemma EarlierRankHigher(candidates: seq<Candidate>, cap: nat, k: nat, c: Candidate)
    requires Sorted(candidates, Priority) && k < |candidates| && c in Select(candidates[..k], cap)
    ensures Priority(c, candidates[k])
  {
    SelectedCameFrom(candidates[..k], cap, c);
    var i :| 0 <= i < k && candidates[..k][i] == c;
  }

  lemma FullStaysFull(candidates: seq<Candidate>, cap: nat, k: nat, id: string)
    requires Sorted(candidates, Priority) && TwoEnded(candidates) && k < |candidates|
    requires Uses(Select(candidates[..k], cap), id) >= cap
    ensures FullAbove(Select(candidates, cap), cap, id, candidates[k])
  {
    var earlier, selected := Select(candidates[..k], cap), Select(candidates, cap);
    SelectedEarlier(candidates, cap, k);
    var later := selected[|earlier|..];
    assert selected == earlier + later;
    UsesSplit(earlier, later, id);
    CapHolds(candidates, cap, id);
    UsesOfNone(later, id);
    forall x | x in selected && Touches(x, id) ensures Priority(x, candidates[k]) {
      assert x in earlier;
      EarlierRankHigher(candidates, cap, k, x);
    }
  }

  /** A candidate the cap drops has an observation that the returned selection uses up with candidates of no lower
      priority; any other candidate is returned. */
  lemma DroppedOnlyWhenFull(candidates: seq<Candidate>, cap: nat, k: nat)
    requires Sorted(candidates, Priority) && TwoEnded(candidates) && k < |candidates|
    ensures var selected, c := Select(candidates, cap), candidates[k];
      if Dropped(candidates, cap, k) then FullAbove(selected, cap, c.left, c) || FullAbove(selected, cap, c.right, c)
      else c in selected
  {
    var earlier, c := Select(candidates[..k], cap), candidates[k];
    if Uses(earlier, c.left) >= cap {
      FullStaysFull(candidates, cap, k, c.left);
    } else if Uses(earlier, c.right) >= cap {
      FullStaysFull(candidates, cap, k, c.right);
    } else {
      KeptIsReturned(candidates, cap, k);
    }
  }

  lemma KeptIsReturned(candidates: seq<Candidate>, cap: nat, k: nat)
    requires k < |candidates| && !Dropped(candidates, cap, k)
    ensures candidates[k] in Select(candidates, cap)
  {
    var earlier := Select(candidates[..k], cap);
    assert candidates[..k + 1][..k] == candidates[..k];
    SelectedEarlier(candidates, cap, k + 1);
    assert Select(candidates[..k + 1], cap)[|earlier|] == candidates[k];
  }

  function Deterministic(candidates: seq<Candidate>): seq<Candidate> {
    if candidates == [] then [] else
      var c := candidates[|candidates| - 1];
      Deterministic(candidates[..|candidates| - 1]) + if c.deterministic then [c] else []
  }

  lemma {:induction false} UsesGrow(candidates: seq<Candidate>, m: nat, id: string)
    requires m <= |candidates|
    ensures Uses(candidates[..m], id) <= Uses(candidates, id)
  {
    if m < |candidates| {
      UsesGrow(candidates[..|candidates| - 1], m, id);
      assert candidates[..|candidates| - 1][..m] == candidates[..m];
    } else {
      assert candidates[..m] == candidates;
    }
  }

  /** The first d candidates are the deterministic ones. */
  predicate SplitAt(candidates: seq<Candidate>, d: nat) {
    d <= |candidates| && forall k :: 0 <= k < |candidates| ==> (candidates[k].deterministic <==> k < d)
  }

  lemma {:induction false} SplitIsPrefix(candidates: seq<Candidate>, d: nat)
    requires SplitAt(candidates, d)
    ensures Deterministic(candidates) == candidates[..d]
  {
    if candidates != [] {
      var n := |candidates| - 1;
      var front := candidates[..n];
      SplitIsPrefix(front, if d <= n then d else n);
      if d <= n {
        assert front[..d] == candidates[..d];
      } else {
        assert front[..n] == front && candidates == front + [candidates[n]];
      }
    }
  }

  lemma {:induction false} SplitExists(candidates: seq<Candidate>) returns (d: nat)
    requires Sorted(candidates, Priority)
    ensures SplitAt(candidates, d)
  {
    if candidates == [] {
      d := 0;
    } else {
      var n := |candidates| - 1;
      d := SplitExists(candidates[..n]);
      if d < n {
        assert !candidates[..n][d].deterministic && Priority(candidates[d], candidates[n]);
      } else if candidates[n].deterministic {
        d := n + 1;
      }
    }
  }

  /** In rank order the deterministic candidates are a prefix. */
  lemma DeterministicPrefix(candidates: seq<Candidate>) returns (d: nat)
    requires Sorted(candidates, Priority)
    ensures d <= |candidates| && Deterministic(candidates) == candidates[..d]
    ensures forall k :: 0 <= k < |candidates| ==> (candidates[k].deterministic <==> k < d)
  {
    d := SplitExists(candidates);
    SplitIsPrefix(candidates, d);
  }

  lemma {:induction false} NoneDroppedBelowCap(candidates: seq<Candidate>, cap: nat)
    requires TwoEnded(candidates)
    requires forall id :: Uses(candidates, id) <= cap
    ensures Select(candidates, cap) == candidates
  {
    if candidates != [] {
      var n := |candidates| - 1;
      var c := candidates[n];
      forall id ensures Uses(candidates[..n], id) <= cap {
        UsesGrow(candidates, n, id);
      }
      NoneDroppedBelowCap(candidates[..n], cap);
      assert Uses(candidates, c.left) <= cap && Uses(candidates, c.right) <= cap;
      assert candidates == candidates[..n] + [c];
    }
  }

  ghost predicate PartnersWithinCap(keyed: seq<Candidate>, cap: nat) {
    forall id :: Uses(keyed, id) <= cap
  }

  /** The promise that a pair reached through a deterministic key is always returned holds if and only if
      no observation has more deterministic partners than the cap. */
  lemma AllDeterministicReturnedIff(candidates: seq<Candidate>, cap: nat)
    requires Sorted(candidates, Priority) && TwoEnded(candidates)
    ensures Deterministic(candidates) <= Select(candidates, cap)
      <==> PartnersWithinCap(Deterministic(candidates), cap)
  {
    var d := DeterministicPrefix(candidates);
    var keyed, selected := Deterministic(candidates), Select(candidates, cap);
    SelectedEarlier(candidates, cap, d);
    if PartnersWithinCap(keyed, cap) {
      NoneDroppedBelowCap(keyed, cap);
    }
    if keyed <= selected {
      assert selected[..d] == keyed;
      forall id ensures Uses(keyed, id) <= cap {
        CapHolds(candidates, cap, id);
        UsesGrow(selected, d, id);
      }
    }
  }

  // ---- The laws apply to what the function returns ----

  predicate DistinctIds(facts: seq<Facts>) {
    forall i, j :: 0 <= i < j < |facts| ==> facts[i].id != facts[j].id
  }

  lemma {:induction false} RowEnds(rules: MerchantRules, facts: seq<Facts>, keyed: set<(string, string)>,
                                   minimum: int, window: int, i: nat, n: nat)
    requires i < n <= |facts| && DistinctIds(facts)
    ensures TwoEnded(Row(rules, facts, keyed, minimum, window, i, n))
    decreases n
  {
    if n > i + 1 {
      RowEnds(rules, facts, keyed, minimum, window, i, n - 1);
    }
  }

  lemma {:induction false} PairsEnds(rules: MerchantRules, facts: seq<Facts>, keyed: set<(string, string)>,
                                     minimum: int, window: int, n: nat)
    requires n <= |facts| && DistinctIds(facts)
    ensures TwoEnded(Pairs(rules, facts, keyed, minimum, window, n))
    decreases n
  {
    if n > 0 {
      PairsEnds(rules, facts, keyed, minimum, window, n - 1);
      RowEnds(rules, facts, keyed, minimum, window, n - 1, |facts|);
    }
  }

  /** For rows with distinct identifiers every returned selection obeys the cap, and returns all deterministic
      pairs exactly when no observation has more of them than the cap. */
  lemma SelectionObeysTheLaws(rules: MerchantRules, facts: seq<Facts>, keyed: set<(string, string)>,
                              minimum: int, window: int, cap: nat, id: string)
    requires DistinctIds(facts)
    ensures var ranked := Sort(Pairs(rules, facts, keyed, minimum, window, |facts|), Priority);
      && Sorted(ranked, Priority) && TwoEnded(ranked)
      && Uses(Select(ranked, cap), id) <= cap
      && (Deterministic(ranked) <= Select(ranked, cap) <==> PartnersWithinCap(Deterministic(ranked), cap))
  {
    var pairs := Pairs(rules, facts, keyed, minimum, window, |facts|);
    var ranked := Sort(pairs, Priority);
    PriorityIsTotal();
    SortSorted(pairs, Priority);
    PairsEnds(rules, facts, keyed, minimum, window, |facts|);
    forall k | 0 <= k < |ranked| ensures ranked[k].left != ranked[k].right {
      SortKeepsMembers(pairs, Priority, ranked[k]);
    }
    CapHolds(ranked, cap, id);
    AllDeterministicReturnedIff(ranked, cap);
  }

  // ---- The condition on the input ----

  function Ends(c: Candidate, id: string): nat { (if c.left == id then 1 else 0) + if c.right == id then 1 else 0 }

  /** How many endpoints of deterministic candidates an observation fills. */
  function KeyedUses(candidates: seq<Candidate>, id: string): nat {
    if candidates == [] then 0 else
      var c := candidates[|candidates| - 1];
      KeyedUses(candidates[..|candidates| - 1], id) + if c.deterministic then Ends(c, id) else 0
  }

  lemma {:induction false} KeyedUsesIs(candidates: seq<Candidate>, id: string)
    ensures Uses(Deterministic(candidates), id) == KeyedUses(candidates, id)
  {
    if candidates != [] {
      var n := |candidates| - 1;
      KeyedUsesIs(candidates[..n], id);
      if candidates[n].deterministic {
        UsesAppend(Deterministic(candidates[..n]), candidates[n], id);
      } else {
        assert Deterministic(candidates) == Deterministic(candidates[..n]);
      }
    }
  }

  lemma {:induction false} KeyedUsesSplit(a: seq<Candidate>, b: seq<Candidate>, id: string)
    ensures KeyedUses(a + b, id) == KeyedUses(a, id) + KeyedUses(b, id)
  {
    if b == [] {
      assert a + b == a;
    } else {
      KeyedUsesSplit(a, b[..|b| - 1], id);
      assert (a + b)[..|a + b| - 1] == a + b[..|b| - 1];
    }
  }

  lemma {:induction false} KeyedUsesInsert(c: Candidate, s: seq<Candidate>, id: string)
    ensures KeyedUses(Insert(c, s, Priority), id) == KeyedUses([c], id) + KeyedUses(s, id)
  {
    if s == [] || Priority(c, s[0]) {
      KeyedUsesSplit([c], s, id);
    } else {
      KeyedUsesInsert(c, s[1..], id);
      KeyedUsesSplit([s[0]], Insert(c, s[1..], Priority), id);
      KeyedUsesSplit([s[0]], s[1..], id);
      assert s == [s[0]] + s[1..];
    }
  }

  /** Ranking the candidates does not change how often an observation occurs in them. */
  lemma {:induction false} KeyedUsesSort(s: seq<Candidate>, id: string)
    ensures KeyedUses(Sort(s, Priority), id) == KeyedUses(s, id)
  {
    if s != [] {
      KeyedUsesSort(s[1..], id);
      KeyedUsesInsert(s[0], Sort(s[1..], Priority), id);
      KeyedUsesSplit([s[0]], s[1..], id);
      assert s == [s[0]] + s[1..];
    }
  }

  /** How many of the first n facts share the key of fact p. */
  function Sharers(rules: MerchantRules, facts: seq<Facts>, p: nat, n: nat): nat
    requires p < |facts| && n <= |facts|
  {
    if n == 0 then 0 else Sharers(rules, facts, p, n - 1) + if SameKey(rules, facts, p, n - 1) then 1 else 0
  }

  predicate SameKey(rules: MerchantRules, facts: seq<Facts>, p: nat, q: nat)
    requires p < |facts| && q < |facts|
  {
    DeterministicKey(rules, facts[p]).Some? && DeterministicKey(rules, facts[p]) == DeterministicKey(rules, facts[q])
  }

  lemma {:induction false} SharersAreHolders(rules: MerchantRules, facts: seq<Facts>, p: nat, key: Key, n: nat)
    requires p < |facts| && n <= |facts| && DeterministicKey(rules, facts[p]) == Some(key)
    ensures Sharers(rules, facts, p, n) == |Holders(rules, facts, key, n)|
  {
    if n > 0 {
      SharersAreHolders(rules, facts, p, key, n - 1);
      HoldersNext(rules, facts, key, n - 1);
    }
  }

  lemma {:induction false} NoKeyNoSharers(rules: MerchantRules, facts: seq<Facts>, p: nat, n: nat)
    requires p < |facts| && n <= |facts| && DeterministicKey(rules, facts[p]).None?
    ensures Sharers(rules, facts, p, n) == 0
  {
    if n > 0 {
      NoKeyNoSharers(rules, facts, p, n - 1);
    }
  }

  lemma KeyedMeansSameKey(rules: MerchantRules, facts: seq<Facts>, keyed: set<(string, string)>, i: nat, j: nat)
    requires DistinctIds(facts) && KeyedPairsOf(rules, facts, keyed) && i < j < |facts|
    ensures (facts[i].id, facts[j].id) in keyed <==> SameKey(rules, facts, i, j)
  {
    if SameKey(rules, facts, i, j) {
      assert SharesKey(rules, facts, i, j);
    }
  }

  /** The endpoints that row i's pairs with rows before n give to fact p. */
  function RowShare(rules: MerchantRules, facts: seq<Facts>, p: nat, i: nat, n: nat): int
    requires p < |facts| && i < n <= |facts|
  {
    if i == p then Sharers(rules, facts, p, n) - Sharers(rules, facts, p, p + 1)
    else if i < p < n && SameKey(rules, facts, p, i) then 1
    else 0
  }

  lemma RowShareStep(rules: MerchantRules, facts: seq<Facts>, p: nat, i: nat, n: nat)
    requires p < |facts| && i + 1 < n <= |facts|
    ensures RowShare(rules, facts, p, i, n)
         == RowShare(rules, facts, p, i, n - 1)
            + if (i == p || n - 1 == p) && SameKey(rules, facts, i, n - 1) then 1 else 0
  {}

  lemma {:induction false} RowUses(rules: MerchantRules, facts: seq<Facts>, keyed: set<(string, string)>,
                                   minimum: int, window: int, p: nat, i: nat, n: nat)
    requires DistinctIds(facts) && KeyedPairsOf(rules, facts, keyed) && p < |facts| && i < n <= |facts|
    ensures KeyedUses(Row(rules, facts, keyed, minimum, window, i, n), facts[p].id) == RowShare(rules, facts, p, i, n)
    decreases n
  {
    if n > i + 1 {
      RowUses(rules, facts, keyed, minimum, window, p, i, n - 1);
      KeyedMeansSameKey(rules, facts, keyed, i, n - 1);
      RowStep(rules, facts, keyed, minimum, window, p, i, n);
      RowShareStep(rules, facts, p, i, n);
    }
  }

  lemma RowStep(rules: MerchantRules, facts: seq<Facts>, keyed: set<(string, string)>,
                minimum: int, window: int, p: nat, i: nat, n: nat)
    requires DistinctIds(facts) && p < |facts| && i + 1 < n <= |facts|
    requires (facts[i].id, facts[n - 1].id) in keyed <==> SameKey(rules, facts, i, n - 1)
    ensures KeyedUses(Row(rules, facts, keyed, minimum, window, i, n), facts[p].id)
         == KeyedUses(Row(rules, facts, keyed, minimum, window, i, n - 1), facts[p].id)
            + if (i == p || n - 1 == p) && SameKey(rules, facts, i, n - 1) then 1 else 0
  {
    var l, r, id := facts[i], facts[n - 1], facts[p].id;
    var c := Candidate(l.id, r.id, ScorePair(rules, l, r), (l.id, r.id) in keyed);
    var before := Row(rules, facts, keyed, minimum, window, i, n - 1);
    assert l.id != r.id && (l.id == id <==> i == p) && (r.id == id <==> n - 1 == p);
    if Considered(l, r, c.score, c.deterministic, minimum, window) {
      assert (before + [c])[..|before|] == before;
    } else {
      assert Row(rules, facts, keyed, minimum, window, i, n) == before;
    }
  }

  /** The endpoints that the first n rows give to fact p: its sharers before it, and after its own row those behind. */
  function PairsShare(rules: MerchantRules, facts: seq<Facts>, p: nat, n: nat): int
    requires p < |facts| && n <= |facts|
  {
    if n <= p then Sharers(rules, facts, p, n)
    else Sharers(rules, facts, p, p) + Sharers(rules, facts, p, |facts|) - Sharers(rules, facts, p, p + 1)
  }

  lemma ShareStep(rules: MerchantRules, facts: seq<Facts>, p: nat, n: nat)
    requires p < |facts| && n < |facts|
    ensures PairsShare(rules, facts, p, n + 1) == PairsShare(rules, facts, p, n) + RowShare(rules, facts, p, n, |facts|)
  {}

  function SumTo(f: nat -> nat, n: nat): nat { if n == 0 then 0 else SumTo(f, n - 1) + f(n - 1) }

  function AllRows(rules: MerchantRules, facts: seq<Facts>, keyed: set<(string, string)>, minimum: int, window: int)
    : seq<seq<Candidate>>
  {
    seq(|facts|, i requires 0 <= i < |facts| => Row(rules, facts, keyed, minimum, window, i, |facts|))
  }

  lemma {:induction false} PairsAreFlat(rules: MerchantRules, facts: seq<Facts>, keyed: set<(string, string)>,
                                        minimum: int, window: int, n: nat)
    requires n <= |facts|
    ensures Pairs(rules, facts, keyed, minimum, window, n)
         == Flatten(AllRows(rules, facts, keyed, minimum, window)[..n])
    decreases n
  {
    if n > 0 {
      var rows := AllRows(rules, facts, keyed, minimum, window);
      PairsAreFlat(rules, facts, keyed, minimum, window, n - 1);
      assert rows[..n][..n - 1] == rows[..n - 1];
    }
  }

  lemma {:induction false} FlatUses(rows: seq<seq<Candidate>>, uses: nat -> nat, id: string)
    requires forall i :: 0 <= i < |rows| ==> uses(i) == KeyedUses(rows[i], id)
    ensures KeyedUses(Flatten(rows), id) == SumTo(uses, |rows|)
  {
    if rows != [] {
      var n := |rows| - 1;
      FlatUses(rows[..n], uses, id);
      KeyedUsesSplit(Flatten(rows[..n]), rows[n], id);
    }
  }

  /** How often the observation's uses add up row by row. */
  lemma PairsByRow(rules: MerchantRules, facts: seq<Facts>, keyed: set<(string, string)>, minimum: int, window: int,
                   id: string, uses: nat -> nat)
    requires forall i :: 0 <= i < |facts| ==>
      uses(i) == KeyedUses(Row(rules, facts, keyed, minimum, window, i, |facts|), id)
    ensures KeyedUses(Pairs(rules, facts, keyed, minimum, window, |facts|), id) == SumTo(uses, |facts|)
  {
    var rows := AllRows(rules, facts, keyed, minimum, window);
    PairsAreFlat(rules, facts, keyed, minimum, window, |facts|);
    assert rows[..|facts|] == rows;
    FlatUses(rows, uses, id);
  }

  lemma {:induction false} SharesAddUp(rules: MerchantRules, facts: seq<Facts>, p: nat, uses: nat -> nat, n: nat)
    requires p < |facts| && n <= |facts|
    requires forall i :: 0 <= i < |facts| ==> uses(i) == RowShare(rules, facts, p, i, |facts|)
    ensures SumTo(uses, n) == PairsShare(rules, facts, p, n)
  {
    if n > 0 {
      SharesAddUp(rules, facts, p, uses, n - 1);
      ShareStep(rules, facts, p, n - 1);
    }
  }

  lemma {:induction false} ZerosAddUp(uses: nat -> nat, m: nat, n: nat)
    requires n <= m && forall i :: 0 <= i < m ==> uses(i) == 0
    ensures SumTo(uses, n) == 0
  {
    if n > 0 {
      ZerosAddUp(uses, m, n - 1);
    }
  }

  lemma FactUses(rules: MerchantRules, facts: seq<Facts>, keyed: set<(string, string)>, minimum: int, window: int,
                 p: nat)
    requires DistinctIds(facts) && KeyedPairsOf(rules, facts, keyed) && p < |facts|
    ensures KeyedUses(Pairs(rules, facts, keyed, minimum, window, |facts|), facts[p].id)
         == PairsShare(rules, facts, p, |facts|)
  {
    var uses := (i: nat) =>
      if i < |facts| then KeyedUses(Row(rules, facts, keyed, minimum, window, i, |facts|), facts[p].id) else 0;
    PairsByRow(rules, facts, keyed, minimum, window, facts[p].id, uses);
    forall i | 0 <= i < |facts| ensures uses(i) == RowShare(rules, facts, p, i, |facts|) {
      RowUses(rules, facts, keyed, minimum, window, p, i, |facts|);
    }
    SharesAddUp(rules, facts, p, uses, |facts|);
  }

  /** A fact's deterministic partners are the other holders of its key. */
  lemma PartnersAreHolders(rules: MerchantRules, facts: seq<Facts>, keyed: set<(string, string)>,
                           minimum: int, window: int, p: nat)
    requires DistinctIds(facts) && KeyedPairsOf(rules, facts, keyed) && p < |facts|
    ensures var uses := KeyedUses(Pairs(rules, facts, keyed, minimum, window, |facts|), facts[p].id);
      match DeterministicKey(rules, facts[p])
      case Some(key) => uses == |Holders(rules, facts, key, |facts|)| - 1
      case None => uses == 0
  {
    FactUses(rules, facts, keyed, minimum, window, p);
    match DeterministicKey(rules, facts[p])
    case Some(key) => SharersAreHolders(rules, facts, p, key, |facts|);
    case None =>
      NoKeyNoSharers(rules, facts, p, |facts|);
      NoKeyNoSharers(rules, facts, p, p + 1);
  }

  lemma {:induction false} StrangerRowUses(rules: MerchantRules, facts: seq<Facts>, keyed: set<(string, string)>,
                                           minimum: int, window: int, id: string, i: nat, n: nat)
    requires i < n <= |facts| && forall p :: 0 <= p < |facts| ==> facts[p].id != id
    ensures KeyedUses(Row(rules, facts, keyed, minimum, window, i, n), id) == 0
    decreases n
  {
    if n > i + 1 {
      StrangerRowUses(rules, facts, keyed, minimum, window, id, i, n - 1);
      var l, r := facts[i], facts[n - 1];
      var c := Candidate(l.id, r.id, ScorePair(rules, l, r), (l.id, r.id) in keyed);
      var before := Row(rules, facts, keyed, minimum, window, i, n - 1);
      if Considered(l, r, c.score, c.deterministic, minimum, window) {
        KeyedUsesSplit(before, [c], id);
      } else {
        assert Row(rules, facts, keyed, minimum, window, i, n) == before;
      }
    }
  }

  lemma StrangerUses(rules: MerchantRules, facts: seq<Facts>, keyed: set<(string, string)>, minimum: int, window: int,
                     id: string)
    requires forall p :: 0 <= p < |facts| ==> facts[p].id != id
    ensures KeyedUses(Pairs(rules, facts, keyed, minimum, window, |facts|), id) == 0
  {
    forall i | 0 <= i < |facts| ensures KeyedUses(Row(rules, facts, keyed, minimum, window, i, |facts|), id) == 0 {
      StrangerRowUses(rules, facts, keyed, minimum, window, id, i, |facts|);
    }
    var none: nat -> nat := _ => 0;
    PairsByRow(rules, facts, keyed, minimum, window, id, none);
    ZerosAddUp(none, |facts|, |facts|);
  }

  ghost predicate GroupsFit(rules: MerchantRules, facts: seq<Facts>, cap: nat) {
    forall key :: |Holders(rules, facts, key, |facts|)| <= cap + 1
  }

  lemma PartnersFit(rules: MerchantRules, facts: seq<Facts>, keyed: set<(string, string)>,
                    minimum: int, window: int, cap: nat, id: string)
    requires DistinctIds(facts) && KeyedPairsOf(rules, facts, keyed) && GroupsFit(rules, facts, cap)
    ensures KeyedUses(Pairs(rules, facts, keyed, minimum, window, |facts|), id) <= cap
  {
    if p :| 0 <= p < |facts| && facts[p].id == id {
      PartnersAreHolders(rules, facts, keyed, minimum, window, p);
    } else {
      StrangerUses(rules, facts, keyed, minimum, window, id);
    }
  }

  lemma GroupFits(rules: MerchantRules, facts: seq<Facts>, keyed: set<(string, string)>,
                  minimum: int, window: int, cap: nat, key: Key)
    requires DistinctIds(facts) && KeyedPairsOf(rules, facts, keyed)
    requires forall id :: KeyedUses(Pairs(rules, facts, keyed, minimum, window, |facts|), id) <= cap
    ensures |Holders(rules, facts, key, |facts|)| <= cap + 1
  {
    var holders := Holders(rules, facts, key, |facts|);
    if holders != [] {
      PartnersAreHolders(rules, facts, keyed, minimum, window, holders[0]);
      assert KeyedUses(Pairs(rules, facts, keyed, minimum, window, |facts|), facts[holders[0]].id) <= cap;
    }
  }

  /** In terms of the input: every pair reached through a deterministic key is returned if and only if no key is
      held by more than cap + 1 observations. */
  lemma KeyedPairsReturnedIff(rules: MerchantRules, facts: seq<Facts>, keyed: set<(string, string)>,
                              minimum: int, window: int, cap: nat)
    requires DistinctIds(facts) && KeyedPairsOf(rules, facts, keyed)
    ensures var ranked := Sort(Pairs(rules, facts, keyed, minimum, window, |facts|), Priority);
      Deterministic(ranked) <= Select(ranked, cap) <==> GroupsFit(rules, facts, cap)
  {
    var pairs := Pairs(rules, facts, keyed, minimum, window, |facts|);
    var ranked := Sort(pairs, Priority);
    SelectionObeysTheLaws(rules, facts, keyed, minimum, window, cap, "");
    forall id ensures Uses(Deterministic(ranked), id) == KeyedUses(pairs, id) {
      KeyedUsesIs(ranked, id);
      KeyedUsesSort(pairs, id);
    }
    if GroupsFit(rules, facts, cap) {
      forall id ensures Uses(Deterministic(ranked), id) <= cap {
        PartnersFit(rules, facts, keyed, minimum, window, cap, id);
      }
    }
    if PartnersWithinCap(Deterministic(ranked), cap) {
      forall id ensures KeyedUses(pairs, id) <= cap {
        assert Uses(Deterministic(ranked), id) <= cap;
      }
      forall key ensures |Holders(rules, facts, key, |facts|)| <= cap + 1 {
        GroupFits(rules, facts, keyed, minimum, window, cap, key);
      }
    }
  }

  function Approved(id: string): Facts {
    Facts(id, "user", None, None, "KRW", Unknown, "", "A1", None, None, None, "")
  }

  /** Three observations with one approval code and a cap of one: not every deterministic pair is returned. */
  lemma ThreeShareOneCode(rules: MerchantRules, keyed: set<(string, string)>, minimum: int, window: int)
    requires KeyedPairsOf(rules, [Approved("a"), Approved("b"), Approved("c")], keyed)
    ensures var ranked :=
        Sort(Pairs(rules, [Approved("a"), Approved("b"), Approved("c")], keyed, minimum, window, 3), Priority);
      !(Deterministic(ranked) <= Select(ranked, 1))
  {
    var facts := [Approved("a"), Approved("b"), Approved("c")];
    var key := ApprovalKey("user", rules.fold("A1"));
    HoldersNext(rules, facts, key, 0);
    HoldersNext(rules, facts, key, 1);
    HoldersNext(rules, facts, key, 2);
    assert |Holders(rules, facts, key, 3)| == 3;
    KeyedPairsReturnedIff(rules, facts, keyed, minimum, window, 1);
  }
}

/**
 The decision table of a portfolio, said of the listings themselves: cohorts by their
 members, the cutoff by counting, the winner by comparison, and the outcomes in input order.
 */
module PortfolioTable {
  import opened Options
  import opened Splicing
  import Sorting
  import opened Portfolio

  // ------------------------------------------------------------ cohort, rank and winner, by counting

  /** A listing of the shop's percentile cohort. */
  predicate Member(l: Listing, shop: Id) {
    && l.shop == shop && l.snapshot.Some? && l.snapshot.value.reconciled
    && l.inWindow && !l.hasDefect && l.liveDays >= 30
    && (l.snapshot.value.views <= 0 || l.snapshot.value.orders != 0)
  }

  /** More orders; then more revenue, more favourites, more views. */
  predicate Beats(a: Snapshot, b: Snapshot) {
    || a.orders > b.orders
    || (a.orders == b.orders && a.revenue > b.revenue)
    || (a.orders == b.orders && a.revenue == b.revenue && a.favourites > b.favourites)
    || (a.orders == b.orders && a.revenue == b.revenue && a.favourites == b.favourites && a.views > b.views)
  }

  function CountMembers(listings: seq<Listing>, shop: Id): nat {
    if listings == [] then 0 else (if Member(listings[0], shop) then 1 else 0) + CountMembers(listings[1..], shop)
  }

  /** How many of the cohort `s` does not lose to: those with the same or a lower score. */
  function CountNotAbove(listings: seq<Listing>, shop: Id, s: Snapshot): nat {
    if listings == [] then 0
    else (if Member(listings[0], shop) && !Beats(listings[0].snapshot.value, s) then 1 else 0)
         + CountNotAbove(listings[1..], shop, s)
  }

  /** How many of the cohort `s` does not beat: those with the same or a higher score. */
  function CountNotBelow(listings: seq<Listing>, shop: Id, s: Snapshot): nat {
    if listings == [] then 0
    else (if Member(listings[0], shop) && !Beats(s, listings[0].snapshot.value) then 1 else 0)
         + CountNotBelow(listings[1..], shop, s)
  }

  /** In the bottom of its cohort: in a cohort of five or more, fewer than the pool score no higher. */
  predicate AtBottom(listings: seq<Listing>, percent: int, l: Listing) {
    && Member(l, l.shop) && CountMembers(listings, l.shop) >= 5
    && CountNotAbove(listings, l.shop, l.snapshot.value) < CountMembers(listings, l.shop) * percent / 100
  }

  /** Alone at the top of its cohort, with orders. */
  predicate OnTop(listings: seq<Listing>, l: Listing) {
    Member(l, l.shop) && l.snapshot.value.orders > 0 && CountNotBelow(listings, l.shop, l.snapshot.value) == 1
  }

  ghost predicate IdAtBottom(listings: seq<Listing>, percent: int, id: Id) {
    exists l :: l in listings && AtBottom(listings, percent, l) && l.id == id
  }

  ghost predicate IdOnTop(listings: seq<Listing>, percent: int, id: Id) {
    !IdAtBottom(listings, percent, id) && exists l :: l in listings && OnTop(listings, l) && l.id == id
  }

  // ------------------------------------------------------------ the table

  /** An earlier HOLD before its collection time, or an earlier REPAIR on the same snapshot. */
  predicate Waits(l: Listing, priors: map<Id, Prior>, now: int) {
    l.id in priors &&
    var prior := priors[l.id];
    || (prior.decision == Hold && prior.nextCollectionAt.Some? && now < prior.nextCollectionAt.value)
    || (prior.decision == Repair && l.snapshot.Some? && l.snapshot.value.id == prior.snapshotId)
  }

  predicate NeedsRepair(l: Listing, s: Snapshot) {
    l.hasDefect || (l.liveDays >= 30 && s.views > 0 && s.orders == 0)
  }

  /** What one listing contributes to the result. */
  ghost predicate Says(listings: seq<Listing>, percent: int, priors: map<Id, Prior>, now: int, l: Listing, part: seq<Outcome>) {
    if l.snapshot.None? || !l.snapshot.value.reconciled || Waits(l, priors, now) then part == []
    else
      var s := l.snapshot.value;
      if NeedsRepair(l, s) then part == [Outcome(l.id, Repair, s.id, None)]
      else if l.liveDays < 30 then part == []
      else if IdAtBottom(listings, percent, l.id) then part == [Outcome(l.id, Cull, s.id, None)]
      else if IdOnTop(listings, percent, l.id) then part == [Outcome(l.id, Multiply, s.id, None)]
      else if l.inWindow then part == [Outcome(l.id, Hold, s.id, Some(now + 7 * 24 * 60 * 60))]
      else part == []
  }

  /** One part for each of the first `n` listings, in order. */
  ghost predicate SaysEach(listings: seq<Listing>, percent: int, priors: map<Id, Prior>, now: int, n: nat, parts: seq<seq<Outcome>>)
    requires n <= |listings|
    decreases n
  {
    |parts| == n && (n == 0 || (Says(listings, percent, priors, now, listings[n - 1], parts[n - 1])
                                && SaysEach(listings, percent, priors, now, n - 1, parts[..n - 1])))
  }

  /** The outcomes of the listings, one after another in input order. */
  ghost predicate Table(listings: seq<Listing>, percent: int, priors: map<Id, Prior>, now: int, results: seq<Outcome>) {
    exists parts :: SaysEach(listings, percent, priors, now, |listings|, parts) && IsJoin(parts, results)
  }

  // ------------------------------------------------------------ counting in a cohort

  lemma MemberIs(l: Listing, shop: Id)
    ensures Member(l, shop) <==> InCohort(l) && l.shop == shop
  {
  }

  lemma BeatsIs(a: Listing, b: Listing)
    requires a.snapshot.Some? && b.snapshot.Some?
    ensures Beats(a.snapshot.value, b.snapshot.value) <==> Less(ScoreOf(b), ScoreOf(a))
  {
  }

  /** Members that score no higher than `c`. */
  function Lower(s: seq<Listing>, c: Score): nat {
    if s == [] then 0 else (if Less(c, ScoreOf(s[0])) then 0 else 1) + Lower(s[1..], c)
  }

  /** Members that score no lower than `c`. */
  function Higher(s: seq<Listing>, c: Score): nat {
    if s == [] then 0 else (if Less(ScoreOf(s[0]), c) then 0 else 1) + Higher(s[1..], c)
  }

  lemma {:induction false} CohortCounts(listings: seq<Listing>, shop: Id, l: Listing)
    requires l.snapshot.Some?
    ensures |Cohort(listings, shop)| == CountMembers(listings, shop)
    ensures Lower(Cohort(listings, shop), ScoreOf(l)) == CountNotAbove(listings, shop, l.snapshot.value)
    ensures Higher(Cohort(listings, shop), ScoreOf(l)) == CountNotBelow(listings, shop, l.snapshot.value)
    decreases |listings|
  {
    if listings != [] {
      var first, rest := listings[0], Cohort(listings[1..], shop);
      CohortCounts(listings[1..], shop, l);
      MemberIs(first, shop);
      if Member(first, shop) {
        BeatsIs(first, l);
        BeatsIs(l, first);
        assert ([first] + rest)[1..] == rest;
      } else {
        assert [] + rest == rest;
      }
    }
  }

  /** No cohort of five or more is smaller than the share asked of it. */
  ghost predicate PoolsFit(listings: seq<Listing>, percent: int) {
    forall shop :: CountMembers(listings, shop) >= 5 ==>
      CountMembers(listings, shop) * percent / 100 <= CountMembers(listings, shop)
  }

  lemma {:induction false} CohortSize(listings: seq<Listing>, shop: Id)
    ensures |Cohort(listings, shop)| == CountMembers(listings, shop)
    decreases |listings|
  {
    if listings != [] {
      CohortSize(listings[1..], shop);
      MemberIs(listings[0], shop);
    }
  }

  lemma AppliesIs(listings: seq<Listing>, percent: int)
    ensures Applies(listings, percent) <==> PoolsFit(listings, percent)
  {
    forall shop ensures |Cohort(listings, shop)| == CountMembers(listings, shop) { CohortSize(listings, shop); }
    if !Applies(listings, percent) {
      var shop :| Overruns(Cohort(listings, shop), percent);
      assert CountMembers(listings, shop) >= 5;
    }
    if !PoolsFit(listings, percent) {
      var shop :| CountMembers(listings, shop) >= 5
                  && CountMembers(listings, shop) * percent / 100 > CountMembers(listings, shop);
      assert Overruns(Cohort(listings, shop), percent);
    }
  }

  lemma {:induction false} LowerAppend(a: seq<Listing>, b: seq<Listing>, c: Score)
    ensures Lower(a + b, c) == Lower(a, c) + Lower(b, c) && Higher(a + b, c) == Higher(a, c) + Higher(b, c)
    decreases |a|
  {
    if a == [] {
      assert a + b == b;
    } else {
      LowerAppend(a[1..], b, c);
      assert (a + b)[1..] == a[1..] + b;
    }
  }

  lemma {:induction false} LowerBounds(s: seq<Listing>, c: Score)
    ensures Lower(s, c) <= |s|
    ensures (forall i :: 0 <= i < |s| ==> !Less(c, ScoreOf(s[i]))) ==> Lower(s, c) == |s|
    ensures (forall i :: 0 <= i < |s| ==> Less(c, ScoreOf(s[i]))) ==> Lower(s, c) == 0
    decreases |s|
  {
    if s != [] { LowerBounds(s[1..], c); }
  }

  /** In a sorted cohort, being below the p-th is having fewer than p that score no higher. */
  lemma RankInOrder(ordered: seq<Listing>, c: Score, p: nat)
    requires Ordered(ordered) && 1 <= p <= |ordered|
    ensures Less(c, ScoreOf(ordered[p - 1])) <==> Lower(ordered, c) < p
  {
    if Less(c, ScoreOf(ordered[p - 1])) {
      var low, high := ordered[..p - 1], ordered[p - 1..];
      assert ordered == low + high;
      LowerAppend(low, high, c);
      LowerBounds(low, c);
      forall i | 0 <= i < |high| ensures Less(c, ScoreOf(high[i])) {
        assert i > 0 ==> Le(ordered[p - 1], ordered[p - 1 + i]);
      }
      LowerBounds(high, c);
    } else {
      var low, high := ordered[..p], ordered[p..];
      assert ordered == low + high;
      LowerAppend(low, high, c);
      forall i | 0 <= i < |low| ensures !Less(c, ScoreOf(low[i])) {
        assert i < p - 1 ==> Le(ordered[i], ordered[p - 1]);
      }
      LowerBounds(low, c);
    }
  }

  lemma {:induction false} LowerMoves(a: seq<Listing>, b: seq<Listing>, c: Score)
    requires multiset(a) == multiset(b)
    ensures Lower(a, c) == Lower(b, c)
    decreases |a|
  {
    if a == [] {
      assert |multiset(b)| == |b|;
    } else {
      var k := Sorting.PullOut(a, b);
      var front, back := b[..k], b[k + 1..];
      assert b == front + ([b[k]] + back) && a == [a[0]] + a[1..];
      LowerMoves(a[1..], front + back, c);
      LowerAppend(front, back, c);
      LowerAppend(front, [b[k]] + back, c);
      LowerAppend([b[k]], back, c);
      LowerAppend([a[0]], a[1..], c);
    }
  }

  /** The cutoff by rank: no sorting is needed to say who is below it. */
  lemma CullByRank(group: seq<Listing>, percent: int, l: Listing)
    requires !Overruns(group, percent)
    ensures BelowCutoff(l, group, percent) <==> |group| >= 5 && Lower(group, ScoreOf(l)) < |group| * percent / 100
  {
    var pool := Pool(|group|, percent);
    if |group| >= 5 && pool > 0 {
      SortIs(group);
      RankInOrder(Sort(group), ScoreOf(l), pool);
      LowerMoves(group, Sort(group), ScoreOf(l));
    }
  }

  lemma BottomIs(listings: seq<Listing>, percent: int, l: Listing)
    requires Applies(listings, percent)
    ensures AtBottom(listings, percent, l) <==> InCohort(l) && BelowCutoff(l, Cohort(listings, l.shop), percent)
  {
    MemberIs(l, l.shop);
    if InCohort(l) {
      CohortCounts(listings, l.shop, l);
      assert !Overruns(Cohort(listings, l.shop), percent);
      CullByRank(Cohort(listings, l.shop), percent, l);
    }
  }

  lemma CulledIs(listings: seq<Listing>, percent: int, id: Id)
    requires Applies(listings, percent)
    ensures id in Culled(listings, percent) <==> IdAtBottom(listings, percent, id)
  {
    forall l | l in listings
      ensures AtBottom(listings, percent, l) <==> InCohort(l) && BelowCutoff(l, Cohort(listings, l.shop), percent)
    {
      BottomIs(listings, percent, l);
    }
  }

  // ------------------------------------------------------------ the winner by comparison

  lemma {:induction false} HigherBounds(s: seq<Listing>, c: Score)
    ensures (forall i :: 0 <= i < |s| ==> Less(ScoreOf(s[i]), c)) <==> Higher(s, c) == 0
    decreases |s|
  {
    if s != [] {
      HigherBounds(s[1..], c);
      if forall i :: 0 <= i < |s| ==> Less(ScoreOf(s[i]), c) {
        assert forall i :: 0 <= i < |s[1..]| ==> s[1..][i] == s[i + 1];
      } else if Less(ScoreOf(s[0]), c) {
        var i :| 0 <= i < |s| && !Less(ScoreOf(s[i]), c);
        assert s[1..][i - 1] == s[i];
      }
    }
  }

  lemma TopsByCount(group: seq<Listing>, l: Listing)
    requires l in group
    ensures Tops(group, l) <==> l.snapshot.Some? && l.snapshot.value.orders > 0 && Higher(group, ScoreOf(l)) == 1
  {
    var k :| 0 <= k < |group| && group[k] == l;
    var front, back, c := group[..k], group[k + 1..], ScoreOf(l);
    assert group == front + ([l] + back);
    LowerAppend(front, [l] + back, c);
    LowerAppend([l], back, c);
    assert Higher([l], c) == 1;
    HigherBounds(front, c);
    HigherBounds(back, c);
    if Tops(group, l) { OthersLess(group, l, front, back); }
    if Higher(group, c) == 1 {
      assert l !in front && l !in back;
      assert forall m :: m in group && m != l ==> m in front || m in back;
    }
  }

  lemma OthersLess(group: seq<Listing>, l: Listing, front: seq<Listing>, back: seq<Listing>)
    requires Tops(group, l) && group == front + ([l] + back)
    ensures forall i :: 0 <= i < |front| ==> Less(ScoreOf(front[i]), ScoreOf(l))
    ensures forall i :: 0 <= i < |back| ==> Less(ScoreOf(back[i]), ScoreOf(l))
  {
    assert multiset(group) == multiset(front) + multiset{l} + multiset(back);
    forall i | 0 <= i < |front| ensures Less(ScoreOf(front[i]), ScoreOf(l)) {
      assert front[i] in multiset(front) && front[i] == group[i];
    }
    forall i | 0 <= i < |back| ensures Less(ScoreOf(back[i]), ScoreOf(l)) {
      assert back[i] in multiset(back) && back[i] == group[|front| + 1 + i];
    }
  }

  lemma TopIs(listings: seq<Listing>, l: Listing)
    requires l in listings
    ensures OnTop(listings, l) <==> InCohort(l) && Tops(Cohort(listings, l.shop), l)
  {
    MemberIs(l, l.shop);
    if InCohort(l) {
      InCohortIs(listings, l.shop, l);
      CohortCounts(listings, l.shop, l);
      TopsByCount(Cohort(listings, l.shop), l);
    }
  }

  lemma WinnersAre(listings: seq<Listing>, percent: int, id: Id)
    requires Applies(listings, percent)
    ensures id in Winners(listings, Culled(listings, percent)) <==> IdOnTop(listings, percent, id)
  {
    var culled := Culled(listings, percent);
    CulledIs(listings, percent, id);
    if id in Winners(listings, culled) {
      var shop :| shop in Shops(listings) && id in Promoted(Cohort(listings, shop), culled);
      WinnerTops(Cohort(listings, shop));
      var best :| Tops(Cohort(listings, shop), best) && best.id == id;
      InCohortIs(listings, shop, best);
      TopIs(listings, best);
    }
    if IdOnTop(listings, percent, id) {
      var l :| l in listings && OnTop(listings, l) && l.id == id;
      TopIs(listings, l);
      WinnerTops(Cohort(listings, l.shop));
      assert id in Promoted(Cohort(listings, l.shop), culled);
      assert IsWinner(listings, culled, Shops(listings), l.id);
    }
  }

  // ------------------------------------------------------------ the result

  function PartOf(l: Listing, culled: set<Id>, multiply: set<Id>, priors: map<Id, Prior>, now: int): seq<Outcome> {
    var decided := Decide(l, culled, multiply, PriorOf(priors, l.id), now);
    if decided.Some? then [decided.value] else []
  }

  lemma DecideSays(listings: seq<Listing>, percent: int, priors: map<Id, Prior>, now: int, l: Listing)
    requires Applies(listings, percent)
    ensures var culled := Culled(listings, percent);
            Says(listings, percent, priors, now, l, PartOf(l, culled, Winners(listings, culled), priors, now))
  {
    CulledIs(listings, percent, l.id);
    WinnersAre(listings, percent, l.id);
  }

  lemma {:induction false} DecisionsJoin(listings: seq<Listing>, percent: int, priors: map<Id, Prior>, now: int, n: nat)
    returns (parts: seq<seq<Outcome>>)
    requires Applies(listings, percent) && n <= |listings|
    ensures SaysEach(listings, percent, priors, now, n, parts)
    ensures var culled := Culled(listings, percent);
            IsJoin(parts, Decisions(listings[..n], culled, Winners(listings, culled), priors, now))
    decreases n
  {
    var culled := Culled(listings, percent);
    if n == 0 {
      parts := [];
      JoinNothing<Outcome>();
    } else {
      var front := DecisionsJoin(listings, percent, priors, now, n - 1);
      var l := listings[n - 1];
      var part := PartOf(l, culled, Winners(listings, culled), priors, now);
      DecideSays(listings, percent, priors, now, l);
      parts := front + [part];
      assert parts[..n - 1] == front;
      assert listings[..n][..n - 1] == listings[..n - 1];
      JoinSnoc(front, part, Decisions(listings[..n - 1], culled, Winners(listings, culled), priors, now));
    }
  }

  lemma DecisionsAreTheTable(listings: seq<Listing>, percent: int, priors: map<Id, Prior>, now: int)
    requires Applies(listings, percent)
    ensures var culled := Culled(listings, percent);
            Table(listings, percent, priors, now, Decisions(listings, culled, Winners(listings, culled), priors, now))
  {
    var parts := DecisionsJoin(listings, percent, priors, now, |listings|);
    assert listings[..|listings|] == listings;
  }

  /** `evaluate_portfolio`. `None` is the IndexError of `_cull_ids`. */
  method EvaluatePortfolio(listings: seq<Listing>, now: int, priors: map<Id, Prior>, percent: int)
    returns (results: Option<seq<Outcome>>)
    ensures results.Some? <==> PoolsFit(listings, percent)
    ensures results.Some? <==> Applies(listings, percent)
    ensures results.Some? ==>
              var culled := Culled(listings, percent);
              results.value == Decisions(listings, culled, Winners(listings, culled), priors, now)
    ensures results.Some? ==> Table(listings, percent, priors, now, results.value)
  {
    AppliesIs(listings, percent);
    var ids := CullIds(listings, percent);
    if ids.None? { return None; }
    var multiply := MultiplyIds(listings, ids.value);
    var out: seq<Outcome> := [];
    for k := 0 to |listings|
      invariant out == Decisions(listings[..k], ids.value, multiply, priors, now)
    {
      var l := listings[k];
      assert listings[..k + 1][..k] == listings[..k];
      var decided := Decide(l, ids.value, multiply, PriorOf(priors, l.id), now);
      if decided.Some? { out := out + [decided.value]; }
    }
    assert listings[..|listings|] == listings;
    DecisionsAreTheTable(listings, percent, priors, now);
    return Some(out);
  }
}

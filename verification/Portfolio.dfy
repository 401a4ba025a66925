/** Portfolio eligibility: cohort culling, the unique winner, and the decision per listing. */
module Portfolio {
  import opened Options
  import Sorting

  /** Ids are ordered like the UUIDs they stand for. */
  type Id = nat

  datatype Snapshot = Snapshot(id: Id, views: int, favourites: int, orders: int, revenue: int, reconciled: bool)

  datatype Listing = Listing(id: Id, shop: Id, liveDays: int, inWindow: bool, hasDefect: bool, snapshot: Option<Snapshot>)

  datatype Decision = Hold | Repair | Cull | Multiply

  const MATURITY_LIVE_DAYS := 30
  const MIN_COHORT := 5
  const COLLECTION_GAP := 7 * 24 * 3600

  datatype Score = Score(orders: int, revenue: int, favourites: int, views: int)

  function ScoreOf(l: Listing): Score {
    match l.snapshot
    case None => Score(0, 0, 0, 0)
    case Some(s) => Score(s.orders, s.revenue, s.favourites, s.views)
  }

  /** Tuple comparison. */
  predicate Less(a: Score, b: Score) {
    || a.orders < b.orders
    || (a.orders == b.orders && (a.revenue < b.revenue
        || (a.revenue == b.revenue && (a.favourites < b.favourites
            || (a.favourites == b.favourites && a.views < b.views)))))
  }

  predicate InCohort(l: Listing) {
    && l.snapshot.Some? && l.snapshot.value.reconciled
    && l.inWindow && !l.hasDefect && l.liveDays >= MATURITY_LIVE_DAYS
    && !(l.snapshot.value.views > 0 && l.snapshot.value.orders == 0)
  }

  /** One shop's percentile cohort, in input order. */
  function Cohort(listings: seq<Listing>, shop: Id): seq<Listing> {
    if listings == [] then []
    else (if InCohort(listings[0]) && listings[0].shop == shop then [listings[0]] else []) + Cohort(listings[1..], shop)
  }

  // ------------------------------------------------------------ sorting by (score, id)

  predicate Le(a: Listing, b: Listing) {
    Less(ScoreOf(a), ScoreOf(b)) || (ScoreOf(a) == ScoreOf(b) && a.id <= b.id)
  }

  ghost predicate Ordered(s: seq<Listing>) {
    forall i, j :: 0 <= i < j < |s| ==> Le(s[i], s[j])
  }

  function Sort(s: seq<Listing>): seq<Listing> { Sorting.Sort(s, Le) }

  lemma SortIs(s: seq<Listing>)
    ensures Ordered(Sort(s)) && multiset(Sort(s)) == multiset(s) && |Sort(s)| == |s|
  {
    Sorting.SortIs(s, Le);
    assert Sorting.Ordered(Sort(s), Le);
    assert |multiset(Sort(s))| == |Sort(s)|;
  }

  ghost predicate DistinctIds(s: seq<Listing>) {
    forall i, j :: 0 <= i < j < |s| ==> s[i].id != s[j].id
  }

  lemma SameLeast(a: seq<Listing>, b: seq<Listing>)
    requires a != [] && b != [] && Ordered(a) && Ordered(b) && multiset(a) == multiset(b)
    requires forall x, y :: x in a && y in a && x.id == y.id ==> x == y
    ensures a[0] == b[0]
  {
    assert a[0] in multiset(a) && b[0] in multiset(b);
    assert a[0] in b && b[0] in a;
    var i :| 0 <= i < |a| && a[i] == b[0];
    var j :| 0 <= j < |b| && b[j] == a[0];
    assert i > 0 ==> Le(a[0], b[0]);
    assert j > 0 ==> Le(b[0], a[0]);
  }

  /** With distinct ids there is only one sorted arrangement. */
  lemma {:induction false} OrderedIsUnique(a: seq<Listing>, b: seq<Listing>)
    requires Ordered(a) && Ordered(b) && multiset(a) == multiset(b)
    requires forall x, y :: x in a && y in a && x.id == y.id ==> x == y
    ensures a == b
    decreases |a|
  {
    assert |a| == |multiset(a)| == |multiset(b)| == |b|;
    if a != [] {
      SameLeast(a, b);
      assert a == [a[0]] + a[1..] && b == [b[0]] + b[1..];
      assert multiset(a[1..]) == multiset(a) - multiset{a[0]};
      assert multiset(b[1..]) == multiset(b) - multiset{b[0]};
      OrderedIsUnique(a[1..], b[1..]);
    }
  }

  // ------------------------------------------------------------ culling

  function Pool(size: nat, percent: int): int { size * percent / 100 }

  /** The pool is larger than the cohort: the source's index is out of range. */
  predicate Overruns(group: seq<Listing>, percent: int) {
    |group| >= MIN_COHORT && Pool(|group|, percent) > |group|
  }

  ghost predicate Applies(listings: seq<Listing>, percent: int) {
    forall shop :: !Overruns(Cohort(listings, shop), percent)
  }

  lemma PoolFits(size: nat, percent: int)
    requires percent <= 100
    ensures Pool(size, percent) <= size
  {
    assert size * percent <= size * 100 by { assert size * (100 - percent) >= 0; }
  }

  /** Any percentage up to 100 applies. */
  lemma PercentApplies(listings: seq<Listing>, percent: int)
    requires percent <= 100
    ensures Applies(listings, percent)
  {
    forall shop ensures !Overruns(Cohort(listings, shop), percent) {
      PoolFits(|Cohort(listings, shop)|, percent);
    }
  }

  /** From 120 percent on, every cohort the rule looks at is overrun. */
  lemma LargePercentOverruns(group: seq<Listing>, percent: int)
    requires |group| >= MIN_COHORT && percent >= 120
    ensures Overruns(group, percent)
  {
    var n := |group|;
    assert n * percent >= n * 120 by { assert n * (percent - 120) >= 0; }
  }

  /** Five listings of shop 0, alike but for their ids. */
  function Five(): seq<Listing> {
    [Alike(0), Alike(1), Alike(2), Alike(3), Alike(4)]
  }

  function Alike(id: Id): (l: Listing)
    ensures InCohort(l) && l.shop == 0
  {
    Listing(id, 0, MATURITY_LIVE_DAYS, true, false, Some(Snapshot(id, 1, 0, 1, 1, true)))
  }

  lemma {:induction false} WholeCohort(listings: seq<Listing>)
    requires forall i :: 0 <= i < |listings| ==> InCohort(listings[i]) && listings[i].shop == 0
    ensures Cohort(listings, 0) == listings
    decreases |listings|
  {
    if listings != [] {
      WholeCohort(listings[1..]);
      assert listings == [listings[0]] + listings[1..];
    }
  }

  /** "Every percentage applies" is false: five listings at 120 percent ask for the sixth. */
  lemma HundredAndTwentyFails()
    ensures !Applies(Five(), 120)
  {
    WholeCohort(Five());
    LargePercentOverruns(Five(), 120);
    assert Overruns(Cohort(Five(), 0), 120);
  }

  /** The cutoff score of a cohort, if the percentile applies to it. */
  function Cutoff(group: seq<Listing>, percent: int): Option<Score>
    requires !Overruns(group, percent)
  {
    if |group| < MIN_COHORT || Pool(|group|, percent) <= 0 then None
    else
      SortIs(group);
      Some(ScoreOf(Sort(group)[Pool(|group|, percent) - 1]))
  }

  predicate BelowCutoff(l: Listing, group: seq<Listing>, percent: int)
    requires !Overruns(group, percent)
  {
    var cutoff := Cutoff(group, percent);
    cutoff.Some? && Less(ScoreOf(l), cutoff.value)
  }

  /** The ids marked for culling. */
  ghost function Culled(listings: seq<Listing>, percent: int): set<Id>
    requires Applies(listings, percent)
  {
    set l | l in listings && InCohort(l) && BelowCutoff(l, Cohort(listings, l.shop), percent) :: l.id
  }

  lemma {:induction false} CohortSnoc(listings: seq<Listing>, l: Listing, shop: Id)
    ensures Cohort(listings + [l], shop) == Cohort(listings, shop) + if InCohort(l) && l.shop == shop then [l] else []
    decreases |listings|
  {
    if listings == [] {
      assert listings + [l] == [l];
    } else {
      CohortSnoc(listings[1..], l, shop);
      assert (listings + [l])[1..] == listings[1..] + [l];
    }
  }

  method GroupByShop(listings: seq<Listing>) returns (grouped: map<Id, seq<Listing>>)
    ensures forall shop :: shop in grouped ==> grouped[shop] == Cohort(listings, shop)
    ensures forall shop :: shop !in grouped ==> Cohort(listings, shop) == []
  {
    grouped := map[];
    for i := 0 to |listings|
      invariant forall shop :: shop in grouped ==> grouped[shop] == Cohort(listings[..i], shop)
      invariant forall shop :: shop !in grouped ==> Cohort(listings[..i], shop) == []
    {
      var l := listings[i];
      forall shop
        ensures Cohort(listings[..i + 1], shop)
                == Cohort(listings[..i], shop) + if InCohort(l) && l.shop == shop then [l] else []
      {
        assert listings[..i + 1] == listings[..i] + [l];
        CohortSnoc(listings[..i], l, shop);
      }
      if InCohort(l) {
        grouped := grouped[l.shop := (if l.shop in grouped then grouped[l.shop] else []) + [l]];
      }
    }
    assert listings[..|listings|] == listings;
  }

  lemma {:induction false} CohortIs(listings: seq<Listing>, shop: Id)
    ensures forall l :: multiset(Cohort(listings, shop))[l] == if InCohort(l) && l.shop == shop then multiset(listings)[l] else 0
    decreases |listings|
  {
    if listings != [] {
      CohortIs(listings[1..], shop);
      assert listings == [listings[0]] + listings[1..];
    }
  }

  lemma InCohortIs(listings: seq<Listing>, shop: Id, l: Listing)
    ensures l in Cohort(listings, shop) <==> l in listings && InCohort(l) && l.shop == shop
  {
    CohortIs(listings, shop);
    assert l in Cohort(listings, shop) <==> multiset(Cohort(listings, shop))[l] > 0;
    assert l in listings <==> multiset(listings)[l] > 0;
  }

  /** `_cull_ids`: groups, sorts and marks as the source does. `None` is the IndexError. */
  method CullIds(listings: seq<Listing>, percent: int) returns (chosen: Option<set<Id>>)
    ensures chosen.Some? <==> Applies(listings, percent)
    ensures chosen.Some? ==> chosen.value == Culled(listings, percent)
  {
    var grouped := GroupByShop(listings);
    var ids: set<Id> := {};
    var left := grouped.Keys;
    while left != {}
      invariant left <= grouped.Keys
      invariant forall shop :: shop in grouped.Keys - left ==> !Overruns(Cohort(listings, shop), percent)
      invariant ids == set l | l in listings && InCohort(l) && l.shop in grouped.Keys - left
                               && BelowCutoff(l, Cohort(listings, l.shop), percent) :: l.id
      decreases left
    {
      var shop :| shop in left;
      if Overruns(grouped[shop], percent) { return None; }
      var marked := MarkGroup(grouped[shop], percent);
      forall l ensures l in Cohort(listings, shop) <==> l in listings && InCohort(l) && l.shop == shop {
        InCohortIs(listings, shop, l);
      }
      ids := ids + marked;
      left := left - {shop};
    }
    forall l | l in listings && InCohort(l) ensures l.shop in grouped {
      InCohortIs(listings, l.shop, l);
    }
    return Some(ids);
  }

  method MarkGroup(group: seq<Listing>, percent: int) returns (marked: set<Id>)
    requires !Overruns(group, percent)
    ensures marked == set l | l in group && BelowCutoff(l, group, percent) :: l.id
  {
    if |group| < MIN_COHORT { return {}; }
    var ordered := Sort(group);
    SortIs(group);
    SortMembers(group);
    var pool := Pool(|ordered|, percent);
    if pool <= 0 { return {}; }
    marked := MarkBelow(ordered, ScoreOf(ordered[pool - 1]));
  }

  method MarkBelow(ordered: seq<Listing>, cutoff: Score) returns (marked: set<Id>)
    ensures marked == set l | l in ordered && Less(ScoreOf(l), cutoff) :: l.id
  {
    marked := {};
    for i := 0 to |ordered|
      invariant marked == set l | l in ordered[..i] && Less(ScoreOf(l), cutoff) :: l.id
    {
      assert ordered[..i + 1] == ordered[..i] + [ordered[i]];
      if Less(ScoreOf(ordered[i]), cutoff) { marked := marked + {ordered[i].id}; }
    }
    assert ordered[..|ordered|] == ordered;
  }

  lemma SortMembers(group: seq<Listing>)
    ensures forall l :: l in Sort(group) <==> l in group
  {
    SortIs(group);
    assert forall l :: l in Sort(group) <==> l in multiset(Sort(group));
    assert forall l :: l in group <==> l in multiset(group);
  }

  // ------------------------------------------------------------ laws of culling

  /** Culling never splits a tie and never spares a lower score: it is decided by the score alone, from below. */
  lemma CullIsDownwardClosed(listings: seq<Listing>, percent: int, low: Listing, high: Listing)
    requires Applies(listings, percent) && DistinctIds(listings)
    requires low in listings && high in listings && InCohort(low) && InCohort(high) && low.shop == high.shop
    requires high.id in Culled(listings, percent) && !Less(ScoreOf(high), ScoreOf(low))
    ensures low.id in Culled(listings, percent)
  {
    var l :| l in listings && InCohort(l) && BelowCutoff(l, Cohort(listings, l.shop), percent) && l.id == high.id;
    SameId(listings, l, high);
    assert Less(ScoreOf(low), Cutoff(Cohort(listings, low.shop), percent).value);
  }

  lemma SameId(listings: seq<Listing>, a: Listing, b: Listing)
    requires DistinctIds(listings) && a in listings && b in listings && a.id == b.id
    ensures a == b
  {
    var i :| 0 <= i < |listings| && listings[i] == a;
    var j :| 0 <= j < |listings| && listings[j] == b;
    if i < j || j < i { assert false; }
  }

  ghost function CulledIn(listings: seq<Listing>, percent: int, shop: Id): set<Id>
    requires Applies(listings, percent)
  {
    set l | l in listings && InCohort(l) && l.shop == shop && BelowCutoff(l, Cohort(listings, shop), percent) :: l.id
  }

  lemma NoneBelow(ordered: seq<Listing>, k: nat)
    requires Ordered(ordered) && k < |ordered|
    ensures forall j :: k <= j < |ordered| ==> !Less(ScoreOf(ordered[j]), ScoreOf(ordered[k]))
  {
    assert forall j :: k < j < |ordered| ==> Le(ordered[k], ordered[j]);
  }

  /** Whoever is below the cutoff stands before it in the sorted cohort. */
  lemma BelowIsEarly(group: seq<Listing>, percent: int, l: Listing)
    requires !Overruns(group, percent) && l in group && BelowCutoff(l, group, percent)
    ensures |Sort(group)| == |group| && l in Sort(group)[..Pool(|group|, percent) - 1]
  {
    SortIs(group);
    SortMembers(group);
    var ordered, pool := Sort(group), Pool(|group|, percent);
    var i :| 0 <= i < |ordered| && ordered[i] == l;
    NoneBelow(ordered, pool - 1);
    assert i < pool - 1;
    assert ordered[..pool - 1][i] == l;
  }

  /** At most one less than the pool is marked, and nobody in a cohort under five. */
  lemma CullIsBounded(listings: seq<Listing>, percent: int, shop: Id)
    requires Applies(listings, percent)
    ensures var group := Cohort(listings, shop);
            && (|group| < MIN_COHORT || Pool(|group|, percent) <= 0 ==> CulledIn(listings, percent, shop) == {})
            && (Pool(|group|, percent) > 0 ==> |CulledIn(listings, percent, shop)| < Pool(|group|, percent))
  {
    var group := Cohort(listings, shop);
    var marked := CulledIn(listings, percent, shop);
    if Cutoff(group, percent).Some? {
      SortIs(group);
      var ordered, pool := Sort(group), Pool(|group|, percent);
      var early := IdsOf(ordered[..pool - 1]);
      forall l | l in listings && InCohort(l) && l.shop == shop && BelowCutoff(l, group, percent) ensures l.id in early {
        InCohortIs(listings, shop, l);
        BelowIsEarly(group, percent, l);
      }
      IdsBounded(ordered[..pool - 1]);
      SmallerSet(marked, early);
    }
  }

  function IdsOf(s: seq<Listing>): set<Id> { set l | l in s :: l.id }

  lemma {:induction false} IdsBounded(s: seq<Listing>)
    ensures |IdsOf(s)| <= |s|
    decreases |s|
  {
    if s != [] {
      IdsBounded(s[1..]);
      assert s == [s[0]] + s[1..];
      assert IdsOf(s) == IdsOf(s[1..]) + {s[0].id};
    }
  }

  lemma {:induction false} SmallerSet(a: set<Id>, b: set<Id>)
    requires a <= b
    ensures |a| <= |b|
    decreases b
  {
    if a != {} {
      var x :| x in a;
      SmallerSet(a - {x}, b - {x});
    }
  }

  /** The order of the input does not change who is marked. */
  lemma CullIgnoresOrder(left: seq<Listing>, right: seq<Listing>, percent: int)
    requires multiset(left) == multiset(right) && DistinctIds(left) && Applies(left, percent)
    ensures Applies(right, percent) && Culled(left, percent) == Culled(right, percent)
  {
    assert forall l :: l in left <==> l in multiset(left);
    assert forall l :: l in right <==> l in multiset(right);
    forall shop
      ensures !Overruns(Cohort(right, shop), percent)
      ensures Cutoff(Cohort(left, shop), percent) == Cutoff(Cohort(right, shop), percent)
    {
      SameCohort(left, right, shop);
      assert !Overruns(Cohort(left, shop), percent);
    }
  }

  lemma SameCohort(left: seq<Listing>, right: seq<Listing>, shop: Id)
    requires multiset(left) == multiset(right) && DistinctIds(left)
    ensures var a, b := Cohort(left, shop), Cohort(right, shop); |a| == |b| && Sort(a) == Sort(b)
  {
    CohortIs(left, shop);
    CohortIs(right, shop);
    var a, b := Cohort(left, shop), Cohort(right, shop);
    assert multiset(a) == multiset(b);
    assert |a| == |multiset(a)| && |b| == |multiset(b)|;
    SortIs(a);
    SortIs(b);
    SortMembers(a);
    forall x, y | x in Sort(a) && y in Sort(a) && x.id == y.id ensures x == y {
      InCohortIs(left, shop, x);
      InCohortIs(left, shop, y);
      SameId(left, x, y);
    }
    OrderedIsUnique(Sort(a), Sort(b));
  }

  // ------------------------------------------------------------ the winner

  function Reversed(s: seq<Listing>): (r: seq<Listing>)
    ensures |r| == |s| && forall i :: 0 <= i < |s| ==> r[i] == s[|s| - 1 - i]
  {
    seq(|s|, i requires 0 <= i < |s| => s[|s| - 1 - i])
  }

  /** `_unique_winner`. */
  function UniqueWinner(group: seq<Listing>): Option<Id> {
    SortIs(group);
    var ranked := Reversed(Sort(group));
    if ranked == [] then None
    else
      var best := ranked[0];
      if best.snapshot.None? || best.snapshot.value.orders <= 0 then None
      else if |ranked| > 1 && ScoreOf(ranked[1]) == ScoreOf(best) then None
      else Some(best.id)
  }

  /** The one listing of the cohort with orders and a strictly higher score than every other. */
  ghost predicate Tops(group: seq<Listing>, best: Listing) {
    && best in group && best.snapshot.Some? && best.snapshot.value.orders > 0
    && multiset(group)[best] == 1
    && forall l :: l in group && l != best ==> Less(ScoreOf(l), ScoreOf(best))
  }

  /** The last of the sorted cohort, strictly above the one before it. */
  ghost predicate StrictlyLast(ordered: seq<Listing>) {
    var n := |ordered|;
    n > 0 && (n > 1 ==> ScoreOf(ordered[n - 2]) != ScoreOf(ordered[n - 1]))
  }

  lemma LastIsAbove(ordered: seq<Listing>)
    requires Ordered(ordered) && StrictlyLast(ordered)
    ensures forall i :: 0 <= i < |ordered| - 1 ==> Less(ScoreOf(ordered[i]), ScoreOf(ordered[|ordered| - 1]))
    ensures multiset(ordered)[ordered[|ordered| - 1]] == 1
  {
    var n := |ordered|;
    var best := ordered[n - 1];
    forall i | 0 <= i < n - 1 ensures Less(ScoreOf(ordered[i]), ScoreOf(best)) {
      assert Le(ordered[n - 2], best);
      assert i < n - 2 ==> Le(ordered[i], ordered[n - 2]);
    }
    assert ordered == ordered[..n - 1] + [best];
    assert best !in ordered[..n - 1];
  }

  lemma TopIsLast(ordered: seq<Listing>, top: Listing)
    requires Ordered(ordered) && Tops(ordered, top)
    ensures top == ordered[|ordered| - 1] && StrictlyLast(ordered)
  {
    var n := |ordered|;
    var last, front := ordered[n - 1], ordered[..n - 1];
    assert ordered == front + [last];
    assert last in ordered;
    var k :| 0 <= k < n && ordered[k] == top;
    assert k < n - 1 ==> Le(top, last) && top in front;
    if n > 1 {
      assert ordered == ordered[..n - 2] + [ordered[n - 2], top];
    }
  }

  lemma WinnerIsTop(group: seq<Listing>)
    requires UniqueWinner(group).Some?
    ensures exists best :: Tops(group, best) && best.id == UniqueWinner(group).value
  {
    SortIs(group);
    SortMembers(group);
    var ordered := Sort(group);
    LastIsAbove(ordered);
    var best := ordered[|ordered| - 1];
    assert multiset(group)[best] == 1;
    assert Tops(group, best);
  }

  lemma TopIsWinner(group: seq<Listing>, best: Listing)
    requires Tops(group, best)
    ensures UniqueWinner(group) == Some(best.id)
  {
    SortIs(group);
    SortMembers(group);
    var ordered := Sort(group);
    assert Tops(ordered, best);
    TopIsLast(ordered, best);
  }

  /** `_unique_winner` finds exactly that listing, and nobody when there is none. */
  lemma WinnerTops(group: seq<Listing>)
    ensures UniqueWinner(group).Some? ==> exists best :: Tops(group, best) && best.id == UniqueWinner(group).value
    ensures forall best :: Tops(group, best) ==> UniqueWinner(group) == Some(best.id)
  {
    if UniqueWinner(group).Some? { WinnerIsTop(group); }
    forall best | Tops(group, best) ensures UniqueWinner(group) == Some(best.id) { TopIsWinner(group, best); }
  }

  lemma CutoffIsAScore(group: seq<Listing>, percent: int)
    requires !Overruns(group, percent) && Cutoff(group, percent).Some?
    ensures exists l :: l in group && ScoreOf(l) == Cutoff(group, percent).value
  {
    SortIs(group);
    SortMembers(group);
    assert Sort(group)[Pool(|group|, percent) - 1] in Sort(group);
  }

  /** A cohort's winner is never culled, with or without the explicit guard. */
  lemma WinnerIsNeverCulled(listings: seq<Listing>, percent: int, shop: Id)
    requires Applies(listings, percent) && DistinctIds(listings)
    requires UniqueWinner(Cohort(listings, shop)).Some?
    ensures UniqueWinner(Cohort(listings, shop)).value !in Culled(listings, percent)
  {
    var group := Cohort(listings, shop);
    WinnerTops(group);
    var best :| Tops(group, best) && best.id == UniqueWinner(group).value;
    InCohortIs(listings, shop, best);
    CulledMeans(listings, percent, best);
    if Cutoff(group, percent).Some? { CutoffIsAScore(group, percent); }
  }

  function Shops(listings: seq<Listing>): set<Id> { set l | l in listings && InCohort(l) :: l.shop }

  /** The shop's winner, unless it was culled. */
  function Promoted(group: seq<Listing>, culled: set<Id>): set<Id> {
    var winner := UniqueWinner(group);
    if winner.Some? && winner.value !in culled then {winner.value} else {}
  }

  /** The winners of every cohort, less the culled ids. */
  ghost predicate IsWinner(listings: seq<Listing>, culled: set<Id>, shops: set<Id>, id: Id) {
    exists shop :: shop in shops && id in Promoted(Cohort(listings, shop), culled)
  }

  ghost function Winners(listings: seq<Listing>, culled: set<Id>): set<Id> {
    set l | l in listings && IsWinner(listings, culled, Shops(listings), l.id) :: l.id
  }

  method MultiplyIds(listings: seq<Listing>, culled: set<Id>) returns (chosen: set<Id>)
    ensures chosen == Winners(listings, culled)
  {
    var grouped := GroupByShop(listings);
    chosen := {};
    var left := grouped.Keys;
    while left != {}
      invariant left <= grouped.Keys
      invariant forall id :: id in chosen <==> IsWinner(listings, culled, grouped.Keys - left, id)
      decreases left
    {
      var shop :| shop in left;
      ghost var before := left;
      chosen := chosen + Promoted(grouped[shop], culled);
      left := left - {shop};
      forall id ensures id in chosen <==> IsWinner(listings, culled, grouped.Keys - left, id) {
        assert IsWinner(listings, culled, grouped.Keys - left, id) <==>
               IsWinner(listings, culled, grouped.Keys - before, id) || id in Promoted(Cohort(listings, shop), culled);
      }
    }
    WinnersAreListed(listings, culled, grouped.Keys);
  }

  lemma WinnersAreListed(listings: seq<Listing>, culled: set<Id>, shops: set<Id>)
    requires forall shop :: shop !in shops ==> Cohort(listings, shop) == []
    ensures forall id :: IsWinner(listings, culled, shops, id) <==> id in Winners(listings, culled)
  {
    forall shop, id | id in Promoted(Cohort(listings, shop), culled)
      ensures shop in shops && shop in Shops(listings) && exists l :: l in listings && l.id == id
    {
      WinnerTops(Cohort(listings, shop));
      var best :| Tops(Cohort(listings, shop), best) && best.id == id;
      InCohortIs(listings, shop, best);
    }
  }

  // ------------------------------------------------------------ decisions

  function Classify(l: Listing, s: Snapshot, culled: set<Id>, multiply: set<Id>): Option<Decision> {
    if l.hasDefect then Some(Repair)
    else if l.liveDays < MATURITY_LIVE_DAYS then None
    else if s.views > 0 && s.orders == 0 then Some(Repair)
    else if l.id in culled then Some(Cull)
    else if l.id in multiply then Some(Multiply)
    else if l.inWindow then Some(Hold)
    else None
  }

  /** An earlier decision on the listing. Times are seconds. */
  datatype Prior = Prior(decision: Decision, snapshotId: Id, nextCollectionAt: Option<int>)

  predicate Suppressed(l: Listing, prior: Option<Prior>, now: int) {
    && prior.Some?
    && ((prior.value.decision == Hold && prior.value.nextCollectionAt.Some? && now < prior.value.nextCollectionAt.value)
        || (prior.value.decision == Repair && l.snapshot.Some? && l.snapshot.value.id == prior.value.snapshotId))
  }

  datatype Outcome = Outcome(listing: Id, decision: Decision, snapshotId: Id, nextCollectionAt: Option<int>)

  function Decide(l: Listing, culled: set<Id>, multiply: set<Id>, prior: Option<Prior>, now: int): Option<Outcome> {
    if l.snapshot.None? || !l.snapshot.value.reconciled || Suppressed(l, prior, now) then None
    else
      var decision := Classify(l, l.snapshot.value, culled, multiply);
      if decision.None? then None
      else Some(Outcome(l.id, decision.value, l.snapshot.value.id, if decision.value == Hold then Some(now + COLLECTION_GAP) else None))
  }

  function PriorOf(priors: map<Id, Prior>, id: Id): Option<Prior> {
    if id in priors then Some(priors[id]) else None
  }

  /** One outcome per decided listing, in input order. */
  function Decisions(listings: seq<Listing>, culled: set<Id>, multiply: set<Id>, priors: map<Id, Prior>, now: int): seq<Outcome> {
    if listings == [] then []
    else
      var l := listings[|listings| - 1];
      var decided := Decide(l, culled, multiply, PriorOf(priors, l.id), now);
      Decisions(listings[..|listings| - 1], culled, multiply, priors, now) + if decided.Some? then [decided.value] else []
  }

  /** With distinct ids no listing is decided twice, and every outcome belongs to a listing of the input. */
  lemma {:induction false} DecidedOnce(listings: seq<Listing>, culled: set<Id>, multiply: set<Id>, priors: map<Id, Prior>, now: int)
    requires DistinctIds(listings)
    ensures OnceEach(Decisions(listings, culled, multiply, priors, now), listings)
    decreases |listings|
  {
    if listings != [] {
      var n := |listings| - 1;
      DecidedOnce(listings[..n], culled, multiply, priors, now);
      forall id | Listed(listings[..n], id) ensures Listed(listings, id) && id != listings[n].id {
        var k :| 0 <= k < n && listings[..n][k].id == id;
        assert listings[k].id == id;
      }
      assert Listed(listings, listings[n].id);
    }
  }

  ghost predicate OnceEach(out: seq<Outcome>, listings: seq<Listing>) {
    && (forall i, j :: 0 <= i < j < |out| ==> out[i].listing != out[j].listing)
    && (forall i :: 0 <= i < |out| ==> Listed(listings, out[i].listing))
  }

  ghost predicate Listed(listings: seq<Listing>, id: Id) {
    exists k :: 0 <= k < |listings| && listings[k].id == id
  }

  /**
   Absent suppression a cohort splits into CULL, MULTIPLY and HOLD: exactly the
   listings below the cutoff, exactly the unique winner, and all the others.
   */
  lemma CohortSplits(listings: seq<Listing>, percent: int, l: Listing, now: int)
    requires Applies(listings, percent) && DistinctIds(listings) && l in listings && InCohort(l)
    ensures var culled := Culled(listings, percent);
            var multiply := Winners(listings, culled);
            var decided := Decide(l, culled, multiply, None, now);
            && decided.Some?
            && (decided.value.decision == Cull <==> BelowCutoff(l, Cohort(listings, l.shop), percent))
            && (decided.value.decision == Multiply <==> Tops(Cohort(listings, l.shop), l))
            && decided.value.decision != Repair
  {
    var culled := Culled(listings, percent);
    CulledMeans(listings, percent, l);
    WinnerMeans(listings, culled, l);
    if Tops(Cohort(listings, l.shop), l) {
      WinnerTops(Cohort(listings, l.shop));
      WinnerIsNeverCulled(listings, percent, l.shop);
    }
  }

  lemma CulledMeans(listings: seq<Listing>, percent: int, l: Listing)
    requires Applies(listings, percent) && DistinctIds(listings) && l in listings && InCohort(l)
    ensures l.id in Culled(listings, percent) <==> BelowCutoff(l, Cohort(listings, l.shop), percent)
  {
    if l.id in Culled(listings, percent) {
      var c :| c in listings && InCohort(c) && BelowCutoff(c, Cohort(listings, c.shop), percent) && c.id == l.id;
      SameId(listings, c, l);
    }
  }

  lemma WinnerMeans(listings: seq<Listing>, culled: set<Id>, l: Listing)
    requires DistinctIds(listings) && l in listings && InCohort(l)
    ensures l.id in Winners(listings, culled) <==> Tops(Cohort(listings, l.shop), l) && l.id !in culled
  {
    if l.id in Winners(listings, culled) {
      var shop :| shop in Shops(listings) && l.id in Promoted(Cohort(listings, shop), culled);
      WinnerTops(Cohort(listings, shop));
      var best :| Tops(Cohort(listings, shop), best) && best.id == l.id;
      InCohortIs(listings, shop, best);
      SameId(listings, best, l);
    }
    if Tops(Cohort(listings, l.shop), l) && l.id !in culled {
      WinnerTops(Cohort(listings, l.shop));
      assert l.shop in Shops(listings) && l.id in Promoted(Cohort(listings, l.shop), culled);
    }
  }

  /** At most one listing of a shop is multiplied. */
  lemma OneWinnerPerShop(listings: seq<Listing>, shop: Id, a: Listing, b: Listing)
    requires Tops(Cohort(listings, shop), a) && Tops(Cohort(listings, shop), b)
    ensures a == b
  {
  }
}

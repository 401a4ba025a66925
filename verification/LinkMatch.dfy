/** Aligning the links extracted from a delivery PDF with the accepted ones. */
module LinkMatch {
  import opened Options

  // ------------------------------------------------------------ the reference: subsequences

  predicate Increasing(f: seq<nat>) { forall i, j :: 0 <= i < j < |f| ==> f[i] < f[j] }

  /** `f` places each of `us`, in order, on an equal element of `es`. */
  predicate Embeds(us: seq<string>, es: seq<string>, f: seq<nat>) {
    && |f| == |us| && Increasing(f)
    && forall i :: 0 <= i < |f| ==> f[i] < |es| && us[i] == es[f[i]]
  }

  predicate Behind(f: seq<nat>, i: nat, m: nat)
    requires i <= |f|
  {
    i == 0 || f[i - 1] < m
  }

  /** Nothing equal is passed over: each URI takes the first equal link after the one before it. */
  ghost predicate Earliest(us: seq<string>, es: seq<string>, f: seq<nat>) {
    |f| <= |us| && forall i, m :: 0 <= i < |f| && 0 <= m < f[i] && m < |es| && Behind(f, i, m) ==> es[m] != us[i]
  }

  /** So every placement puts every URI at the same link or a later one. */
  lemma {:induction false} EarliestIsLeast(us: seq<string>, es: seq<string>, f: seq<nat>, g: seq<nat>, i: nat)
    requires Embeds(us, es, f) && Earliest(us, es, f) && Embeds(us, es, g) && i < |f|
    ensures f[i] <= g[i]
    decreases i
  {
    if i > 0 { EarliestIsLeast(us, es, f, g, i - 1); }
    if g[i] < f[i] { assert Behind(f, i, g[i]); }
  }

  /** After `k` accepted links: nothing equal was passed over so far, for the placed URIs or the next one. */
  ghost predicate FirstTaken(us: seq<string>, es: seq<string>, f: seq<nat>, k: nat) {
    && Earliest(us, es, f) && k <= |es| && (forall i :: 0 <= i < |f| ==> f[i] < k)
    && (|f| < |us| ==> forall m :: 0 <= m < k && Behind(f, |f|, m) ==> es[m] != us[|f|])
  }

  lemma TakeFirst(us: seq<string>, es: seq<string>, f: seq<nat>, k: nat)
    requires FirstTaken(us, es, f, k) && |f| < |us| && k < |es|
    ensures FirstTaken(us, es, f + [k], k + 1)
  {
    var g := f + [k];
    forall i, m | 0 <= i < |g| && 0 <= m < g[i] && m < |es| && Behind(g, i, m) ensures es[m] != us[i] {
      assert Behind(f, i, m);
    }
  }

  lemma SkipOther(us: seq<string>, es: seq<string>, f: seq<nat>, k: nat)
    requires FirstTaken(us, es, f, k) && k < |es| && (|f| < |us| ==> us[|f|] != es[k])
    ensures FirstTaken(us, es, f, k + 1)
  {
  }

  ghost predicate IsSub(us: seq<string>, es: seq<string>) { exists f :: Embeds(us, es, f) }

  /** `n` is the length of the longest prefix of `us` that is a subsequence of `es`. */
  ghost predicate LongestPrefix(us: seq<string>, es: seq<string>, n: nat) {
    && n <= |us| && IsSub(us[..n], es)
    && forall m :: n < m <= |us| ==> !IsSub(us[..m], es)
  }

  /** The indices below `n` that `f` does not use, in order. */
  function Unused(f: seq<nat>, n: nat): (out: seq<nat>)
    ensures forall k: nat :: k in out <==> k < n && k !in f
    ensures Increasing(out) && forall i :: 0 <= i < |out| ==> out[i] < n
  {
    if n == 0 then []
    else
      var rest := Unused(f, n - 1);
      if n - 1 in f then rest else rest + [n - 1]
  }

  lemma TrimLast(us: seq<string>, es: seq<string>, f: seq<nat>, k: nat)
    requires us != [] && Embeds(us, es, f) && k <= |es| && f[|f| - 1] <= k
    ensures Embeds(us[..|us| - 1], es[..k], f[..|f| - 1])
  {
  }

  lemma SubOfPrefix(us: seq<string>, es: seq<string>, m: nat)
    requires IsSub(us, es) && m <= |us|
    ensures IsSub(us[..m], es)
  {
    var f :| Embeds(us, es, f);
    assert Embeds(us[..m], es, f[..m]);
  }

  /** After `k` accepted links: `f` places the first URIs on them, and one URI more does not fit. */
  ghost predicate Greedy(us: seq<string>, es: seq<string>, f: seq<nat>, k: nat) {
    && |f| <= |us| && k <= |es| && Embeds(us[..|f|], es[..k], f)
    && (|f| < |us| ==> !IsSub(us[..|f| + 1], es[..k]))
  }

  /** One more accepted link, taken: the next URI is placed on it, and the one after still does not fit. */
  lemma TakeNext(us: seq<string>, es: seq<string>, f: seq<nat>, k: nat)
    requires Greedy(us, es, f, k) && |f| < |us| && k < |es| && us[|f|] == es[k]
    ensures Greedy(us, es, f + [k], k + 1)
  {
    var c := |f|;
    assert es[..k + 1][..k] == es[..k];
    if c + 2 <= |us| {
      assert us[..c + 2][..c + 1] == us[..c + 1];
      if IsSub(us[..c + 2], es[..k + 1]) {
        var g :| Embeds(us[..c + 2], es[..k + 1], g);
        TrimLast(us[..c + 2], es[..k + 1], g, k);
      }
    }
  }

  /** One more accepted link, skipped: it is not the next URI, so it helps no embedding. */
  lemma SkipNext(us: seq<string>, es: seq<string>, f: seq<nat>, k: nat)
    requires Greedy(us, es, f, k) && k < |es| && (|f| < |us| ==> us[|f|] != es[k])
    ensures Greedy(us, es, f, k + 1)
  {
    var c := |f|;
    assert Embeds(us[..c], es[..k + 1], f);
    if c < |us| && IsSub(us[..c + 1], es[..k + 1]) {
      var g :| Embeds(us[..c + 1], es[..k + 1], g);
      assert us[..c + 1][c] == us[c];
      Narrow(us[..c + 1], es, g, k);
    }
  }

  lemma GreedyStart(us: seq<string>, es: seq<string>)
    ensures Greedy(us, es, [], 0)
  {
    assert Embeds(us[..0], es[..0], []);
    forall f: seq<nat> | |us| > 0 ensures !Embeds(us[..1], es[..0], f) {
      assert |f| == 1 ==> !(f[0] < |es[..0]|);
    }
  }

  lemma GreedyEnd(us: seq<string>, es: seq<string>, f: seq<nat>)
    requires Greedy(us, es, f, |es|)
    ensures Embeds(us[..|f|], es, f) && LongestPrefix(us, es, |f|)
  {
    assert es[..|es|] == es;
    forall m | |f| < m <= |us| ensures !IsSub(us[..m], es) {
      assert us[..m][..|f| + 1] == us[..|f| + 1];
      if IsSub(us[..m], es) { SubOfPrefix(us[..m], es, |f| + 1); }
    }
  }

  lemma Narrow(us: seq<string>, es: seq<string>, g: seq<nat>, k: nat)
    requires us != [] && k < |es| && Embeds(us, es[..k + 1], g) && us[|us| - 1] != es[k]
    ensures Embeds(us, es[..k], g)
  {
    assert g[|g| - 1] < k;
    forall i | 0 <= i < |g| ensures g[i] < k && us[i] == es[..k][g[i]] {
      assert es[..k + 1][g[i]] == es[g[i]];
    }
  }

  // ------------------------------------------------------------ `_match`

  /** The greedy pairing as a placement of the first URIs. */
  ghost predicate Paired(pairs: map<nat, nat>, f: seq<nat>) {
    && (forall i: nat :: i in pairs <==> i < |f|)
    && forall i: nat :: i < |f| ==> pairs[i] == f[i]
  }

  lemma PairedNext(pairs: map<nat, nat>, f: seq<nat>, k: nat)
    requires Paired(pairs, f)
    ensures Paired(pairs[|f| := k], f + [k])
  {
  }

  /** The longest alignment of a shorter PDF: its pairs, each taken as early as possible, and the links left over. */
  ghost predicate Aligns(uris: seq<string>, expected: seq<string>, pairs: map<nat, nat>, missing: seq<nat>, f: seq<nat>) {
    && Paired(pairs, f) && LongestPrefix(uris, expected, |f|) && Embeds(uris[..|f|], expected, f)
    && Earliest(uris, expected, f) && missing == Unused(f, |expected|)
  }

  /** The same after `k` accepted links. */
  ghost predicate AlignsTo(uris: seq<string>, expected: seq<string>, pairs: map<nat, nat>, missing: seq<nat>, f: seq<nat>, k: nat) {
    Paired(pairs, f) && Greedy(uris, expected, f, k) && FirstTaken(uris, expected, f, k) && missing == Unused(f, k)
  }

  lemma AlignTake(uris: seq<string>, expected: seq<string>, pairs: map<nat, nat>, missing: seq<nat>, f: seq<nat>, k: nat)
    requires AlignsTo(uris, expected, pairs, missing, f, k) && |f| < |uris| && k < |expected| && uris[|f|] == expected[k]
    ensures AlignsTo(uris, expected, pairs[|f| := k], missing, f + [k], k + 1)
  {
    TakeNext(uris, expected, f, k);
    TakeFirst(uris, expected, f, k);
    UnusedTaken(f, k);
    PairedNext(pairs, f, k);
  }

  lemma AlignSkip(uris: seq<string>, expected: seq<string>, pairs: map<nat, nat>, missing: seq<nat>, f: seq<nat>, k: nat)
    requires AlignsTo(uris, expected, pairs, missing, f, k) && k < |expected| && (|f| < |uris| ==> uris[|f|] != expected[k])
    ensures AlignsTo(uris, expected, pairs, missing + [k], f, k + 1)
  {
    SkipNext(uris, expected, f, k);
    SkipOther(uris, expected, f, k);
  }

  method MatchShorter(uris: seq<string>, expected: seq<string>)
    returns (pairs: map<nat, nat>, missing: seq<nat>)
    ensures exists f :: Aligns(uris, expected, pairs, missing, f)
  {
    pairs, missing := map[], [];
    ghost var f: seq<nat> := [];
    var cursor := 0;
    GreedyStart(uris, expected);
    for k := 0 to |expected|
      invariant cursor == |f| && AlignsTo(uris, expected, pairs, missing, f, k)
    {
      if cursor < |uris| && uris[cursor] == expected[k] {
        AlignTake(uris, expected, pairs, missing, f, k);
        pairs := pairs[cursor := k];
        cursor := cursor + 1;
        f := f + [k];
      } else {
        AlignSkip(uris, expected, pairs, missing, f, k);
        missing := missing + [k];
      }
    }
    GreedyEnd(uris, expected, f);
    assert Aligns(uris, expected, pairs, missing, f);
  }

  lemma {:induction false} UnusedTaken(f: seq<nat>, n: nat)
    requires forall i :: 0 <= i < |f| ==> f[i] < n
    ensures Unused(f + [n], n + 1) == Unused(f, n)
  {
    UnusedIgnores(f, n, n);
  }

  lemma {:induction false} UnusedIgnores(f: seq<nat>, big: nat, n: nat)
    requires n <= big
    ensures Unused(f + [big], n) == Unused(f, n)
    decreases n
  {
    if n > 0 {
      var g := f + [big];
      assert n - 1 in g <==> n - 1 in f;
      UnusedIgnores(f, big, n - 1);
    }
  }

  method Match(uris: seq<string>, expected: seq<string>) returns (pairs: map<nat, nat>, missing: seq<nat>)
    ensures Matched(uris, expected, pairs, missing)
    ensures forall i: nat :: i in pairs ==> i < |uris| && pairs[i] < |expected| && uris[i] == expected[pairs[i]]
    ensures forall m :: 0 <= m < |missing| ==> missing[m] < |expected|
  {
    if |uris| < |expected| {
      pairs, missing := MatchShorter(uris, expected);
      return;
    }
    pairs, missing := map[], [];
    for i := 0 to |expected|
      invariant forall k: nat :: k in pairs ==> k < i && pairs[k] == k && uris[k] == expected[k]
      invariant forall k: nat :: k < i && uris[k] == expected[k] ==> k in pairs
    {
      if uris[i] == expected[i] { pairs := pairs[i := i]; }
    }
  }

  // ------------------------------------------------------------ `validate_pdf_links`

  datatype Accepted = Accepted(variant: string, uri: string)

  datatype Repair = Repair(link: string, reason: string, index: int)

  /** `observed`: the checker was asked about the link. */
  datatype Record = Record(uri: string, variant: string, observed: bool)

  datatype Verdict = Report(records: seq<Record>) | Refusal(repairs: seq<Repair>, records: seq<Record>)

  function Expected(accepted: seq<Accepted>): seq<string> {
    seq(|accepted|, i requires 0 <= i < |accepted| => accepted[i].uri)
  }

  /** The link rules and the injected checker, each naming a reason to refuse. */
  datatype Rules = Rules(refuseLink: (string, string) -> Option<string>, refuseObserved: (string, string) -> Option<string>)

  function Reason(rules: Rules, uri: string, variant: string, paired: bool): Option<string> {
    var refused := rules.refuseLink(uri, variant);
    if refused.Some? then refused
    else if !paired then Some("link_mismatch")
    else rules.refuseObserved(uri, variant)
  }

  predicate LinkPasses(rules: Rules, uri: string, variant: string) {
    rules.refuseLink(uri, variant).None? && rules.refuseObserved(uri, variant).None?
  }

  ghost predicate PairsInto(pairs: map<nat, nat>, uris: seq<string>, n: nat) {
    forall i: nat :: i in pairs ==> i < |uris| && pairs[i] < n
  }

  /** The variant a link is checked against: its pair's, or its position's. */
  function VariantOf(accepted: seq<Accepted>, pairs: map<nat, nat>, i: nat): string
    requires i in pairs ==> pairs[i] < |accepted|
  {
    if i in pairs then accepted[pairs[i]].variant else if i < |accepted| then accepted[i].variant else ""
  }

  /** One repair, with its reason and position, for each of the first `n` links that is unpaired or refused, in order. */
  ghost function LinkRepairs(uris: seq<string>, accepted: seq<Accepted>, pairs: map<nat, nat>, rules: Rules, n: nat): seq<Repair>
    requires PairsInto(pairs, uris, |accepted|) && n <= |uris|
  {
    if n == 0 then []
    else
      var reason := Reason(rules, uris[n - 1], VariantOf(accepted, pairs, n - 1), n - 1 in pairs);
      LinkRepairs(uris, accepted, pairs, rules, n - 1) + if reason.Some? then [Repair(uris[n - 1], reason.value, n - 1)] else []
  }

  /** One record per link, in order; the checker is asked only about a paired link its own rules accept. */
  ghost predicate RecordsOf(records: seq<Record>, uris: seq<string>, accepted: seq<Accepted>, pairs: map<nat, nat>, rules: Rules, n: nat) {
    n <= |uris| && |records| == n && forall i: nat :: i < n ==>
      && ReadAs(accepted, pairs, i, records[i].variant) && records[i].uri == uris[i]
      && (records[i].observed <==> i in pairs && rules.refuseLink(uris[i], records[i].variant).None?)
  }

  lemma RecordsNext(records: seq<Record>, record: Record, uris: seq<string>, accepted: seq<Accepted>, pairs: map<nat, nat>, rules: Rules, n: nat)
    requires RecordsOf(records, uris, accepted, pairs, rules, n) && n < |uris|
    requires ReadAs(accepted, pairs, n, record.variant) && record.uri == uris[n]
    requires record.observed <==> n in pairs && rules.refuseLink(uris[n], record.variant).None?
    ensures RecordsOf(records + [record], uris, accepted, pairs, rules, n + 1)
  {
  }

  ghost predicate AllPass(uris: seq<string>, accepted: seq<Accepted>, pairs: map<nat, nat>, rules: Rules, n: nat)
    requires PairsInto(pairs, uris, |accepted|) && n <= |uris|
  {
    forall i: nat :: i < n ==> i in pairs && LinkPasses(rules, uris[i], accepted[pairs[i]].variant)
  }

  /** Link `i` is read against the variant of the accepted link it is paired with, else of the one at its position, else none. */
  predicate ReadAs(accepted: seq<Accepted>, pairs: map<nat, nat>, i: nat, variant: string) {
    if i in pairs then pairs[i] < |accepted| && variant == accepted[pairs[i]].variant
    else if i < |accepted| then variant == accepted[i].variant
    else variant == ""
  }

  /** Why link `i` fails: its own rules first, then the missing pair, then what the checker saw. */
  predicate FailsFor(uris: seq<string>, accepted: seq<Accepted>, pairs: map<nat, nat>, rules: Rules, i: nat, variant: string, reason: string)
    requires i < |uris|
  {
    && ReadAs(accepted, pairs, i, variant)
    && match rules.refuseLink(uris[i], variant)
       case Some(why) => reason == why
       case None => if i !in pairs then reason == "link_mismatch" else rules.refuseObserved(uris[i], variant) == Some(reason)
  }

  ghost predicate Fails(uris: seq<string>, accepted: seq<Accepted>, pairs: map<nat, nat>, rules: Rules, i: nat)
    requires i < |uris|
  {
    exists variant, reason :: FailsFor(uris, accepted, pairs, rules, i, variant, reason)
  }

  ghost predicate RepairOf(repair: Repair, uris: seq<string>, accepted: seq<Accepted>, pairs: map<nat, nat>, rules: Rules, n: nat) {
    && 0 <= repair.index < n && n <= |uris| && repair.link == uris[repair.index]
    && exists variant :: FailsFor(uris, accepted, pairs, rules, repair.index, variant, repair.reason)
  }

  ghost predicate Names(repairs: seq<Repair>, i: int) { exists k :: 0 <= k < |repairs| && repairs[k].index == i }

  /** One repair for each of the first `n` links that fails, by rising position, each with its own reason. */
  ghost predicate RepairsSay(repairs: seq<Repair>, uris: seq<string>, accepted: seq<Accepted>, pairs: map<nat, nat>, rules: Rules, n: nat) {
    && n <= |uris|
    && (forall j, k :: 0 <= j < k < |repairs| ==> repairs[j].index < repairs[k].index)
    && (forall k :: 0 <= k < |repairs| ==> RepairOf(repairs[k], uris, accepted, pairs, rules, n))
    && forall i: nat :: i < n ==> (Names(repairs, i) <==> Fails(uris, accepted, pairs, rules, i))
  }

  lemma ReasonMeans(uris: seq<string>, accepted: seq<Accepted>, pairs: map<nat, nat>, rules: Rules, i: nat)
    requires PairsInto(pairs, uris, |accepted|) && i < |uris|
    ensures var variant := VariantOf(accepted, pairs, i);
            var reason := Reason(rules, uris[i], variant, i in pairs);
            && (reason.Some? ==> FailsFor(uris, accepted, pairs, rules, i, variant, reason.value))
            && (reason.Some? <==> Fails(uris, accepted, pairs, rules, i))
  {
    var variant := VariantOf(accepted, pairs, i);
    var reason := Reason(rules, uris[i], variant, i in pairs);
    if reason.Some? { assert FailsFor(uris, accepted, pairs, rules, i, variant, reason.value); }
  }

  lemma RepairsSayNext(repairs: seq<Repair>, more: seq<Repair>, uris: seq<string>, accepted: seq<Accepted>, pairs: map<nat, nat>, rules: Rules, n: nat)
    requires n < |uris| && RepairsSay(repairs, uris, accepted, pairs, rules, n)
    requires |more| <= 1 && (|more| == 1 <==> Fails(uris, accepted, pairs, rules, n))
    requires |more| == 1 ==> more[0].index == n && RepairOf(more[0], uris, accepted, pairs, rules, n + 1)
    ensures RepairsSay(repairs + more, uris, accepted, pairs, rules, n + 1)
  {
    var all := repairs + more;
    forall k | 0 <= k < |all| ensures RepairOf(all[k], uris, accepted, pairs, rules, n + 1) {
      if k < |repairs| { assert RepairOf(repairs[k], uris, accepted, pairs, rules, n); }
    }
    forall i: nat | i < n + 1 ensures Names(all, i) <==> Fails(uris, accepted, pairs, rules, i) {
      NamesNext(repairs, more, i);
      if i == n && Names(repairs, n) {
        var k :| 0 <= k < |repairs| && repairs[k].index == n;
        assert RepairOf(repairs[k], uris, accepted, pairs, rules, n);
      }
    }
  }

  lemma NamesNext(repairs: seq<Repair>, more: seq<Repair>, i: int)
    ensures Names(repairs + more, i) <==> Names(repairs, i) || Names(more, i)
  {
    var all := repairs + more;
    if Names(repairs, i) {
      var k :| 0 <= k < |repairs| && repairs[k].index == i;
      assert all[k].index == i;
    }
    if Names(more, i) {
      var k :| 0 <= k < |more| && more[k].index == i;
      assert all[|repairs| + k].index == i;
    }
  }

  lemma {:induction false} RepairsMean(uris: seq<string>, accepted: seq<Accepted>, pairs: map<nat, nat>, rules: Rules, n: nat)
    requires PairsInto(pairs, uris, |accepted|) && n <= |uris|
    ensures RepairsSay(LinkRepairs(uris, accepted, pairs, rules, n), uris, accepted, pairs, rules, n)
    decreases n
  {
    if n > 0 {
      RepairsMean(uris, accepted, pairs, rules, n - 1);
      ReasonMeans(uris, accepted, pairs, rules, n - 1);
      var reason := Reason(rules, uris[n - 1], VariantOf(accepted, pairs, n - 1), n - 1 in pairs);
      var more := if reason.Some? then [Repair(uris[n - 1], reason.value, n - 1)] else [];
      RepairsSayNext(LinkRepairs(uris, accepted, pairs, rules, n - 1), more, uris, accepted, pairs, rules, n - 1);
    }
  }

  lemma {:induction false} NoRepairsMeans(uris: seq<string>, accepted: seq<Accepted>, pairs: map<nat, nat>, rules: Rules, n: nat)
    requires PairsInto(pairs, uris, |accepted|) && n <= |uris|
    ensures LinkRepairs(uris, accepted, pairs, rules, n) == [] <==> AllPass(uris, accepted, pairs, rules, n)
    decreases n
  {
    if n > 0 { NoRepairsMeans(uris, accepted, pairs, rules, n - 1); }
  }

  /** The pairing loop. */
  method CheckLinks(uris: seq<string>, accepted: seq<Accepted>, pairs: map<nat, nat>, rules: Rules)
    returns (repairs: seq<Repair>, records: seq<Record>)
    requires PairsInto(pairs, uris, |accepted|)
    ensures repairs == LinkRepairs(uris, accepted, pairs, rules, |uris|)
    ensures RepairsSay(repairs, uris, accepted, pairs, rules, |uris|)
    ensures RecordsOf(records, uris, accepted, pairs, rules, |uris|)
  {
    repairs, records := [], [];
    for index := 0 to |uris|
      invariant repairs == LinkRepairs(uris, accepted, pairs, rules, index)
      invariant RecordsOf(records, uris, accepted, pairs, rules, index)
    {
      var variant := if index in pairs then accepted[pairs[index]].variant
                     else if index < |accepted| then accepted[index].variant else "";
      var reason := Reason(rules, uris[index], variant, index in pairs);
      var record := Record(uris[index], variant, index in pairs && rules.refuseLink(uris[index], variant).None?);
      RecordsNext(records, record, uris, accepted, pairs, rules, index);
      records := records + [record];
      if reason.Some? { repairs := repairs + [Repair(uris[index], reason.value, index)]; }
    }
    RepairsMean(uris, accepted, pairs, rules, |uris|);
  }

  /** One mismatch for each accepted link that is missing, in order. */
  ghost predicate NamesMissing(repairs: seq<Repair>, expected: seq<string>, missing: seq<nat>) {
    |repairs| == |missing| && forall m :: 0 <= m < |missing| ==>
      missing[m] < |expected| && repairs[m] == Repair(expected[missing[m]], "link_mismatch", missing[m])
  }

  method NameMissing(expected: seq<string>, missing: seq<nat>) returns (repairs: seq<Repair>)
    requires forall m :: 0 <= m < |missing| ==> missing[m] < |expected|
    ensures NamesMissing(repairs, expected, missing)
  {
    repairs := [];
    for m := 0 to |missing|
      invariant |repairs| == m
      invariant forall n :: 0 <= n < m ==> repairs[n] == Repair(expected[missing[n]], "link_mismatch", missing[n])
    {
      repairs := repairs + [Repair(expected[missing[m]], "link_mismatch", missing[m])];
    }
  }

  /** What `_match` found: by position, or the longest alignment of a shorter PDF. */
  ghost predicate Matched(uris: seq<string>, expected: seq<string>, pairs: map<nat, nat>, missing: seq<nat>) {
    if |uris| < |expected| then
      exists f :: Aligns(uris, expected, pairs, missing, f)
    else missing == [] && Positional(uris, expected, pairs)
  }

  ghost predicate Positional(uris: seq<string>, expected: seq<string>, pairs: map<nat, nat>) {
    && (forall i: nat :: i in pairs ==> i < |uris| && i < |expected| && pairs[i] == i && uris[i] == expected[i])
    && (forall i: nat :: i < |uris| && i < |expected| && uris[i] == expected[i] ==> i in pairs)
  }

  /** The repairs of a refused PDF: its links' own in order, then the missing accepted links'. */
  ghost predicate RefusalOf(repairs: seq<Repair>, records: seq<Record>, uris: seq<string>, accepted: seq<Accepted>,
                            rules: Rules, pairs: map<nat, nat>, missing: seq<nat>, own: seq<Repair>, absent: seq<Repair>) {
    && PairsInto(pairs, uris, |accepted|) && Matched(uris, Expected(accepted), pairs, missing)
    && NamesMissing(absent, Expected(accepted), missing)
    && repairs == own + absent && RepairsSay(own, uris, accepted, pairs, rules, |uris|)
    && RecordsOf(records, uris, accepted, pairs, rules, |uris|)
  }

  /**
   A report exactly when the PDF's links are the accepted links, in order, and each
   passes every rule. Otherwise the repairs name every failing link with its reason and position.
   */
  method ValidateLinks(uris: seq<string>, accepted: seq<Accepted>, rules: Rules) returns (verdict: Verdict)
    ensures verdict.Report? <==>
              && uris != [] && uris == Expected(accepted)
              && forall i: nat :: i < |uris| ==> LinkPasses(rules, uris[i], accepted[i].variant)
    ensures verdict.Refusal? ==> verdict.repairs != []
    ensures verdict.Report? ==> |verdict.records| == |uris| && forall i: nat :: i < |uris| ==>
              verdict.records[i] == Record(uris[i], accepted[i].variant, true)
    ensures verdict.Refusal? && uris == [] ==> verdict == Refusal([Repair("", "missing_links", -1)], [])
    ensures verdict.Refusal? && uris != [] ==> exists pairs, missing, own, absent ::
              RefusalOf(verdict.repairs, verdict.records, uris, accepted, rules, pairs, missing, own, absent)
  {
    if |uris| == 0 { return Refusal([Repair("", "missing_links", -1)], []); }
    var expected := Expected(accepted);
    var pairs, missing := Match(uris, expected);
    var links, records := CheckLinks(uris, accepted, pairs, rules);
    var absent := NameMissing(expected, missing);
    NoRepairsMeans(uris, accepted, pairs, rules, |uris|);
    AllPaired(uris, accepted, pairs, missing, rules);
    var repairs := links + absent;
    if repairs != [] {
      assert RefusalOf(repairs, records, uris, accepted, rules, pairs, missing, links, absent);
      return Refusal(repairs, records);
    }
    return Report(records);
  }

  lemma AllPaired(uris: seq<string>, accepted: seq<Accepted>, pairs: map<nat, nat>, missing: seq<nat>, rules: Rules)
    requires PairsInto(pairs, uris, |accepted|) && Matched(uris, Expected(accepted), pairs, missing)
    ensures missing == [] && AllPass(uris, accepted, pairs, rules, |uris|) <==>
            && uris == Expected(accepted)
            && forall i: nat :: i < |uris| ==> LinkPasses(rules, uris[i], accepted[i].variant)
    ensures missing == [] ==> forall i: nat :: i in pairs ==> pairs[i] == i
  {
    var expected := Expected(accepted);
    if |uris| < |expected| {
      var f :| Aligns(uris, expected, pairs, missing, f);
      MissingSomething(f, |expected|);
    } else if |uris| > |expected| {
      assert |expected| !in pairs;
    }
  }

  /** A shorter placement always leaves an accepted link unused. */
  lemma {:induction false} MissingSomething(f: seq<nat>, n: nat)
    requires |f| < n && Increasing(f) && forall i :: 0 <= i < |f| ==> f[i] < n
    ensures Unused(f, n) != []
    decreases n
  {
    if n - 1 in f {
      assert f[|f| - 1] == n - 1;
      var g := f[..|f| - 1];
      MissingSomething(g, n - 1);
      assert f == g + [n - 1];
      UnusedIgnores(g, n - 1, n - 1);
    }
  }
}

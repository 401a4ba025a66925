/**
 Which rendered assets of a product are stale for one spec version, and the Etsy
 draft gate that asks for none. Staleness spreads from a source to its dependents.
 */
module AssetLineage {
  import opened Options

  datatype Kind = Screenshot | ListingImage | Walkthrough | DeliveryPdf

  datatype Qa = Passed | Stale

  /** `detail` stands for the fields staleness does not read. */
  datatype Asset = Asset(productId: string, spec: int, sources: seq<string>, output: string, qa: Qa, kind: Kind, detail: string)

  /** Stale identity: two specs can share one output hash. */
  type Identity = (int, string)

  function Id(a: Asset): Identity { (a.spec, a.output) }

  function Owned(assets: seq<Asset>, productId: string): (owned: seq<Asset>)
    ensures forall a :: a in owned <==> a in assets && a.productId == productId
    ensures |owned| <= |assets|
    ensures |owned| == |assets| <==> forall a :: a in assets ==> a.productId == productId
    ensures |owned| == |assets| ==> owned == assets
  {
    if assets == [] then []
    else
      var rest := Owned(assets[1..], productId);
      if assets[0].productId == productId then [assets[0]] + rest
      else
        assert assets[0] in assets;
        rest
  }

  function Known(owned: seq<Asset>): set<Identity> {
    set a | a in owned :: Id(a)
  }

  // ------------------------------------------------------------ the rules as coded

  /** `_resolve_source`: a screenshot with that identity if there is one, else the first asset with it. */
  function Resolve(owned: seq<Asset>, id: Identity): (found: Option<Asset>)
    ensures found.None? <==> forall a :: a in owned ==> Id(a) != id
    ensures found.Some? ==> found.value in owned && Id(found.value) == id
    ensures (found.Some? && found.value.kind == Screenshot) <==> exists a :: a in owned && Id(a) == id && a.kind == Screenshot
  {
    if owned == [] then None
    else
      var later := Resolve(owned[1..], id);
      if Id(owned[0]) != id then later
      else if owned[0].kind != Screenshot && later.Some? && later.value.kind == Screenshot then later
      else Some(owned[0])
  }

  predicate SourceBlocked(src: string, spec: int, owned: seq<Asset>) {
    var found := Resolve(owned, (spec, src));
    found.Some? && found.value.kind != Screenshot
  }

  predicate SourceStale(src: string, spec: int, stale: set<Identity>, known: set<Identity>) {
    (spec, src) !in known || (spec, src) in stale
  }

  predicate IsStale(a: Asset, spec: int, stale: set<Identity>, known: set<Identity>, owned: seq<Asset>) {
    || a.spec != spec
    || a.qa != Passed
    || (exists i :: 0 <= i < |a.sources| && SourceBlocked(a.sources[i], a.spec, owned))
    || (exists i :: 0 <= i < |a.sources| && SourceStale(a.sources[i], a.spec, stale, known))
  }

  // ------------------------------------------------------------ the rules as meant

  /** Some owned screenshot has this identity. */
  predicate HasShot(owned: seq<Asset>, id: Identity) {
    exists a :: a in owned && Id(a) == id && a.kind == Screenshot
  }

  /** Wrong spec, failed QA, or a source that is no screenshot of this spec, or one already stale. */
  predicate Tainted(a: Asset, spec: int, stale: set<Identity>, owned: seq<Asset>) {
    || a.spec != spec
    || a.qa != Passed
    || exists i :: 0 <= i < |a.sources| && (!HasShot(owned, (a.spec, a.sources[i])) || (a.spec, a.sources[i]) in stale)
  }

  lemma CodeMeansTainted(a: Asset, spec: int, stale: set<Identity>, owned: seq<Asset>)
    ensures IsStale(a, spec, stale, Known(owned), owned) <==> Tainted(a, spec, stale, owned)
  {
    forall i | 0 <= i < |a.sources|
      ensures SourceBlocked(a.sources[i], a.spec, owned) || SourceStale(a.sources[i], a.spec, stale, Known(owned))
              <==> !HasShot(owned, (a.spec, a.sources[i])) || (a.spec, a.sources[i]) in stale
    {
      var id := (a.spec, a.sources[i]);
      var found := Resolve(owned, id);
      if found.Some? { assert Id(found.value) in Known(owned); }
    }
  }

  ghost predicate Closed(stale: set<Identity>, owned: seq<Asset>, spec: int) {
    forall a :: a in owned && Tainted(a, spec, stale, owned) ==> Id(a) in stale
  }

  /** The least set of identities closed under the rules. */
  ghost predicate LeastStale(stale: set<Identity>, owned: seq<Asset>, spec: int) {
    && Closed(stale, owned, spec)
    && forall other :: Closed(other, owned, spec) ==> stale <= other
  }

  lemma TaintSpreads(a: Asset, spec: int, small: set<Identity>, big: set<Identity>, owned: seq<Asset>)
    requires small <= big && Tainted(a, spec, small, owned)
    ensures Tainted(a, spec, big, owned)
  {
  }

  // ------------------------------------------------------------ staleness as a chain of sources

  /** An owned screenshot of that spec has that output hash. */
  ghost predicate Shot(owned: seq<Asset>, spec: int, hash: string) {
    exists b :: b in owned && b.spec == spec && b.output == hash && b.kind == Screenshot
  }

  /** Stale by itself: another spec, failed QA, or a source that no owned screenshot of its spec is. */
  ghost predicate Bad(a: Asset, spec: int, owned: seq<Asset>) {
    a.spec != spec || a.qa != Passed || exists i :: 0 <= i < |a.sources| && !Shot(owned, a.spec, a.sources[i])
  }

  /** From `path[0]`, each asset is named by hash among the sources of the one before it, in the same spec; the last is bad. */
  ghost predicate Traces(path: seq<Asset>, spec: int, owned: seq<Asset>) {
    && path != [] && (forall a <- path :: a in owned) && Bad(path[|path| - 1], spec, owned)
    && forall i :: 0 <= i < |path| - 1 ==> path[i + 1].spec == path[i].spec && path[i + 1].output in path[i].sources
  }

  /** A chain starts at an asset of this spec and hash. */
  ghost predicate Traced(id: Identity, spec: int, owned: seq<Asset>) {
    exists path: seq<Asset> :: Traces(path, spec, owned) && path[0].spec == id.0 && path[0].output == id.1
  }

  lemma {:induction false} TraceIsStale(path: seq<Asset>, spec: int, owned: seq<Asset>, stale: set<Identity>)
    requires Traces(path, spec, owned) && Closed(stale, owned, spec)
    ensures Id(path[0]) in stale
    decreases |path|
  {
    var a := path[0];
    if |path| == 1 {
      assert forall i :: 0 <= i < |a.sources| && !Shot(owned, a.spec, a.sources[i]) ==> !HasShot(owned, (a.spec, a.sources[i]));
    } else {
      var b := path[1];
      assert Traces(path[1..], spec, owned);
      TraceIsStale(path[1..], spec, owned, stale);
      var i :| 0 <= i < |a.sources| && a.sources[i] == b.output;
      assert (a.spec, a.sources[i]) in stale;
    }
    assert Tainted(a, spec, stale, owned);
  }

  lemma TraceGrows(a: Asset, path: seq<Asset>, spec: int, owned: seq<Asset>)
    requires Traces(path, spec, owned) && a in owned && path[0].spec == a.spec && path[0].output in a.sources
    ensures Traces([a] + path, spec, owned)
  {
    var all := [a] + path;
    forall i | 0 <= i < |all| - 1 ensures all[i + 1].spec == all[i].spec && all[i + 1].output in all[i].sources {
      if i > 0 { assert all[i] == path[i - 1] && all[i + 1] == path[i]; }
    }
  }

  lemma TaintIsTraced(a: Asset, spec: int, owned: seq<Asset>, traced: set<Identity>)
    requires a in owned && Tainted(a, spec, traced, owned) && forall id <- traced :: Traced(id, spec, owned)
    ensures Traced(Id(a), spec, owned)
  {
    if Bad(a, spec, owned) {
      assert Traces([a], spec, owned);
    } else {
      var i :| 0 <= i < |a.sources| && (!HasShot(owned, (a.spec, a.sources[i])) || (a.spec, a.sources[i]) in traced);
      assert Shot(owned, a.spec, a.sources[i]);
      var path: seq<Asset> :| Traces(path, spec, owned) && path[0].spec == a.spec && path[0].output == a.sources[i];
      TraceGrows(a, path, spec, owned);
      assert ([a] + path)[0] == a;
    }
  }

  /** The least closed set holds exactly the identities from which a chain of sources leads to a bad asset. */
  lemma StaleMeans(owned: seq<Asset>, spec: int, ids: set<Identity>, id: Identity)
    requires LeastStale(ids, owned, spec)
    ensures id in ids <==> Traced(id, spec, owned)
  {
    if Traced(id, spec, owned) {
      var path: seq<Asset> :| Traces(path, spec, owned) && path[0].spec == id.0 && path[0].output == id.1;
      TraceIsStale(path, spec, owned, ids);
    }
    var traced := set k | k in ids && Traced(k, spec, owned);
    forall a | a in owned && Tainted(a, spec, traced, owned) ensures Id(a) in traced {
      TaintSpreads(a, spec, traced, ids, owned);
      TaintIsTraced(a, spec, owned, traced);
    }
    assert Closed(traced, owned, spec);
  }

  // ------------------------------------------------------------ the fixed-point loop

  function Fresh(owned: seq<Asset>, stale: set<Identity>): seq<Asset> {
    if owned == [] then []
    else (if Id(owned[0]) in stale then [] else [owned[0]]) + Fresh(owned[1..], stale)
  }

  function Marked(owned: seq<Asset>, stale: set<Identity>): seq<Asset> {
    if owned == [] then []
    else (if Id(owned[0]) in stale then [owned[0].(qa := Stale)] else []) + Marked(owned[1..], stale)
  }

  method ResolveSource(owned: seq<Asset>, spec: int, src: string) returns (found: Option<Asset>)
    ensures found == Resolve(owned, (spec, src))
  {
    found := None;
    for i := 0 to |owned|
      invariant forall j :: 0 <= j < i && Id(owned[j]) == (spec, src) ==> owned[j].kind != Screenshot
      invariant found.Some? ==> found.value.kind != Screenshot
      invariant var later := Resolve(owned[i..], (spec, src));
                Resolve(owned, (spec, src)) ==
                if found.None? || (later.Some? && later.value.kind == Screenshot) then later else found
    {
      var candidate := owned[i];
      assert owned[i..][1..] == owned[i + 1..];
      if candidate.spec != spec || candidate.output != src { continue; }
      if candidate.kind == Screenshot { return Some(candidate); }
      if found.None? { found := Some(candidate); }
    }
    assert owned[|owned|..] == [];
  }

  /** One pass over `pending`: everything it finds stale joins the set, the rest stays pending. */
  method Sweep(pending: seq<Asset>, given: set<Identity>, spec: int, owned: seq<Asset>, known: set<Identity>)
    returns (rest: seq<Asset>, stale: set<Identity>, progressed: bool)
    requires known == Known(owned) && forall a :: a in pending ==> a in owned
    ensures given <= stale && |rest| <= |pending| && (progressed <==> |rest| < |pending|)
    ensures forall a :: a in rest ==> a in pending
    ensures forall a :: a in pending && a !in rest ==> Id(a) in stale
    ensures !progressed ==> stale == given && forall a :: a in rest ==> !Tainted(a, spec, given, owned)
    ensures forall other :: given <= other && Closed(other, owned, spec) ==> stale <= other
  {
    rest, stale, progressed := [], given, false;
    for i := 0 to |pending|
      invariant given <= stale && |rest| <= i && (progressed <==> |rest| < i)
      invariant forall a :: a in rest ==> a in pending[..i]
      invariant forall a :: a in pending[..i] && a !in rest ==> Id(a) in stale
      invariant !progressed ==> stale == given && forall a :: a in rest ==> !Tainted(a, spec, given, owned)
      invariant forall other :: given <= other && Closed(other, owned, spec) ==> stale <= other
    {
      var asset := pending[i];
      CodeMeansTainted(asset, spec, stale, owned);
      assert pending[..i + 1] == pending[..i] + [asset];
      if IsStale(asset, spec, stale, known, owned) {
        forall other | given <= other && Closed(other, owned, spec) ensures stale + {Id(asset)} <= other {
          TaintSpreads(asset, spec, stale, other, owned);
        }
        stale := stale + {Id(asset)};
        progressed := true;
      } else {
        rest := rest + [asset];
      }
    }
    assert pending[..|pending|] == pending;
  }

  method FindStale(owned: seq<Asset>, spec: int) returns (stale: set<Identity>)
    ensures LeastStale(stale, owned, spec)
  {
    stale := {};
    var pending := owned;
    var progressed := true;
    while progressed
      invariant forall a :: a in pending ==> a in owned
      invariant forall a :: a in owned && a !in pending ==> Id(a) in stale
      invariant forall other :: Closed(other, owned, spec) ==> stale <= other
      invariant !progressed ==> forall a :: a in pending ==> !Tainted(a, spec, stale, owned)
      decreases |pending|, progressed
    {
      pending, stale, progressed := Sweep(pending, stale, spec, owned, Known(owned));
    }
  }

  method SplitCurrent(assets: seq<Asset>, productId: string, spec: int) returns (current: seq<Asset>, stale: seq<Asset>)
    ensures var owned := Owned(assets, productId);
            && current == Fresh(owned, LeastOf(owned, spec))
            && stale == Marked(owned, LeastOf(owned, spec))
    ensures exists f :: Picks(assets, current, f) && AreThose(assets, productId, spec, false, f)
    ensures exists f :: PicksMarked(assets, stale, f) && AreThose(assets, productId, spec, true, f)
  {
    var owned := Owned(assets, productId);
    var ids := FindStale(owned, spec);
    LeastIsUnique(ids, LeastOf(owned, spec), owned, spec);
    current, stale := Fresh(owned, ids), Marked(owned, ids);
    SplitInOrder(assets, productId, spec, ids);
  }

  // ------------------------------------------------------------ the halves keep the input's order

  ghost predicate Rising(f: seq<nat>, n: nat) {
    (forall i, j :: 0 <= i < j < |f| ==> f[i] < f[j]) && forall i :: 0 <= i < |f| ==> f[i] < n
  }

  /** `out` is the assets at the rising positions `f`. */
  ghost predicate Picks(assets: seq<Asset>, out: seq<Asset>, f: seq<nat>) {
    Rising(f, |assets|) && |f| == |out| && forall i :: 0 <= i < |f| ==> out[i] == assets[f[i]]
  }

  /** The same with the QA result replaced. */
  ghost predicate PicksMarked(assets: seq<Asset>, out: seq<Asset>, f: seq<nat>) {
    Rising(f, |assets|) && |f| == |out| && forall i :: 0 <= i < |f| ==> out[i] == assets[f[i]].(qa := Stale)
  }

  /** From asset `k`'s spec and hash a chain of this product's assets leads to a bad one. */
  ghost predicate IsTraced(assets: seq<Asset>, productId: string, spec: int, k: nat)
    requires k < |assets|
  {
    Traced((assets[k].spec, assets[k].output), spec, Owned(assets, productId))
  }

  /** `f` is every position of this product's assets that are stale, or that are not. */
  ghost predicate AreThose(assets: seq<Asset>, productId: string, spec: int, stale: bool, f: seq<nat>) {
    forall k: nat :: k in f <==>
      k < |assets| && assets[k].productId == productId && (IsTraced(assets, productId, spec, k) <==> stale)
  }

  /** The positions from `n` on of this product's assets that are, or are not, stale. */
  ghost function Places(assets: seq<Asset>, productId: string, ids: set<Identity>, stale: bool, n: nat): (f: seq<nat>)
    requires n <= |assets|
    ensures Rising(f, |assets|) && forall i :: 0 <= i < |f| ==> n <= f[i]
    ensures forall k: nat :: k in f <==> n <= k < |assets| && assets[k].productId == productId && (Id(assets[k]) in ids <==> stale)
    decreases |assets| - n
  {
    if n == |assets| then []
    else
      var rest := Places(assets, productId, ids, stale, n + 1);
      var here := assets[n].productId == productId && (Id(assets[n]) in ids <==> stale);
      if here then [n] + rest else rest
  }

  lemma PicksGrow(assets: seq<Asset>, out: seq<Asset>, f: seq<nat>, n: nat)
    requires n < |assets| && Picks(assets, out, f) && forall i :: 0 <= i < |f| ==> n < f[i]
    ensures Picks(assets, [assets[n]] + out, [n] + f)
  {
  }

  lemma MarksGrow(assets: seq<Asset>, out: seq<Asset>, f: seq<nat>, n: nat)
    requires n < |assets| && PicksMarked(assets, out, f) && forall i :: 0 <= i < |f| ==> n < f[i]
    ensures PicksMarked(assets, [assets[n].(qa := Stale)] + out, [n] + f)
  {
  }

  /** `owned` splits at this product's positions from `n` on. */
  ghost predicate AtPlaces(assets: seq<Asset>, productId: string, ids: set<Identity>, owned: seq<Asset>, n: nat) {
    && n <= |assets|
    && Picks(assets, Fresh(owned, ids), Places(assets, productId, ids, false, n))
    && PicksMarked(assets, Marked(owned, ids), Places(assets, productId, ids, true, n))
  }

  lemma HalvesCons(a: Asset, owned: seq<Asset>, all: seq<Asset>, ids: set<Identity>)
    requires all == [a] + owned
    ensures Fresh(all, ids) == if Id(a) in ids then Fresh(owned, ids) else [a] + Fresh(owned, ids)
    ensures Marked(all, ids) == if Id(a) in ids then [a.(qa := Stale)] + Marked(owned, ids) else Marked(owned, ids)
  {
    assert all[1..] == owned;
  }

  lemma AtPlacesTake(assets: seq<Asset>, productId: string, ids: set<Identity>, owned: seq<Asset>, all: seq<Asset>, n: nat)
    requires n < |assets| && assets[n].productId == productId && AtPlaces(assets, productId, ids, owned, n + 1)
    requires all == [assets[n]] + owned
    ensures AtPlaces(assets, productId, ids, all, n)
  {
    HalvesCons(assets[n], owned, all, ids);
    if Id(assets[n]) in ids {
      MarksGrow(assets, Marked(owned, ids), Places(assets, productId, ids, true, n + 1), n);
    } else {
      PicksGrow(assets, Fresh(owned, ids), Places(assets, productId, ids, false, n + 1), n);
    }
  }

  lemma AtPlacesSkip(assets: seq<Asset>, productId: string, ids: set<Identity>, owned: seq<Asset>, n: nat)
    requires n < |assets| && assets[n].productId != productId && AtPlaces(assets, productId, ids, owned, n + 1)
    ensures AtPlaces(assets, productId, ids, owned, n)
  {
  }

  lemma {:induction false} HalvesAtPlaces(assets: seq<Asset>, productId: string, ids: set<Identity>, n: nat, rest: seq<Asset>)
    requires n <= |assets| && rest == assets[n..]
    ensures AtPlaces(assets, productId, ids, Owned(rest, productId), n)
    decreases |assets| - n
  {
    if n < |assets| {
      var later := assets[n + 1..];
      assert rest[1..] == later && rest[0] == assets[n];
      HalvesAtPlaces(assets, productId, ids, n + 1, later);
      if assets[n].productId == productId {
        AtPlacesTake(assets, productId, ids, Owned(later, productId), Owned(rest, productId), n);
      } else {
        AtPlacesSkip(assets, productId, ids, Owned(later, productId), n);
      }
    }
  }

  lemma PlacesMean(assets: seq<Asset>, productId: string, spec: int, ids: set<Identity>, stale: bool)
    requires LeastStale(ids, Owned(assets, productId), spec)
    ensures AreThose(assets, productId, spec, stale, Places(assets, productId, ids, stale, 0))
  {
    var owned := Owned(assets, productId);
    forall k: nat | k < |assets| ensures Id(assets[k]) in ids <==> IsTraced(assets, productId, spec, k) {
      StaleMeans(owned, spec, ids, Id(assets[k]));
    }
  }

  /** Both halves, by position: this product's assets without a chain to a bad one, and those with one, marked. */
  lemma SplitInOrder(assets: seq<Asset>, productId: string, spec: int, ids: set<Identity>)
    requires LeastStale(ids, Owned(assets, productId), spec)
    ensures exists f :: Picks(assets, Fresh(Owned(assets, productId), ids), f) && AreThose(assets, productId, spec, false, f)
    ensures exists f :: PicksMarked(assets, Marked(Owned(assets, productId), ids), f) && AreThose(assets, productId, spec, true, f)
  {
    HalvesAtPlaces(assets, productId, ids, 0, assets);
    PlacesMean(assets, productId, spec, ids, false);
    PlacesMean(assets, productId, spec, ids, true);
  }

  // ------------------------------------------------------------ laws

  lemma LeastIsUnique(a: set<Identity>, b: set<Identity>, owned: seq<Asset>, spec: int)
    requires LeastStale(a, owned, spec) && LeastStale(b, owned, spec)
    ensures a == b
  {
  }

  /** Every product has a least set, so `LeastStale` names one value: the set of ids stale in every closed set. */
  function LeastOf(owned: seq<Asset>, spec: int): (stale: set<Identity>)
    ensures LeastStale(stale, owned, spec)
  {
    Grow({}, owned, spec)
  }

  /** Iterate the rules from below. */
  function Grow(stale: set<Identity>, owned: seq<Asset>, spec: int): (out: set<Identity>)
    requires stale <= Known(owned)
    requires forall other :: Closed(other, owned, spec) ==> stale <= other
    ensures LeastStale(out, owned, spec)
    decreases Known(owned) - stale
  {
    var more := stale + set a | a in owned && Tainted(a, spec, stale, owned) :: Id(a);
    assert forall other :: Closed(other, owned, spec) ==> more <= other by {
      forall other | Closed(other, owned, spec) ensures more <= other {
        forall a | a in owned && Tainted(a, spec, stale, owned) ensures Id(a) in other {
          TaintSpreads(a, spec, stale, other, owned);
        }
      }
    }
    if more == stale then
      assert forall a :: a in owned && Tainted(a, spec, stale, owned) ==> Id(a) in more;
      stale
    else Grow(more, owned, spec)
  }

  /** Order and repetition of the input do not change which identities are stale. */
  lemma OrderDoesNotMatter(left: seq<Asset>, right: seq<Asset>, spec: int, ids: set<Identity>)
    requires forall a :: a in left <==> a in right
    ensures LeastStale(ids, left, spec) <==> LeastStale(ids, right, spec)
  {
    assert forall id :: HasShot(left, id) <==> HasShot(right, id);
    assert forall a, s: set<Identity> :: Tainted(a, spec, s, left) <==> Tainted(a, spec, s, right);
    assert forall s :: Closed(s, left, spec) <==> Closed(s, right, spec);
  }

  /** The current half and the stale half partition the assets by staleness, the stale ones marked. */
  lemma {:induction false} FreshIs(owned: seq<Asset>, stale: set<Identity>)
    ensures forall a :: a in Fresh(owned, stale) <==> a in owned && Id(a) !in stale
    ensures multiset(Fresh(owned, stale)) <= multiset(owned)
    ensures |Fresh(owned, stale)| + |Marked(owned, stale)| == |owned|
    ensures forall a :: a in Marked(owned, stale) <==> WasMarked(owned, stale, a)
    decreases |owned|
  {
    if owned != [] {
      FreshIs(owned[1..], stale);
      assert owned == [owned[0]] + owned[1..];
      forall a ensures a in Marked(owned, stale) <==> WasMarked(owned, stale, a) { MarkedNext(owned, stale, a); }
    }
  }

  ghost predicate WasMarked(owned: seq<Asset>, stale: set<Identity>, a: Asset) {
    exists b :: b in owned && Id(b) in stale && a == b.(qa := Stale)
  }

  lemma MarkedNext(owned: seq<Asset>, stale: set<Identity>, a: Asset)
    requires owned != [] && (a in Marked(owned[1..], stale) <==> WasMarked(owned[1..], stale, a))
    ensures a in Marked(owned, stale) <==> WasMarked(owned, stale, a)
  {
    assert owned == [owned[0]] + owned[1..];
    if WasMarked(owned, stale, a) {
      var b :| b in owned && Id(b) in stale && a == b.(qa := Stale);
      if b != owned[0] { assert b in owned[1..]; }
    }
  }

  lemma {:induction false} NothingStale(owned: seq<Asset>, stale: set<Identity>)
    requires forall a :: a in owned ==> Id(a) !in stale
    ensures Fresh(owned, stale) == owned && Marked(owned, stale) == []
    decreases |owned|
  {
    if owned != [] {
      NothingStale(owned[1..], stale);
      assert owned == [owned[0]] + owned[1..];
    }
  }

  /** A clean product: nothing is stale exactly when each asset passes on its own and names only its screenshots. */
  ghost predicate Clean(owned: seq<Asset>, spec: int) {
    forall a :: a in owned ==>
      a.spec == spec && a.qa == Passed && forall i :: 0 <= i < |a.sources| ==> HasShot(owned, (spec, a.sources[i]))
  }

  lemma CleanMeansNoneStale(owned: seq<Asset>, spec: int, ids: set<Identity>)
    requires LeastStale(ids, owned, spec)
    ensures Clean(owned, spec) <==> ids == {}
    ensures ids == {} <==> forall a :: a in owned ==> Id(a) !in ids
  {
    if Clean(owned, spec) { assert Closed({}, owned, spec); }
    var inside := set id | id in ids && id in Known(owned);
    assert Closed(inside, owned, spec) by {
      forall a | a in owned && Tainted(a, spec, inside, owned) ensures Id(a) in inside {
        TaintSpreads(a, spec, inside, ids, owned);
        assert Id(a) in Known(owned);
      }
    }
    assert ids <= inside;
    if ids == {} {
      forall a | a in owned ensures !Tainted(a, spec, {}, owned) { }
    }
  }

  /** Splitting the current half again keeps all of it and marks nothing. */
  lemma CurrentHalfIsStable(owned: seq<Asset>, spec: int, ids: set<Identity>)
    requires LeastStale(ids, owned, spec)
    ensures var current := Fresh(owned, ids);
            Clean(current, spec) && Fresh(current, LeastOf(current, spec)) == current && Marked(current, LeastOf(current, spec)) == []
  {
    var current := Fresh(owned, ids);
    FreshIs(owned, ids);
    forall a | a in current
      ensures a.spec == spec && a.qa == Passed && forall i :: 0 <= i < |a.sources| ==> HasShot(current, (spec, a.sources[i]))
    {
      assert !Tainted(a, spec, ids, owned);
      forall i | 0 <= i < |a.sources| ensures HasShot(current, (spec, a.sources[i])) {
        assert HasShot(owned, (a.spec, a.sources[i]));
        var shot :| shot in owned && Id(shot) == (spec, a.sources[i]) && shot.kind == Screenshot;
        assert shot in current;
      }
    }
    CleanMeansNoneStale(current, spec, LeastOf(current, spec));
    NothingStale(current, LeastOf(current, spec));
  }

  // ------------------------------------------------------------ the draft gate

  const IMAGE_COUNT := 10
  const PDF_COUNT := 2

  datatype Evidence = Evidence(productId: string, spec: int, productQaPassed: bool, claimsPassed: bool,
                               assets: seq<Asset>, pdfRoles: seq<string>, linksPassed: bool)

  datatype Gate = ProductQa | Claims | Screenshots | ListingImages | Video | DeliveryPdfs | Links | AssetQa | Ready

  function Count(assets: seq<Asset>, kind: Kind): nat {
    if assets == [] then 0 else (if assets[0].kind == kind then 1 else 0) + Count(assets[1..], kind)
  }

  /** `prepare_etsy_draft`: the gate that refused, or `Ready` when the client is called. */
  function PrepareDraft(e: Evidence): Gate {
    if !e.productQaPassed then ProductQa
    else if !e.claimsPassed then Claims
    else if Count(e.assets, Screenshot) < 1 then Screenshots
    else if Count(e.assets, ListingImage) != IMAGE_COUNT then ListingImages
    else if Count(e.assets, Walkthrough) != 1 then Video
    else if PdfsMissing(e) then DeliveryPdfs
    else if !e.linksPassed then Links
    else if SomeStale(e) then AssetQa
    else Ready
  }

  predicate PdfsMissing(e: Evidence) {
    Count(e.assets, DeliveryPdf) != PDF_COUNT || multiset(e.pdfRoles) != multiset{"free_gift", "readme"}
  }

  /** The current half of `split_current` is not all of the assets. */
  predicate SomeStale(e: Evidence) {
    var owned := Owned(e.assets, e.productId);
    |Fresh(owned, LeastOf(owned, e.spec))| != |e.assets|
  }

  /** The asset gate passes exactly when every asset is this product's, of this spec, passed, and drawn only from its screenshots. */
  lemma AssetGate(assets: seq<Asset>, productId: string, spec: int)
    ensures var owned := Owned(assets, productId);
            |Fresh(owned, LeastOf(owned, spec))| == |assets| <==>
            (forall a :: a in assets ==> a.productId == productId) && Clean(assets, spec)
  {
    var owned := Owned(assets, productId);
    var ids := LeastOf(owned, spec);
    FreshIs(owned, ids);
    CleanMeansNoneStale(owned, spec, ids);
    if ids == {} { NothingStale(owned, ids); }
    if |Fresh(owned, ids)| == |assets| {
      AllFresh(owned, ids);
    }
  }

  lemma {:induction false} AllFresh(owned: seq<Asset>, ids: set<Identity>)
    requires |Fresh(owned, ids)| == |owned|
    ensures forall a :: a in owned ==> Id(a) !in ids
    decreases |owned|
  {
    FreshIs(owned, ids);
    if owned != [] {
      FreshIs(owned[1..], ids);
      AllFresh(owned[1..], ids);
      assert owned == [owned[0]] + owned[1..];
    }
  }

  /** The client is called only for a complete, current set of assets. */
  lemma DraftOnlyWhenCurrent(e: Evidence)
    ensures PrepareDraft(e) == Ready <==>
            && e.productQaPassed && e.claimsPassed && e.linksPassed
            && Count(e.assets, Screenshot) >= 1 && Count(e.assets, ListingImage) == IMAGE_COUNT
            && Count(e.assets, Walkthrough) == 1 && Count(e.assets, DeliveryPdf) == PDF_COUNT
            && multiset(e.pdfRoles) == multiset{"free_gift", "readme"}
            && (forall a :: a in e.assets ==> a.productId == e.productId)
            && Clean(e.assets, e.spec)
  {
    AssetGate(e.assets, e.productId, e.spec);
  }

  /** How many assets are of one kind, as positions. */
  ghost function PlacesOf(assets: seq<Asset>, kind: Kind): set<int> {
    set i | 0 <= i < |assets| && assets[i].kind == kind
  }

  lemma OneMore(rest: set<int>, n: int)
    requires n !in rest
    ensures |rest + {n}| == |rest| + 1
  {
  }

  lemma {:induction false} CountSnoc(assets: seq<Asset>, last: Asset, kind: Kind)
    ensures Count(assets + [last], kind) == Count(assets, kind) + (if last.kind == kind then 1 else 0)
    decreases |assets|
  {
    var all := assets + [last];
    if assets != [] {
      CountSnoc(assets[1..], last, kind);
      assert all[1..] == assets[1..] + [last] && all[0] == assets[0];
    }
  }

  lemma {:induction false} CountIsSize(assets: seq<Asset>, kind: Kind)
    ensures Count(assets, kind) == |PlacesOf(assets, kind)|
    decreases |assets|
  {
    if assets != [] {
      var n := |assets| - 1;
      var front := assets[..n];
      CountIsSize(front, kind);
      assert assets == front + [assets[n]];
      CountSnoc(front, assets[n], kind);
      if assets[n].kind == kind {
        assert PlacesOf(assets, kind) == PlacesOf(front, kind) + {n};
        OneMore(PlacesOf(front, kind), n);
      } else {
        assert PlacesOf(assets, kind) == PlacesOf(front, kind);
      }
    }
  }

  ghost predicate Holds(assets: seq<Asset>, kind: Kind, n: nat) { |PlacesOf(assets, kind)| == n }

  /** What each gate asks, by itself. */
  ghost predicate Refuses(gate: Gate, e: Evidence) {
    match gate
    case ProductQa => !e.productQaPassed
    case Claims => !e.claimsPassed
    case Screenshots => Holds(e.assets, Screenshot, 0)
    case ListingImages => !Holds(e.assets, ListingImage, 10)
    case Video => !Holds(e.assets, Walkthrough, 1)
    case DeliveryPdfs => !Holds(e.assets, DeliveryPdf, 2) || (e.pdfRoles != ["free_gift", "readme"] && e.pdfRoles != ["readme", "free_gift"])
    case Links => !e.linksPassed
    case AssetQa => exists a :: a in e.assets && (a.productId != e.productId || Bad(a, e.spec, e.assets))
    case Ready => false
  }

  /** The gates in the order they are asked. */
  function Rank(gate: Gate): nat {
    match gate
    case ProductQa => 0
    case Claims => 1
    case Screenshots => 2
    case ListingImages => 3
    case Video => 4
    case DeliveryPdfs => 5
    case Links => 6
    case AssetQa => 7
    case Ready => 8
  }

  lemma RolesMean(roles: seq<string>)
    ensures multiset(roles) == multiset{"free_gift", "readme"} <==> roles == ["free_gift", "readme"] || roles == ["readme", "free_gift"]
  {
    if multiset(roles) == multiset{"free_gift", "readme"} {
      assert |multiset(roles)| == 2 && |roles| == 2;
      assert roles == [roles[0], roles[1]];
      assert roles[0] in multiset(roles) && roles[1] in multiset(roles);
      assert multiset(roles)[roles[0]] == 1;
    }
  }

  lemma CleanIsNotBad(assets: seq<Asset>, spec: int)
    ensures Clean(assets, spec) <==> forall a :: a in assets ==> !Bad(a, spec, assets)
  {
    assert forall hash, k: int :: HasShot(assets, (k, hash)) <==> Shot(assets, k, hash);
  }

  lemma CountsMean(e: Evidence)
    ensures Count(e.assets, Screenshot) < 1 <==> Refuses(Screenshots, e)
    ensures Count(e.assets, ListingImage) != 10 <==> Refuses(ListingImages, e)
    ensures Count(e.assets, Walkthrough) != 1 <==> Refuses(Video, e)
    ensures PdfsMissing(e) <==> Refuses(DeliveryPdfs, e)
  {
    CountIsSize(e.assets, Screenshot);
    CountIsSize(e.assets, ListingImage);
    CountIsSize(e.assets, Walkthrough);
    CountIsSize(e.assets, DeliveryPdf);
    RolesMean(e.pdfRoles);
  }

  lemma AssetGateMeans(e: Evidence)
    ensures SomeStale(e) <==> Refuses(AssetQa, e)
  {
    AssetGate(e.assets, e.productId, e.spec);
    CleanIsNotBad(e.assets, e.spec);
  }

  /** The tests as coded are the gates' own. */
  ghost predicate TestsAreGates(e: Evidence) {
    && (Count(e.assets, Screenshot) < 1 <==> Refuses(Screenshots, e))
    && (Count(e.assets, ListingImage) != 10 <==> Refuses(ListingImages, e))
    && (Count(e.assets, Walkthrough) != 1 <==> Refuses(Video, e))
    && (PdfsMissing(e) <==> Refuses(DeliveryPdfs, e))
    && (SomeStale(e) <==> Refuses(AssetQa, e))
  }

  ghost predicate First(e: Evidence, gate: Gate) {
    && (gate == Ready || Refuses(gate, e))
    && forall earlier :: Rank(earlier) < Rank(gate) ==> !Refuses(earlier, e)
  }

  lemma NoneBefore(e: Evidence, earlier: Gate)
    requires TestsAreGates(e) && Rank(earlier) < Rank(PrepareDraft(e))
    ensures !Refuses(earlier, e)
  {
  }

  lemma OnlyOneFirst(e: Evidence, left: Gate, right: Gate)
    requires First(e, left) && First(e, right)
    ensures left == right
  {
    if Rank(left) == Rank(right) { SameRank(left, right); }
  }

  lemma SameRank(left: Gate, right: Gate)
    requires Rank(left) == Rank(right)
    ensures left == right
  {
  }

  lemma FirstIs(e: Evidence)
    requires TestsAreGates(e)
    ensures First(e, PrepareDraft(e))
  {
    forall earlier | Rank(earlier) < Rank(PrepareDraft(e)) ensures !Refuses(earlier, e) { NoneBefore(e, earlier); }
  }

  /** The answer is the first gate in order that refuses, `Ready` if none does. */
  lemma FirstGateRefuses(e: Evidence, gate: Gate)
    ensures PrepareDraft(e) == gate <==> First(e, gate)
  {
    CountsMean(e);
    AssetGateMeans(e);
    FirstIs(e);
    if First(e, gate) { OnlyOneFirst(e, gate, PrepareDraft(e)); }
  }
}

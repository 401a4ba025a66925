/**
 The links `delivery_link_uris` extracts once the object walk has passed, and which
 of their annotations that walk checked as annotations.
 */
module PdfLinks {
  import opened Options
  import opened Splicing
  import opened PdfGraph

  const ACTION_BARE := {"S", "URI"}
  const ACTION_WITH_TYPE := {"Type", "S", "URI"}

  /** `_uri_action`. It reads the annotation's keys and type, and not its subtype. */
  function UriAction(doc: Doc, annot: seq<Entry>): Option<string> {
    if Keys(annot) != LINK_KEYS || !NameIs(annot, "Type", "Annot") then None
    else
      var found := Once(doc, LookupOr(annot, "A"));
      if found.None? then None else ActionUri(doc, Fields(found.value))
  }

  function ActionUri(doc: Doc, action: seq<Entry>): Option<string> {
    if Keys(action) == ACTION_WITH_TYPE && !NameIs(action, "Type", "Action") then None
    else if Keys(action) != ACTION_WITH_TYPE && Keys(action) != ACTION_BARE then None
    else
      var uri := Once(doc, LookupOr(action, "URI"));
      if uri.Some? && uri.value.Text? then Some(uri.value.text) else None
  }

  /** The page's annotation items; a page whose `/Annots` is no array has none. `None` is a broken reference. */
  function PageItems(doc: Doc, page: seq<Entry>): Option<seq<Obj>> {
    var annots := Deref(doc, LookupOr(page, "Annots"));
    if annots.None? then None else Some(if annots.value.Arr? then annots.value.items else [])
  }

  function ItemUri(doc: Doc, item: Obj): Option<string> {
    var found := Deref(doc, item);
    if found.None? then None else UriAction(doc, Fields(found.value))
  }

  function ItemUris(doc: Doc, items: seq<Obj>): Option<seq<string>> {
    if items == [] then Some([])
    else
      var before := ItemUris(doc, items[..|items| - 1]);
      var last := ItemUri(doc, items[|items| - 1]);
      if before.None? || last.None? then None else Some(before.value + [last.value])
  }

  function PageUris(doc: Doc, page: seq<Entry>): Option<seq<string>> {
    var items := PageItems(doc, page);
    if items.None? then None else ItemUris(doc, items.value)
  }

  function AllUris(doc: Doc, pages: seq<seq<Entry>>): Option<seq<string>> {
    if pages == [] then Some([])
    else
      var before := AllUris(doc, pages[..|pages| - 1]);
      var last := PageUris(doc, pages[|pages| - 1]);
      if before.None? || last.None? then None else Some(before.value + last.value)
  }

  // ------------------------------------------------------------ the extractor's loops

  method ReadItems(doc: Doc, items: seq<Obj>) returns (uris: Option<seq<string>>)
    ensures uris == ItemUris(doc, items)
  {
    var out: seq<string> := [];
    for k := 0 to |items|
      invariant ItemUris(doc, items[..k]) == Some(out)
    {
      assert items[..k + 1][..k] == items[..k];
      var uri := ItemUri(doc, items[k]);
      if uri.None? {
        BrokenItem(doc, items, k);
        return None;
      }
      out := out + [uri.value];
    }
    assert items[..|items|] == items;
    return Some(out);
  }

  lemma {:induction false} BrokenItem(doc: Doc, items: seq<Obj>, k: nat)
    requires k < |items| && ItemUri(doc, items[k]).None?
    ensures ItemUris(doc, items).None?
    decreases |items|
  {
    if k < |items| - 1 { BrokenItem(doc, items[..|items| - 1], k); }
  }

  lemma {:induction false} BrokenPage(doc: Doc, pages: seq<seq<Entry>>, k: nat)
    requires k < |pages| && PageUris(doc, pages[k]).None?
    ensures AllUris(doc, pages).None?
    decreases |pages|
  {
    if k < |pages| - 1 { BrokenPage(doc, pages[..|pages| - 1], k); }
  }

  method ReadPages(doc: Doc, pages: seq<seq<Entry>>) returns (uris: Option<seq<string>>)
    ensures uris == AllUris(doc, pages)
  {
    var out: seq<string> := [];
    for k := 0 to |pages|
      invariant AllUris(doc, pages[..k]) == Some(out)
    {
      assert pages[..k + 1][..k] == pages[..k];
      var items := PageItems(doc, pages[k]);
      if items.None? {
        BrokenPage(doc, pages, k);
        return None;
      }
      var found := ReadItems(doc, items.value);
      if found.None? {
        BrokenPage(doc, pages, k);
        return None;
      }
      out := out + found.value;
    }
    assert pages[..|pages|] == pages;
    return Some(out);
  }

  /** `delivery_link_uris`: `None` is a refusal, by the walk or by an annotation. */
  method DeliveryLinkUris(doc: Doc, refused: string -> bool) returns (uris: Option<seq<string>>)
    ensures uris.Some? ==> CatalogOk(doc) && RootPages(doc).Some? && uris == AllUris(doc, RootPages(doc).value.pages)
    ensures uris.Some? ==> exists pages :: TreeLeaves(doc, pages) && InOrder(doc, pages, uris.value)
    ensures uris.Some? ==> LinksMean(doc)
    ensures uris.Some? && DistinctKeys(doc) ==>
              (AllSafe(doc, refused, uris.value) <==> BareSafe(doc, PolicyOf(doc, refused), uris.value))
    ensures CatalogOk(doc) && RootPages(doc).Some? && PlainDoc(doc, PolicyOf(doc, refused)) ==>
              uris == AllUris(doc, RootPages(doc).value.pages)
  {
    var passed := RefuseGraph(doc, refused);
    if !passed { return None; }
    uris := ReadPages(doc, RootPages(doc).value.pages);
    if uris.Some? {
      ghost var seen :| Covered(doc, seen, PolicyOf(doc, refused));
      LinksAll(doc, seen, PolicyOf(doc, refused));
      RootLeaves(doc);
      UrisInOrder(doc, RootPages(doc).value.pages);
      if DistinctKeys(doc) { UrisAccountedFor(doc, seen, refused, uris.value); }
    }
  }

  // ------------------------------------------------------------ the order of pages and links

  /** The leaves below `node` in depth-first order of `/Kids`. */
  ghost predicate Leaves(doc: Doc, node: Obj, pages: seq<seq<Entry>>, height: nat)
    decreases height, 0
  {
    height > 0 && Deref(doc, node).Some? &&
    var fields := Fields(Deref(doc, node).value);
    if Lookup(fields, "Type") == Some(Name("Page")) then pages == [fields]
    else exists items, parts :: KidsAre(doc, fields, items) && LeavesOfEach(doc, items, parts, height - 1) && IsJoin(parts, pages)
  }

  /** One part for each node, in order. */
  ghost predicate LeavesOfEach(doc: Doc, nodes: seq<Obj>, parts: seq<seq<seq<Entry>>>, height: nat)
    decreases height, |nodes| + 1
  {
    |parts| == |nodes| &&
    (nodes == [] || (Leaves(doc, nodes[0], parts[0], height) && LeavesOfEach(doc, nodes[1..], parts[1..], height)))
  }

  ghost predicate KidsAre(doc: Doc, fields: seq<Entry>, items: seq<Obj>) {
    Lookup(fields, "Kids").Some? && Deref(doc, Lookup(fields, "Kids").value) == Some(Arr(items))
  }

  /** The pages of the document: the leaves below the catalog's `/Pages`. */
  ghost predicate TreeLeaves(doc: Doc, pages: seq<seq<Entry>>) {
    exists root, catalog, node, height :: IsRoot(doc, root, catalog, node) && Leaves(doc, node, pages, height)
  }

  ghost predicate IsRoot(doc: Doc, root: Obj, catalog: seq<Entry>, node: Obj) {
    && Lookup(doc.trailer, "Root") == Some(root) && Deref(doc, root) == Some(Dict(catalog))
    && Lookup(catalog, "Pages") == Some(node)
  }

  lemma {:induction false} PagesAreLeaves(doc: Doc, node: Obj, path: set<nat>, depth: nat)
    requires Pages(doc, node, path, depth).Some?
    ensures depth <= MAX_DEPTH && Leaves(doc, node, Pages(doc, node, path, depth).value.pages, MAX_DEPTH + 1 - depth)
    decreases MAX_DEPTH + 1 - depth, 0, 0
  {
    var fields := Fields(Deref(doc, node).value);
    if Lookup(fields, "Type") != Some(Name("Page")) {
      var items := Deref(doc, LookupOr(fields, "Kids")).value.items;
      var below := if node.Ref? then path + {node.number} else path;
      var parts := KidsAreLeaves(doc, items, below, depth);
      assert KidsAre(doc, fields, items);
    }
  }

  lemma {:induction false} KidsAreLeaves(doc: Doc, kids: seq<Obj>, path: set<nat>, depth: nat) returns (parts: seq<seq<seq<Entry>>>)
    requires depth <= MAX_DEPTH && PagesOf(doc, kids, path, depth).Some?
    ensures LeavesOfEach(doc, kids, parts, MAX_DEPTH - depth) && IsJoin(parts, PagesOf(doc, kids, path, depth).value.pages)
    decreases MAX_DEPTH - depth, 1, |kids|
  {
    if kids == [] {
      parts := [];
      JoinNothing<seq<Entry>>();
    } else {
      var first := Pages(doc, kids[0], path, depth + 1).value.pages;
      PagesAreLeaves(doc, kids[0], path, depth + 1);
      var others := KidsAreLeaves(doc, kids[1..], path, depth);
      parts := [first] + others;
      JoinCons(first, others, PagesOf(doc, kids[1..], path, depth).value.pages);
      assert parts[1..] == others;
    }
  }

  lemma RootLeaves(doc: Doc)
    requires CatalogOk(doc) && RootPages(doc).Some?
    ensures TreeLeaves(doc, RootPages(doc).value.pages)
  {
    var root := LookupOr(doc.trailer, "Root");
    var catalog := Deref(doc, root).value.entries;
    var i :| 0 <= i < |catalog| && catalog[i].key == "Pages";
    PresentKey(catalog, i);
    var node := LookupOr(catalog, "Pages");
    PagesAreLeaves(doc, node, {}, 0);
    assert IsRoot(doc, root, catalog, node);
  }

  /** The text that an annotation item's action gives. */
  ghost predicate ItemText(doc: Doc, item: Obj, text: string) {
    exists annot, action :: ActionOf(doc, item, annot, action) && Lookup(action, "URI").Some?
                            && Once(doc, Lookup(action, "URI").value) == Some(Text(text))
  }

  ghost predicate ActionOf(doc: Doc, item: Obj, annot: seq<Entry>, action: seq<Entry>) {
    && Deref(doc, item) == Some(Dict(annot)) && Lookup(annot, "A").Some?
    && Once(doc, Lookup(annot, "A").value) == Some(Dict(action))
  }

  /** The page's annotation items in array order; none when `/Annots` is missing or no array. */
  ghost predicate AnnotItems(doc: Doc, page: seq<Entry>, items: seq<Obj>) {
    var annots := Lookup(page, "Annots");
    if annots.None? then items == []
    else
      var found := Deref(doc, annots.value);
      found.Some? && items == if found.value.Arr? then found.value.items else []
  }

  ghost predicate PageTexts(doc: Doc, page: seq<Entry>, texts: seq<string>) {
    exists items :: AnnotItems(doc, page, items) && TextsOfItems(doc, items, texts)
  }

  /** One text for each item, in order. */
  ghost predicate TextsOfItems(doc: Doc, items: seq<Obj>, texts: seq<string>) {
    |texts| == |items| &&
    (items == [] || (var n := |items| - 1; ItemText(doc, items[n], texts[n]) && TextsOfItems(doc, items[..n], texts[..n])))
  }

  /** The URIs of the pages' items, page after page and item after item. */
  ghost predicate InOrder(doc: Doc, pages: seq<seq<Entry>>, uris: seq<string>) {
    exists parts :: TextsOfEach(doc, pages, parts) && IsJoin(parts, uris)
  }

  /** One part for each page, in order. */
  ghost predicate TextsOfEach(doc: Doc, pages: seq<seq<Entry>>, parts: seq<seq<string>>) {
    |parts| == |pages| &&
    (pages == [] || (var n := |pages| - 1; PageTexts(doc, pages[n], parts[n]) && TextsOfEach(doc, pages[..n], parts[..n])))
  }

  /** In positions: the text of item `k` of page `p` stands after all items of the pages before it. */
  lemma {:induction false} TextsAt(doc: Doc, pages: seq<seq<Entry>>, parts: seq<seq<string>>, p: nat)
    requires TextsOfEach(doc, pages, parts) && p < |pages|
    ensures PageTexts(doc, pages[p], parts[p])
    decreases |pages|
  {
    var n := |pages| - 1;
    if p < n {
      var front, texts := pages[..n], parts[..n];
      assert front[p] == pages[p] && texts[p] == parts[p];
      TextsAt(doc, front, texts, p);
    }
  }

  lemma {:induction false} ItemAt(doc: Doc, items: seq<Obj>, texts: seq<string>, k: nat)
    requires TextsOfItems(doc, items, texts) && k < |items|
    ensures ItemText(doc, items[k], texts[k])
    decreases |items|
  {
    var n := |items| - 1;
    if k < n {
      var front, before := items[..n], texts[..n];
      assert front[k] == items[k] && before[k] == texts[k];
      ItemAt(doc, front, before, k);
    }
  }

  /** Item `k` of page `p` is at the number of items of the pages before it, plus `k`. */
  lemma UriAt(doc: Doc, pages: seq<seq<Entry>>, parts: seq<seq<string>>, uris: seq<string>, p: nat, items: seq<Obj>, k: nat)
    requires TextsOfEach(doc, pages, parts) && IsJoin(parts, uris) && p < |pages|
    requires AnnotItems(doc, pages[p], items) && k < |items|
    ensures |parts[p]| == |items| && Offset(parts, p) + k < |uris|
    ensures ItemText(doc, items[k], uris[Offset(parts, p) + k])
  {
    TextsAt(doc, pages, parts, p);
    var same :| AnnotItems(doc, pages[p], same) && TextsOfItems(doc, same, parts[p]);
    assert same == items;
    ItemAt(doc, items, parts[p], k);
    assert StandsAt(uris, Offset(parts, p) + k, parts[p][k]);
  }

  lemma ItemMeans(doc: Doc, item: Obj)
    requires ItemUri(doc, item).Some?
    ensures ItemText(doc, item, ItemUri(doc, item).value)
  {
    var annot := Fields(Deref(doc, item).value);
    assert Keys([]) == {} && "A" in LINK_KEYS && "URI" in ACTION_BARE && "URI" in ACTION_WITH_TYPE;
    var i :| 0 <= i < |annot| && annot[i].key == "A";
    PresentKey(annot, i);
    var action := Fields(Once(doc, LookupOr(annot, "A")).value);
    var j :| 0 <= j < |action| && action[j].key == "URI";
    PresentKey(action, j);
    assert ActionOf(doc, item, annot, action);
  }

  lemma {:induction false} ItemsMean(doc: Doc, items: seq<Obj>)
    requires ItemUris(doc, items).Some?
    ensures TextsOfItems(doc, items, ItemUris(doc, items).value)
    decreases |items|
  {
    if items != [] {
      var n := |items| - 1;
      ItemsMean(doc, items[..n]);
      ItemMeans(doc, items[n]);
      assert ItemUris(doc, items).value[..n] == ItemUris(doc, items[..n]).value;
    }
  }

  lemma PageMeans(doc: Doc, page: seq<Entry>)
    requires PageUris(doc, page).Some?
    ensures PageTexts(doc, page, PageUris(doc, page).value)
  {
    var items := PageItems(doc, page).value;
    ItemsMean(doc, items);
    assert AnnotItems(doc, page, items);
  }

  lemma InOrderSnoc(doc: Doc, pages: seq<seq<Entry>>, page: seq<Entry>, before: seq<string>, last: seq<string>)
    requires InOrder(doc, pages, before) && PageTexts(doc, page, last)
    ensures InOrder(doc, pages + [page], before + last)
  {
    var parts :| TextsOfEach(doc, pages, parts) && IsJoin(parts, before);
    JoinSnoc(parts, last, before);
    TextsSnoc(doc, pages, parts, page, last);
  }

  lemma TextsSnoc(doc: Doc, pages: seq<seq<Entry>>, parts: seq<seq<string>>, page: seq<Entry>, last: seq<string>)
    requires TextsOfEach(doc, pages, parts) && PageTexts(doc, page, last)
    ensures TextsOfEach(doc, pages + [page], parts + [last])
  {
    var n := |pages|;
    assert (pages + [page])[..n] == pages && (parts + [last])[..n] == parts;
    assert (pages + [page])[n] == page && (parts + [last])[n] == last;
  }

  lemma NoPagesInOrder(doc: Doc)
    ensures InOrder(doc, [], [])
  {
    JoinNothing<string>();
    var parts: seq<seq<string>> := [];
    assert IsJoin(parts, []);
  }

  /** The extractor keeps the order of the pages and of each page's items. */
  lemma {:induction false} UrisInOrder(doc: Doc, pages: seq<seq<Entry>>)
    requires AllUris(doc, pages).Some?
    ensures InOrder(doc, pages, AllUris(doc, pages).value)
    decreases |pages|
  {
    if pages == [] {
      NoPagesInOrder(doc);
    } else {
      var n := |pages| - 1;
      var front, last := pages[..n], pages[n];
      assert pages == front + [last];
      var before, texts := AllUris(doc, front).value, PageUris(doc, last).value;
      assert AllUris(doc, pages).value == before + texts;
      UrisInOrder(doc, front);
      PageMeans(doc, last);
      InOrderSnoc(doc, front, last, before, texts);
    }
  }

  /** Each annotation the extractor reads has a URI, and is a link exactly when some `/Annots` key names it. */
  ghost predicate LinksMean(doc: Doc)
    requires CatalogOk(doc) && RootPages(doc).Some?
  {
    forall annot :: Extracted(doc, annot) ==>
      && UriAction(doc, annot).Some?
      && (NameIs(annot, "Subtype", "Link") <==> Sourced(doc, Dict(annot), Some("Annots")))
  }

  lemma LinksAll(doc: Doc, seen: Seen, policy: Policy)
    requires CatalogOk(doc) && RootPages(doc).Some? && Covered(doc, seen, policy)
    requires AllUris(doc, RootPages(doc).value.pages).Some?
    ensures LinksMean(doc)
  {
    forall annot | Extracted(doc, annot)
      ensures UriAction(doc, annot).Some?
              && (NameIs(annot, "Subtype", "Link") <==> Sourced(doc, Dict(annot), Some("Annots")))
    {
      ExtractedMeans(doc, seen, policy, annot);
    }
  }

  // ------------------------------------------------------------ which annotations were checked

  ghost predicate ExtractedAt(doc: Doc, page: seq<Entry>, items: seq<Obj>, k: nat, annot: seq<Entry>)
    requires CatalogOk(doc) && RootPages(doc).Some?
  {
    && page in RootPages(doc).value.pages && PageItems(doc, page) == Some(items)
    && k < |items| && Deref(doc, items[k]).Some? && Fields(Deref(doc, items[k]).value) == annot
  }

  /** An annotation the extractor reads, from a page of the page tree. */
  ghost predicate Extracted(doc: Doc, annot: seq<Entry>)
    requires CatalogOk(doc) && RootPages(doc).Some?
  {
    exists page, items, k: nat :: ExtractedAt(doc, page, items, k, annot)
  }

  lemma {:induction false} EveryItemRead(doc: Doc, items: seq<Obj>, k: nat)
    requires ItemUris(doc, items).Some? && k < |items|
    ensures ItemUri(doc, items[k]).Some?
  {
    if ItemUri(doc, items[k]).None? { BrokenItem(doc, items, k); }
  }

  lemma EveryPageRead(doc: Doc, pages: seq<seq<Entry>>, page: seq<Entry>)
    requires AllUris(doc, pages).Some? && page in pages
    ensures PageUris(doc, page).Some?
  {
    var k :| 0 <= k < |pages| && pages[k] == page;
    if PageUris(doc, pages[k]).None? { BrokenPage(doc, pages, k); }
  }

  lemma ItemsInDoc(doc: Doc, page: seq<Entry>)
    requires InDoc(doc, Dict(page)) && PageItems(doc, page).Some?
    ensures forall k :: 0 <= k < |PageItems(doc, page).value| ==> InDoc(doc, PageItems(doc, page).value[k])
  {
    var value := LookupOr(page, "Annots");
    if Lookup(page, "Annots").Some? {
      NestedLookup(page, "Annots");
      var i :| 0 <= i < |page| && page[i].value == value;
      assert Nested(page[i].value, value);
      InDocTrans(doc, Dict(page), value);
      DerefInDoc(doc, value, MAX_HOPS);
      var annots := Deref(doc, value).value;
      if annots.Arr? {
        forall k | 0 <= k < |annots.items| ensures InDoc(doc, annots.items[k]) {
          assert Nested(annots.items[k], annots.items[k]);
          InDocTrans(doc, annots, annots.items[k]);
        }
      }
    }
  }

  lemma ExtractedInDoc(doc: Doc, page: seq<Entry>, items: seq<Obj>, k: nat, annot: seq<Entry>)
    requires CatalogOk(doc) && RootPages(doc).Some? && ExtractedAt(doc, page, items, k, annot) && Keys(annot) == LINK_KEYS
    ensures InDoc(doc, Dict(annot))
  {
    RootPagesInDoc(doc);
    ItemsInDoc(doc, page);
    DerefInDoc(doc, items[k], MAX_HOPS);
    assert "A" in Keys(annot);
  }

  /**
   For a dictionary with the link keys, wherever it is in a document that passed:
   it is a `/Link` exactly when some `/Annots` key of the document names it, through arrays and
   single references. One that is reached only over a longer chain is not a link.
   */
  lemma LinkIffNamed(doc: Doc, seen: Seen, policy: Policy, annot: seq<Entry>)
    requires Covered(doc, seen, policy) && InDoc(doc, Dict(annot)) && Keys(annot) == LINK_KEYS
    ensures NameIs(annot, "Subtype", "Link") <==> Sourced(doc, Dict(annot), Some("Annots"))
  {
    if Sourced(doc, Dict(annot), Some("Annots")) {
      var fields: seq<Entry>, i: nat, n: nat :| KeyNames(doc, fields, i, Dict(annot), n) && fields[i].key == "Annots";
      EveryRoleChecked(doc, seen, policy, fields, i, annot, n);
    } else {
      var r := DictVisited(doc, seen, policy, annot);
      assert r != Some("Annots");
      assert "A" in LINK_KEYS && "A" !in RESOURCE_KEYS;
      assert RoleOk(annot, r);
    }
  }

  lemma ExtractedMeans(doc: Doc, seen: Seen, policy: Policy, annot: seq<Entry>)
    requires CatalogOk(doc) && RootPages(doc).Some? && Covered(doc, seen, policy)
    requires AllUris(doc, RootPages(doc).value.pages).Some? && Extracted(doc, annot)
    ensures UriAction(doc, annot).Some?
    ensures NameIs(annot, "Subtype", "Link") <==> Sourced(doc, Dict(annot), Some("Annots"))
  {
    var page, items, k: nat :| ExtractedAt(doc, page, items, k, annot);
    EveryPageRead(doc, RootPages(doc).value.pages, page);
    EveryItemRead(doc, items, k);
    ExtractedInDoc(doc, page, items, k, annot);
    LinkIffNamed(doc, seen, policy, annot);
  }

  /** In particular, an annotation is a checked link when `/Annots` and its items are each at most one reference away. */
  lemma NearAnnotationIsALink(doc: Doc, seen: Seen, policy: Policy, page: seq<Entry>, items: seq<Obj>, k: nat, annot: seq<Entry>)
    requires CatalogOk(doc) && RootPages(doc).Some? && Covered(doc, seen, policy)
    requires ExtractedAt(doc, page, items, k, annot)
    requires Once(doc, LookupOr(page, "Annots")) == Some(Arr(items)) && Once(doc, items[k]) == Some(Dict(annot))
    ensures RoleOk(annot, Some("Annots"))
  {
    var value := LookupOr(page, "Annots");
    assert Names(doc, Dict(annot), Dict(annot), 0);
    assert Names(doc, items[k], Dict(annot), 1);
    assert Names(doc, Arr(items), Dict(annot), 2);
    assert Names(doc, value, Dict(annot), 3);
    var i := KeyPlace(page, "Annots");
    RootPagesInDoc(doc);
    assert KeyNames(doc, page, i, Dict(annot), 3);
    EveryRoleChecked(doc, seen, policy, page, i, annot, 3);
  }

  lemma {:induction false} KeyPlace(fields: seq<Entry>, key: string) returns (i: nat)
    requires Lookup(fields, key).Some?
    ensures i < |fields| && fields[i].key == key && fields[i].value == Lookup(fields, key).value
    decreases |fields|
  {
    if fields[0].key == key {
      i := 0;
    } else {
      var j := KeyPlace(fields[1..], key);
      i := j + 1;
    }
  }

  // ------------------------------------------------------------ which URIs were checked or returned

  /** The text an action's `/URI` resolves to. */
  function UriOf(doc: Doc, fields: seq<Entry>): Option<string> {
    var s, uri := Lookup(fields, "S"), Lookup(fields, "URI");
    if s.None? || !s.value.Name? || uri.None? then None
    else
      var once := Once(doc, uri.value);
      if once.Some? && once.value.Text? then Some(once.value.text) else None
  }

  /** The action's URI, if it has one, passes the rules or is among those returned for validation. */
  predicate Safe(doc: Doc, fields: seq<Entry>, refused: string -> bool, uris: seq<string>) {
    var uri := UriOf(doc, fields);
    uri.Some? ==> !refused(uri.value) || uri.value in uris
  }

  ghost predicate AllSafe(doc: Doc, refused: string -> bool, uris: seq<string>) {
    forall fields :: InDoc(doc, Dict(fields)) ==> Safe(doc, fields, refused, uris)
  }

  /** A page of the tree whose `/Annots` is a link annotation itself, or a stream, and not an array. */
  ghost predicate BareLink(doc: Doc, policy: Policy, number: nat, page: seq<Entry>, link: seq<Entry>) {
    && number in policy.pages && Get(doc, number) == Some(Dict(page)) && NameIs(page, "Type", "Page")
    && (Once(doc, LookupOr(page, "Annots")) == Some(Dict(link)) || Once(doc, LookupOr(page, "Annots")) == Some(Stream(link)))
    && NameIs(link, "Type", "Annot") && NameIs(link, "Subtype", "Link")
  }

  /** An action of such a link. */
  ghost predicate BareAction(doc: Doc, policy: Policy, action: seq<Entry>) {
    exists number: nat, page: seq<Entry>, link: seq<Entry>, n: nat ::
      BareLink(doc, policy, number, page, link) && Names(doc, LookupOr(link, "A"), Dict(action), n)
  }

  ghost predicate BareSafe(doc: Doc, policy: Policy, uris: seq<string>) {
    forall action :: BareAction(doc, policy, action) ==> Safe(doc, action, policy.refused, uris)
  }

  /** Dictionaries are dictionaries: no key twice. */
  ghost predicate DistinctKeys(doc: Doc) {
    forall fields :: InDoc(doc, Dict(fields)) ==> UniqueKeys(fields)
  }

  predicate UniqueKeys(fields: seq<Entry>) {
    forall i, j :: 0 <= i < j < |fields| ==> fields[i].key != fields[j].key
  }

  lemma {:induction false} FoundAt(fields: seq<Entry>, k: nat)
    requires k < |fields| && forall j :: 0 <= j < k ==> fields[j].key != fields[k].key
    ensures Lookup(fields, fields[k].key) == Some(fields[k].value)
    decreases k
  {
    if k > 0 { FoundAt(fields[1..], k - 1); }
  }

  lemma {:induction false} NamedInDoc(doc: Doc, v: Obj, inner: Obj, n: nat)
    requires InDoc(doc, v) && Names(doc, v, inner, n)
    ensures InDoc(doc, inner)
    decreases n
  {
    if v != inner {
      match v
      case Arr(items) =>
        var i :| 0 <= i < |items| && Names(doc, items[i], inner, n - 1);
        assert Nested(items[i], items[i]);
        InDocTrans(doc, v, items[i]);
        NamedInDoc(doc, items[i], inner, n - 1);
      case Ref(k) =>
        assert Nested(doc.objects[k], doc.objects[k]);
        NamedInDoc(doc, Get(doc, k).value, inner, n - 1);
      case Stream(fields) => InDocTrans(doc, v, inner);
    }
  }

  lemma ValueInDoc(doc: Doc, fields: seq<Entry>, i: nat)
    requires InDoc(doc, Dict(fields)) && i < |fields|
    ensures InDoc(doc, fields[i].value)
  {
    assert Nested(fields[i].value, fields[i].value);
    InDocTrans(doc, Dict(fields), fields[i].value);
  }

  // -- what is extracted is returned

  lemma {:induction false} ItemReturned(doc: Doc, items: seq<Obj>, k: nat)
    requires ItemUris(doc, items).Some? && k < |items|
    ensures ItemUri(doc, items[k]).Some? && ItemUri(doc, items[k]).value in ItemUris(doc, items).value
    decreases |items|
  {
    if k < |items| - 1 { ItemReturned(doc, items[..|items| - 1], k); }
  }

  lemma {:induction false} PageReturned(doc: Doc, pages: seq<seq<Entry>>, k: nat)
    requires AllUris(doc, pages).Some? && k < |pages|
    ensures PageUris(doc, pages[k]).Some? && forall u :: u in PageUris(doc, pages[k]).value ==> u in AllUris(doc, pages).value
    decreases |pages|
  {
    if k < |pages| - 1 { PageReturned(doc, pages[..|pages| - 1], k); }
  }

  lemma AnnotReturned(doc: Doc, pages: seq<seq<Entry>>, page: seq<Entry>, items: seq<Obj>, k: nat)
    requires AllUris(doc, pages).Some? && page in pages && PageItems(doc, page) == Some(items) && k < |items|
    ensures ItemUri(doc, items[k]).Some? && ItemUri(doc, items[k]).value in AllUris(doc, pages).value
  {
    var p :| 0 <= p < |pages| && pages[p] == page;
    PageReturned(doc, pages, p);
    ItemReturned(doc, items, k);
  }

  /** An object of the page tree that is a page dictionary is one of the pages read. */
  lemma {:induction false} TreePageIsRead(doc: Doc, node: Obj, path: set<nat>, depth: nat, number: nat, page: seq<Entry>)
    requires Pages(doc, node, path, depth).Some? && number in Pages(doc, node, path, depth).value.numbers
    requires Get(doc, number) == Some(Dict(page)) && NameIs(page, "Type", "Page")
    ensures page in Pages(doc, node, path, depth).value.pages
    decreases MAX_DEPTH + 1 - depth, 0, 0
  {
    var fields := Fields(Deref(doc, node).value);
    if NameIs(fields, "Type", "Page") {
      assert node == Ref(number);
      assert Deref(doc, Dict(page), MAX_HOPS - 1) == Some(Dict(page));
    } else {
      var items := Deref(doc, LookupOr(fields, "Kids")).value.items;
      TreeKidIsRead(doc, items, if node.Ref? then path + {node.number} else path, depth, number, page);
    }
  }

  lemma {:induction false} TreeKidIsRead(doc: Doc, kids: seq<Obj>, path: set<nat>, depth: nat, number: nat, page: seq<Entry>)
    requires depth <= MAX_DEPTH && PagesOf(doc, kids, path, depth).Some?
    requires number in PagesOf(doc, kids, path, depth).value.numbers
    requires Get(doc, number) == Some(Dict(page)) && NameIs(page, "Type", "Page")
    ensures page in PagesOf(doc, kids, path, depth).value.pages
    decreases MAX_DEPTH - depth, 1, |kids|
  {
    var first := Pages(doc, kids[0], path, depth + 1);
    if number in first.value.numbers {
      TreePageIsRead(doc, kids[0], path, depth + 1, number, page);
    } else {
      TreeKidIsRead(doc, kids[1..], path, depth, number, page);
    }
  }

  // -- a deferred action is returned, or its link stands outside an array

  /** Under an array, what the walk names as a link and the extractor could read is the item itself. */
  lemma ItemIsTheLink(doc: Doc, item: Obj, link: seq<Entry>, n: nat)
    requires ItemUri(doc, item).Some? && Names(doc, item, Dict(link), n)
    ensures UriAction(doc, link) == ItemUri(doc, item)
  {
    assert Keys([]) == {};
    assert "A" in LINK_KEYS;
    if item.Ref? { assert Deref(doc, Get(doc, item.number).value, MAX_HOPS - 1) == Some(Get(doc, item.number).value); }
  }

  lemma ArrayLinkReturned(doc: Doc, pages: seq<seq<Entry>>, page: seq<Entry>, items: seq<Obj>, link: seq<Entry>, n: nat)
    requires AllUris(doc, pages).Some? && page in pages && PageItems(doc, page) == Some(items)
    requires Names(doc, Arr(items), Dict(link), n)
    ensures UriAction(doc, link).Some? && UriAction(doc, link).value in AllUris(doc, pages).value
  {
    var k :| 0 <= k < |items| && Names(doc, items[k], Dict(link), n - 1);
    AnnotReturned(doc, pages, page, items, k);
    ItemIsTheLink(doc, items[k], link, n - 1);
  }

  /** A link that a tree page's `/Annots` names is returned, or is what `/Annots` itself resolves to. */
  lemma LinkReturnedOrBare(doc: Doc, pages: seq<seq<Entry>>, page: seq<Entry>, link: seq<Entry>, n: nat)
    requires AllUris(doc, pages).Some? && page in pages && Names(doc, LookupOr(page, "Annots"), Dict(link), n)
    ensures || (UriAction(doc, link).Some? && UriAction(doc, link).value in AllUris(doc, pages).value)
            || Once(doc, LookupOr(page, "Annots")) == Some(Dict(link))
            || Once(doc, LookupOr(page, "Annots")) == Some(Stream(link))
  {
    var value := LookupOr(page, "Annots");
    if value.Arr? {
      ArrayLinkReturned(doc, pages, page, value.items, link, n);
    } else if value.Ref? {
      var found := Get(doc, value.number).value;
      assert Deref(doc, found, MAX_HOPS - 1) == Some(found);
      if found.Arr? { ArrayLinkReturned(doc, pages, page, found.items, link, n - 1); }
    }
  }

  /** The extractor reads the one action that the walk deferred for a link it could read. */
  lemma ActionIsRead(doc: Doc, link: seq<Entry>, action: seq<Entry>, n: nat)
    requires UriAction(doc, link).Some? && Names(doc, LookupOr(link, "A"), Dict(action), n) && UriOf(doc, action).Some?
    ensures UriOf(doc, action) == UriAction(doc, link)
  {
    assert Keys([]) == {} && "S" in ACTION_BARE && "S" in ACTION_WITH_TYPE;
  }

  /** A tree page is one of the pages read, and with distinct keys `/Annots` is the entry the walk saw. */
  lemma TreePageFacts(doc: Doc, policy: Policy, number: nat, page: seq<Entry>, i: nat, link: seq<Entry>, m: nat)
    requires CatalogOk(doc) && RootPages(doc).Some? && DistinctKeys(doc) && policy.pages == RootPages(doc).value.numbers
    requires PageNames(doc, policy, number, page, i, Dict(link), m)
    ensures page in RootPages(doc).value.pages && LookupOr(page, "Annots") == page[i].value && UniqueKeys(link)
  {
    assert Nested(doc.objects[number], Dict(page));
    ValueInDoc(doc, page, i);
    NamedInDoc(doc, page[i].value, Dict(link), m);
    FoundAt(page, i);
    TreePage(doc, number, page);
  }

  lemma TreePage(doc: Doc, number: nat, page: seq<Entry>)
    requires CatalogOk(doc) && RootPages(doc).Some? && number in RootPages(doc).value.numbers
    requires Get(doc, number) == Some(Dict(page)) && NameIs(page, "Type", "Page")
    ensures page in RootPages(doc).value.pages
  {
    var root := LookupOr(Deref(doc, LookupOr(doc.trailer, "Root")).value.entries, "Pages");
    TreePageIsRead(doc, root, {}, 0, number, page);
  }

  /** The extractor reads this link and returns its URI. */
  predicate Returned(doc: Doc, link: seq<Entry>, uris: seq<string>) {
    UriAction(doc, link).Some? && UriAction(doc, link).value in uris
  }

  lemma LinkOnPage(doc: Doc, policy: Policy, number: nat, page: seq<Entry>, i: nat, link: seq<Entry>, m: nat, uris: seq<string>)
    requires CatalogOk(doc) && RootPages(doc).Some? && DistinctKeys(doc) && policy.pages == RootPages(doc).value.numbers
    requires PageNames(doc, policy, number, page, i, Dict(link), m)
    requires NameIs(link, "Type", "Annot") && NameIs(link, "Subtype", "Link")
    requires AllUris(doc, RootPages(doc).value.pages) == Some(uris)
    ensures UniqueKeys(link) && (Returned(doc, link, uris) || BareLink(doc, policy, number, page, link))
  {
    TreePageFacts(doc, policy, number, page, i, link, m);
    LinkReturnedOrBare(doc, RootPages(doc).value.pages, page, link, m);
  }

  lemma ReturnedAction(doc: Doc, link: seq<Entry>, a: nat, action: seq<Entry>, n: nat, uris: seq<string>)
    requires UniqueKeys(link) && a < |link| && link[a].key == "A" && Names(doc, link[a].value, Dict(action), n)
    requires Returned(doc, link, uris) && UriOf(doc, action).Some?
    ensures UriOf(doc, action).value in uris
  {
    FoundAt(link, a);
    ActionIsRead(doc, link, action, n);
  }

  lemma BareOnPage(doc: Doc, policy: Policy, number: nat, page: seq<Entry>, link: seq<Entry>, a: nat, action: seq<Entry>, n: nat)
    requires BareLink(doc, policy, number, page, link) && UniqueKeys(link)
    requires a < |link| && link[a].key == "A" && Names(doc, link[a].value, Dict(action), n)
    ensures BareAction(doc, policy, action)
  {
    FoundAt(link, a);
    assert Names(doc, LookupOr(link, "A"), Dict(action), n);
  }

  lemma DeferredIsReturnedOrBare(doc: Doc, policy: Policy, action: seq<Entry>, uris: seq<string>)
    requires CatalogOk(doc) && RootPages(doc).Some? && DistinctKeys(doc) && policy.pages == RootPages(doc).value.numbers
    requires AllUris(doc, RootPages(doc).value.pages) == Some(uris)
    requires UnderLink(doc, policy, Dict(action)) && UriOf(doc, action).Some?
    ensures UriOf(doc, action).value in uris || BareAction(doc, policy, action)
  {
    var link: seq<Entry>, a: nat, n: nat :| LinkNames(doc, policy, link, a, Dict(action), n);
    var number: nat, page: seq<Entry>, i: nat, m: nat :| PageNames(doc, policy, number, page, i, Dict(link), m);
    LinkOnPage(doc, policy, number, page, i, link, m, uris);
    if Returned(doc, link, uris) {
      ReturnedAction(doc, link, a, action, n, uris);
    } else {
      BareOnPage(doc, policy, number, page, link, a, action, n);
    }
  }

  lemma BareInDoc(doc: Doc, policy: Policy, action: seq<Entry>)
    requires BareAction(doc, policy, action)
    ensures InDoc(doc, Dict(action))
  {
    var number: nat, page: seq<Entry>, link: seq<Entry>, n: nat :|
      BareLink(doc, policy, number, page, link) && Names(doc, LookupOr(link, "A"), Dict(action), n);
    assert Nested(doc.objects[number], Dict(page));
    var value := LookupOr(page, "Annots");
    var i := KeyPlace(page, "Annots");
    ValueInDoc(doc, page, i);
    if value.Ref? { assert Nested(doc.objects[value.number], doc.objects[value.number]); }
    var found := Once(doc, value).value;
    if found.Stream? { InDocTrans(doc, found, Dict(link)); }
    var a := KeyPlace(link, "A");
    ValueInDoc(doc, link, a);
    NamedInDoc(doc, link[a].value, Dict(action), n);
  }

  /**
   When the extractor returns, every action URI of the document passes the rules or is
   returned for validation, exactly when this holds of the links that stand outside an array.
   */
  lemma UrisAccountedFor(doc: Doc, seen: Seen, refused: string -> bool, uris: seq<string>)
    requires CatalogOk(doc) && RootPages(doc).Some? && DistinctKeys(doc) && Covered(doc, seen, PolicyOf(doc, refused))
    requires AllUris(doc, RootPages(doc).value.pages) == Some(uris)
    ensures AllSafe(doc, refused, uris) <==> BareSafe(doc, PolicyOf(doc, refused), uris)
  {
    var policy := PolicyOf(doc, refused);
    if AllSafe(doc, refused, uris) {
      forall action | BareAction(doc, policy, action) ensures Safe(doc, action, refused, uris) {
        BareInDoc(doc, policy, action);
      }
    }
    if BareSafe(doc, policy, uris) {
      forall fields | InDoc(doc, Dict(fields)) ensures Safe(doc, fields, refused, uris) {
        EveryUriChecked(doc, seen, policy, fields);
        if UriOf(doc, fields).Some? && !UriOk(doc, fields, policy) {
          DeferredIsReturnedOrBare(doc, policy, fields, uris);
        }
      }
    }
  }

  ghost predicate AnnotsInArrays(doc: Doc)
    requires CatalogOk(doc) && RootPages(doc).Some?
  {
    forall page :: page in RootPages(doc).value.pages ==>
      var annots := Once(doc, LookupOr(page, "Annots")); annots.Some? && !annots.value.Dict? && !annots.value.Stream?
  }

  lemma NoBareAction(doc: Doc, policy: Policy, action: seq<Entry>)
    requires CatalogOk(doc) && RootPages(doc).Some? && policy.pages == RootPages(doc).value.numbers && AnnotsInArrays(doc)
    ensures !BareAction(doc, policy, action)
  {
    if BareAction(doc, policy, action) {
      var number: nat, page: seq<Entry>, link: seq<Entry>, n: nat :|
        BareLink(doc, policy, number, page, link) && Names(doc, LookupOr(link, "A"), Dict(action), n);
      TreePage(doc, number, page);
    }
  }

  /** In particular, every URI is accounted for when no tree page's `/Annots` is a dictionary or a stream. */
  lemma ArraysAreSafe(doc: Doc, seen: Seen, refused: string -> bool, uris: seq<string>)
    requires CatalogOk(doc) && RootPages(doc).Some? && DistinctKeys(doc) && Covered(doc, seen, PolicyOf(doc, refused))
    requires AllUris(doc, RootPages(doc).value.pages) == Some(uris) && AnnotsInArrays(doc)
    ensures AllSafe(doc, refused, uris)
  {
    UrisAccountedFor(doc, seen, refused, uris);
    forall action ensures !BareAction(doc, PolicyOf(doc, refused), action) {
      NoBareAction(doc, PolicyOf(doc, refused), action);
    }
  }
}

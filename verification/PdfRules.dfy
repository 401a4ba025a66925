/**
 The rules of the object walk and of the extractor written out: which entry a key
 reads, which key sets are allowed, how far a reference is followed.
 */
module PdfRules {
  import opened Options
  import opened PdfGraph
  import opened PdfLinks

  // ------------------------------------------------------------ reading a dictionary

  predicate IsFirst(fields: seq<Entry>, key: string, i: nat) {
    i < |fields| && fields[i].key == key && forall j :: 0 <= j < i ==> fields[j].key != key
  }

  /** The first entry with this key has this value. */
  ghost predicate Reads(fields: seq<Entry>, key: string, value: Obj) {
    exists i: nat :: IsFirst(fields, key, i) && fields[i].value == value
  }

  ghost predicate Has(fields: seq<Entry>, key: string) { exists i :: 0 <= i < |fields| && fields[i].key == key }

  /** The keys are exactly these. */
  ghost predicate KeysAre(fields: seq<Entry>, keys: set<string>) { forall key :: Has(fields, key) <==> key in keys }

  lemma {:induction false} LookupReads(fields: seq<Entry>, key: string, value: Obj)
    ensures Lookup(fields, key) == Some(value) <==> Reads(fields, key, value)
    decreases |fields|
  {
    if fields != [] {
      var rest := fields[1..];
      LookupReads(rest, key, value);
      if fields[0].key == key {
        assert IsFirst(fields, key, 0);
      } else {
        if Reads(rest, key, value) {
          var i: nat :| IsFirst(rest, key, i) && rest[i].value == value;
          assert IsFirst(fields, key, i + 1);
        }
        if Reads(fields, key, value) {
          var i: nat :| IsFirst(fields, key, i) && fields[i].value == value;
          RestFirst(fields, rest, key, i);
        }
      }
    }
  }

  lemma RestFirst(fields: seq<Entry>, rest: seq<Entry>, key: string, i: nat)
    requires fields != [] && rest == fields[1..] && fields[0].key != key && IsFirst(fields, key, i)
    ensures i > 0 && IsFirst(rest, key, i - 1) && rest[i - 1] == fields[i]
  {
  }

  lemma KeysMean(fields: seq<Entry>, keys: set<string>)
    ensures Keys(fields) == keys <==> KeysAre(fields, keys)
  {
    assert forall key :: key in Keys(fields) <==> Has(fields, key);
  }

  /** No reference, or up to eight references each to an object of the table, ending in `target`. */
  ghost predicate Hops(doc: Doc, value: Obj, n: nat, target: Obj)
    decreases n
  {
    if n == 0 then value == target && !value.Ref?
    else value.Ref? && value.number in doc.numbers && value.number in doc.objects
         && Hops(doc, doc.objects[value.number], n - 1, target)
  }

  lemma {:induction false} HopsDeref(doc: Doc, value: Obj, n: nat, hops: nat, target: Obj)
    requires n <= hops && Hops(doc, value, n, target)
    ensures Deref(doc, value, hops) == Some(target)
    decreases n
  {
    if n > 0 { HopsDeref(doc, doc.objects[value.number], n - 1, hops - 1, target); }
  }

  lemma {:induction false} DerefHops(doc: Doc, value: Obj, hops: nat, target: Obj) returns (n: nat)
    requires Deref(doc, value, hops) == Some(target)
    ensures n <= hops && Hops(doc, value, n, target)
    decreases hops
  {
    if value.Ref? {
      var m := DerefHops(doc, doc.objects[value.number], hops - 1, target);
      n := m + 1;
    } else {
      n := 0;
    }
  }

  ghost predicate Resolves(doc: Doc, value: Obj, target: Obj) { exists n: nat :: n <= 8 && Hops(doc, value, n, target) }

  lemma DerefMeans(doc: Doc, value: Obj, target: Obj)
    ensures Deref(doc, value) == Some(target) <==> Resolves(doc, value, target)
  {
    if Deref(doc, value) == Some(target) { var n := DerefHops(doc, value, MAX_HOPS, target); }
    if Resolves(doc, value, target) {
      var n: nat :| n <= 8 && Hops(doc, value, n, target);
      HopsDeref(doc, value, n, 8, target);
    }
  }

  /** One reference at most. */
  ghost predicate ResolvesOnce(doc: Doc, value: Obj, target: Obj) {
    if value.Ref? then value.number in doc.numbers && value.number in doc.objects && doc.objects[value.number] == target
    else value == target
  }

  lemma OnceMeans(doc: Doc, value: Obj, target: Obj)
    ensures Once(doc, value) == Some(target) <==> ResolvesOnce(doc, value, target)
  {
  }

  // ------------------------------------------------------------ the rules for one dictionary

  ghost predicate PageRule(fields: seq<Entry>) {
    Reads(fields, "Type", Name("Page")) ==>
      || KeysAre(fields, {"Contents", "MediaBox", "Parent", "Resources", "Tabs", "Type"})
      || KeysAre(fields, {"Annots", "Contents", "MediaBox", "Parent", "Resources", "Tabs", "Type"})
  }

  ghost predicate ActionRule(fields: seq<Entry>) { forall s :: Reads(fields, "S", Name(s)) ==> s == "URI" }

  ghost predicate IsAction(fields: seq<Entry>) { exists s :: Reads(fields, "S", Name(s)) }

  /** The `/URI` of an action can be resolved once, and is allowed if it is then a text. */
  ghost predicate UriRule(doc: Doc, fields: seq<Entry>, refused: string -> bool) {
    IsAction(fields) ==> forall uri :: Reads(fields, "URI", uri) ==> UriAllowed(doc, uri, refused)
  }

  ghost predicate UriAllowed(doc: Doc, uri: Obj, refused: string -> bool) {
    match uri
    case Ref(n) => n in doc.numbers && n in doc.objects && (doc.objects[n].Text? ==> !refused(doc.objects[n].text))
    case Text(text) => !refused(text)
    case _ => true
  }

  ghost predicate IsLink(fields: seq<Entry>) { Reads(fields, "Subtype", Name("Link")) }

  ghost predicate LinkKeys(fields: seq<Entry>) { KeysAre(fields, {"A", "Border", "F", "Rect", "Subtype", "Type"}) }

  /** What the key that names a dictionary asks of it. */
  ghost predicate RoleRule(fields: seq<Entry>, role: Role) {
    && (role == Some("Annots") ==> LinkKeys(fields) && IsLink(fields))
    && (role == Some("Resources") ==> KeysAre(fields, {"ExtGState", "Font", "ProcSet"}))
    && role != Some("AA")
    && (IsLink(fields) ==> role == Some("Annots") || role == Some("Resources"))
  }

  lemma PageOkMeans(fields: seq<Entry>)
    ensures PageOk(fields) <==> PageRule(fields)
  {
    LookupReads(fields, "Type", Name("Page"));
    KeysMean(fields, {"Contents", "MediaBox", "Parent", "Resources", "Tabs", "Type"});
    KeysMean(fields, {"Annots", "Contents", "MediaBox", "Parent", "Resources", "Tabs", "Type"});
    assert PAGE_KEYS + {"Annots"} == {"Annots", "Contents", "MediaBox", "Parent", "Resources", "Tabs", "Type"};
  }

  lemma ActionMeans(fields: seq<Entry>)
    ensures ActionOk(fields) <==> ActionRule(fields)
    ensures IsAction(fields) <==> Lookup(fields, "S").Some? && Lookup(fields, "S").value.Name?
  {
    forall s: string ensures Lookup(fields, "S") == Some(Name(s)) <==> Reads(fields, "S", Name(s)) {
      LookupReads(fields, "S", Name(s));
    }
    var found := Lookup(fields, "S");
    if found.Some? && found.value.Name? { assert Reads(fields, "S", Name(found.value.name)); }
  }

  lemma UriMeans(doc: Doc, fields: seq<Entry>, policy: Policy)
    ensures UriOk(doc, fields, policy) <==> UriRule(doc, fields, policy.refused)
  {
    ActionMeans(fields);
    forall uri ensures Lookup(fields, "URI") == Some(uri) <==> Reads(fields, "URI", uri) { LookupReads(fields, "URI", uri); }
    var found := Lookup(fields, "URI");
    if found.Some? { assert Reads(fields, "URI", found.value); }
  }

  lemma RoleMeans(fields: seq<Entry>, role: Role)
    ensures RoleOk(fields, role) <==> RoleRule(fields, role)
  {
    LookupReads(fields, "Subtype", Name("Link"));
    KeysMean(fields, {"A", "Border", "F", "Rect", "Subtype", "Type"});
    KeysMean(fields, {"ExtGState", "Font", "ProcSet"});
    assert LINK_KEYS == {"A", "Border", "F", "Rect", "Subtype", "Type"};
    if KeysAre(fields, {"ExtGState", "Font", "ProcSet"}) { assert !Has(fields, "Subtype"); }
  }

  /** What the walk asks of one dictionary, exactly. */
  lemma DictMeans(doc: Doc, fields: seq<Entry>, role: Role, flags: Flags, policy: Policy)
    ensures DictPasses(doc, fields, role, flags, policy) <==>
            && RoleRule(fields, role) && PageRule(fields) && ActionRule(fields)
            && (role == Some("A") ==> flags.inLinkAction || flags.actionOfAnnot)
            && (flags.inLinkAction || UriRule(doc, fields, policy.refused))
  {
    RoleMeans(fields, role);
    PageOkMeans(fields);
    ActionMeans(fields);
    UriMeans(doc, fields, policy);
  }

  /** What the walk remembers on the way to a child. */
  lemma FlagsMean(fields: seq<Entry>, key: string, flags: Flags, onPage: bool)
    ensures var below := ChildFlags(fields, key, flags, onPage);
            && (below.actionOfAnnot <==> key == "A" && Reads(fields, "Type", Name("Annot")))
            && (below.inLinkAction <==> below.actionOfAnnot && flags.underPageAnnots && IsLink(fields))
            && (below.underPageAnnots <==> key == "Annots" && onPage && Reads(fields, "Type", Name("Page")))
  {
    LookupReads(fields, "Type", Name("Annot"));
    LookupReads(fields, "Type", Name("Page"));
    LookupReads(fields, "Subtype", Name("Link"));
  }

  /** Arrays and scalars only. */
  predicate Bare(v: Obj) {
    match v
    case Arr(items) => forall i :: 0 <= i < |items| ==> Bare(items[i])
    case Dict(_) => false
    case Stream(_) => false
    case Ref(_) => false
    case _ => true
  }

  /** Such a value is refused exactly when something in it stands deeper than 64 levels. */
  lemma {:induction false} DepthIsExact(doc: Doc, policy: Policy, v: Obj, role: Role, depth: nat, flags: Flags)
    requires Bare(v)
    ensures Plain(doc, policy, v, role, depth, flags) <==> Levels(v, 64 - depth)
    decreases v
  {
    if depth <= 64 && v.Arr? {
      forall i | 0 <= i < |v.items|
        ensures Plain(doc, policy, v.items[i], role, depth + 1, flags) <==> Levels(v.items[i], 64 - depth - 1)
      {
        DepthIsExact(doc, policy, v.items[i], role, depth + 1, flags);
      }
    }
  }

  // ------------------------------------------------------------ a passing document

  /** Every dictionary of a passing document obeys the rules for pages and actions. */
  lemma EveryDictionaryObeys(doc: Doc, seen: Seen, policy: Policy, fields: seq<Entry>)
    requires Covered(doc, seen, policy) && InDoc(doc, Dict(fields))
    ensures PageRule(fields) && ActionRule(fields)
    ensures UriRule(doc, fields, policy.refused) || UnderLink(doc, policy, Dict(fields))
  {
    EveryDictionaryChecked(doc, seen, policy, fields);
    EveryUriChecked(doc, seen, policy, fields);
    PageOkMeans(fields);
    ActionMeans(fields);
    UriMeans(doc, fields, policy);
  }

  /** Every dictionary that a key names obeys the rule for that key. */
  lemma EveryRoleObeys(doc: Doc, seen: Seen, policy: Policy, fields: seq<Entry>, i: nat, child: seq<Entry>, n: nat)
    requires Covered(doc, seen, policy) && KeyNames(doc, fields, i, Dict(child), n)
    ensures RoleRule(child, Some(fields[i].key))
    ensures UriRule(doc, child, policy.refused) || (fields[i].key == "A" && UnderLink(doc, policy, Dict(child)))
  {
    EveryRoleChecked(doc, seen, policy, fields, i, child, n);
    RoleMeans(child, Some(fields[i].key));
    UriMeans(doc, child, policy);
  }

  ghost predicate CatalogRule(doc: Doc) {
    exists root: Obj, catalog: seq<Entry> ::
      Reads(doc.trailer, "Root", root) && Resolves(doc, root, Dict(catalog)) && KeysAre(catalog, {"Pages", "Type"})
  }

  lemma CatalogMeans(doc: Doc)
    ensures CatalogOk(doc) <==> CatalogRule(doc)
  {
    var root := LookupOr(doc.trailer, "Root");
    forall value ensures Lookup(doc.trailer, "Root") == Some(value) <==> Reads(doc.trailer, "Root", value) {
      LookupReads(doc.trailer, "Root", value);
    }
    forall catalog: seq<Entry>
      ensures Deref(doc, root) == Some(Dict(catalog)) <==> Resolves(doc, root, Dict(catalog))
      ensures Keys(catalog) == CATALOG_KEYS <==> KeysAre(catalog, {"Pages", "Type"})
    {
      DerefMeans(doc, root, Dict(catalog));
      KeysMean(catalog, {"Pages", "Type"});
    }
  }

  // ------------------------------------------------------------ one link of the extractor

  ghost predicate ActionShape(action: seq<Entry>) {
    || KeysAre(action, {"S", "URI"})
    || (KeysAre(action, {"S", "Type", "URI"}) && Reads(action, "Type", Name("Action")))
  }

  /** `item` is a link whose action is in one of the two shapes and leads to `text`. */
  ghost predicate LinkTo(doc: Doc, item: Obj, annot: seq<Entry>, a: Obj, action: seq<Entry>, uri: Obj, text: string) {
    && Resolves(doc, item, Dict(annot)) && LinkKeys(annot) && Reads(annot, "Type", Name("Annot"))
    && Reads(annot, "A", a) && ResolvesOnce(doc, a, Dict(action)) && ActionShape(action)
    && Reads(action, "URI", uri) && ResolvesOnce(doc, uri, Text(text))
  }

  lemma ActionShapeMeans(action: seq<Entry>)
    ensures ActionShape(action) <==>
            !(Keys(action) == ACTION_WITH_TYPE && !NameIs(action, "Type", "Action"))
            && (Keys(action) == ACTION_WITH_TYPE || Keys(action) == ACTION_BARE)
  {
    KeysMean(action, {"S", "URI"});
    KeysMean(action, {"S", "Type", "URI"});
    assert ACTION_WITH_TYPE == {"S", "Type", "URI"};
    LookupReads(action, "Type", Name("Action"));
    if Keys(action) == {"S", "URI"} { assert "Type" !in Keys(action); }
  }

  lemma ActionUriMeans(doc: Doc, action: seq<Entry>, text: string)
    ensures ActionUri(doc, action) == Some(text) <==>
            ActionShape(action) && exists uri :: Reads(action, "URI", uri) && ResolvesOnce(doc, uri, Text(text))
  {
    ActionShapeMeans(action);
    var found := Lookup(action, "URI");
    forall uri ensures found == Some(uri) <==> Reads(action, "URI", uri) { LookupReads(action, "URI", uri); }
    if found.Some? { assert Reads(action, "URI", found.value); }
  }

  /** The extractor reads a link exactly when it has this form. */
  lemma ItemMeansLink(doc: Doc, item: Obj, text: string)
    ensures ItemUri(doc, item) == Some(text) <==>
            exists annot: seq<Entry>, a: Obj, action: seq<Entry>, uri: Obj :: LinkTo(doc, item, annot, a, action, uri, text)
  {
    if ItemUri(doc, item) == Some(text) {
      LinkFound(doc, item, text);
    }
    forall annot: seq<Entry>, a: Obj, action: seq<Entry>, uri: Obj | LinkTo(doc, item, annot, a, action, uri, text)
      ensures ItemUri(doc, item) == Some(text)
    {
      LinkRead(doc, item, annot, a, action, uri, text);
    }
  }

  lemma AnnotMeans(annot: seq<Entry>)
    ensures Keys(annot) == LINK_KEYS && NameIs(annot, "Type", "Annot") <==> LinkKeys(annot) && Reads(annot, "Type", Name("Annot"))
  {
    KeysMean(annot, {"A", "Border", "F", "Rect", "Subtype", "Type"});
    assert LINK_KEYS == {"A", "Border", "F", "Rect", "Subtype", "Type"};
    LookupReads(annot, "Type", Name("Annot"));
  }

  lemma LinkFound(doc: Doc, item: Obj, text: string)
    requires ItemUri(doc, item) == Some(text)
    ensures exists annot: seq<Entry>, a: Obj, action: seq<Entry>, uri: Obj :: LinkTo(doc, item, annot, a, action, uri, text)
  {
    var found := Deref(doc, item).value;
    var annot := Fields(found);
    AnnotMeans(annot);
    DerefMeans(doc, item, Dict(annot));
    var a := LookupOr(annot, "A");
    LookupReads(annot, "A", a);
    assert Lookup(annot, "A").Some?;
    var action := Fields(Once(doc, a).value);
    ActionUriMeans(doc, action, text);
    var uri :| Reads(action, "URI", uri) && ResolvesOnce(doc, uri, Text(text));
    assert LinkTo(doc, item, annot, a, action, uri, text);
  }

  lemma LinkRead(doc: Doc, item: Obj, annot: seq<Entry>, a: Obj, action: seq<Entry>, uri: Obj, text: string)
    requires LinkTo(doc, item, annot, a, action, uri, text)
    ensures ItemUri(doc, item) == Some(text)
  {
    AnnotMeans(annot);
    DerefMeans(doc, item, Dict(annot));
    LookupReads(annot, "A", a);
    OnceMeans(doc, a, Dict(action));
    ActionUriMeans(doc, action, text);
  }

  ghost predicate IsLinkItem(doc: Doc, item: Obj) {
    exists annot: seq<Entry>, a: Obj, action: seq<Entry>, uri: Obj, text: string :: LinkTo(doc, item, annot, a, action, uri, text)
  }

  /** `/Annots`, where there is one, resolves, and every element of it, if it is an array, is a link. */
  ghost predicate PageReads(doc: Doc, page: seq<Entry>) {
    forall annots :: Reads(page, "Annots", annots) ==> exists found :: Resolves(doc, annots, found) && AllLinks(doc, found)
  }

  ghost predicate AllLinks(doc: Doc, found: Obj) {
    found.Arr? ==> forall i :: 0 <= i < |found.items| ==> IsLinkItem(doc, found.items[i])
  }

  lemma ItemReads(doc: Doc, item: Obj)
    ensures ItemUri(doc, item).Some? <==> IsLinkItem(doc, item)
  {
    if ItemUri(doc, item).Some? {
      LinkFound(doc, item, ItemUri(doc, item).value);
    }
    if IsLinkItem(doc, item) {
      var annot: seq<Entry>, a: Obj, action: seq<Entry>, uri: Obj, text: string :| LinkTo(doc, item, annot, a, action, uri, text);
      LinkRead(doc, item, annot, a, action, uri, text);
    }
  }

  lemma {:induction false} ItemsGiveUris(doc: Doc, items: seq<Obj>)
    requires forall i :: 0 <= i < |items| ==> ItemUri(doc, items[i]).Some?
    ensures ItemUris(doc, items).Some?
    decreases |items|
  {
    if items != [] {
      var front := items[..|items| - 1];
      assert forall i :: 0 <= i < |front| ==> front[i] == items[i];
      ItemsGiveUris(doc, front);
    }
  }

  lemma EachItem(doc: Doc, items: seq<Obj>)
    ensures ItemUris(doc, items).Some? <==> forall i :: 0 <= i < |items| ==> ItemUri(doc, items[i]).Some?
  {
    if i :| 0 <= i < |items| && ItemUri(doc, items[i]).None? {
      BrokenItem(doc, items, i);
    } else {
      ItemsGiveUris(doc, items);
    }
  }

  lemma ItemsRead(doc: Doc, items: seq<Obj>)
    ensures ItemUris(doc, items).Some? <==> AllLinks(doc, Arr(items))
  {
    EachItem(doc, items);
    forall i | 0 <= i < |items| ensures ItemUri(doc, items[i]).Some? <==> IsLinkItem(doc, items[i]) { ItemReads(doc, items[i]); }
  }

  lemma PageIsRead(doc: Doc, page: seq<Entry>)
    ensures PageUris(doc, page).Some? <==> PageReads(doc, page)
  {
    var annots := LookupOr(page, "Annots");
    forall value ensures Lookup(page, "Annots") == Some(value) <==> Reads(page, "Annots", value) { LookupReads(page, "Annots", value); }
    forall found ensures Deref(doc, annots) == Some(found) <==> Resolves(doc, annots, found) { DerefMeans(doc, annots, found); }
    if Deref(doc, annots).Some? {
      var found := Deref(doc, annots).value;
      assert Resolves(doc, annots, found);
      if found.Arr? { ItemsRead(doc, found.items); } else { ItemsRead(doc, []); }
    }
  }

  lemma {:induction false} PagesGiveUris(doc: Doc, pages: seq<seq<Entry>>)
    requires forall p :: 0 <= p < |pages| ==> PageUris(doc, pages[p]).Some?
    ensures AllUris(doc, pages).Some?
    decreases |pages|
  {
    if pages != [] {
      var front := pages[..|pages| - 1];
      assert forall p :: 0 <= p < |front| ==> front[p] == pages[p];
      PagesGiveUris(doc, front);
    }
  }

  lemma EachPage(doc: Doc, pages: seq<seq<Entry>>)
    ensures AllUris(doc, pages).Some? <==> forall p :: 0 <= p < |pages| ==> PageUris(doc, pages[p]).Some?
  {
    if p :| 0 <= p < |pages| && PageUris(doc, pages[p]).None? {
      BrokenPage(doc, pages, p);
    } else {
      PagesGiveUris(doc, pages);
    }
  }

  /** The pages are read exactly when each of them is. */
  lemma PagesRead(doc: Doc, pages: seq<seq<Entry>>)
    ensures AllUris(doc, pages).Some? <==> forall p :: 0 <= p < |pages| ==> PageReads(doc, pages[p])
  {
    EachPage(doc, pages);
    forall p | 0 <= p < |pages| ensures PageUris(doc, pages[p]).Some? <==> PageReads(doc, pages[p]) { PageIsRead(doc, pages[p]); }
  }
}

/**
 Documents of one page, whatever its `/Annots`: the walk accepts them when it accepts
 that value, and their page tree yields that page.
 */
module PdfSmallDoc {
  import opened Options
  import opened PdfGraph
  import opened PdfLinks

  const LINK := "u"

  const TRAILER := [Entry("Root", Ref(1))]
  const CATALOG := [Entry("Type", Name("Catalog")), Entry("Pages", Ref(2))]
  const TREE := [Entry("Type", Name("Pages")), Entry("Kids", Arr([Ref(3)]))]
  const ACTION := [Entry("S", Name("URI")), Entry("URI", Text(LINK))]

  function PageWith(annots: Obj): seq<Entry> {
    [Entry("Type", Name("Page")), Entry("Annots", annots), Entry("Contents", Scalar), Entry("MediaBox", Scalar),
     Entry("Parent", Scalar), Entry("Resources", Scalar), Entry("Tabs", Scalar)]
  }

  function AnnotOf(subtype: string): seq<Entry> {
    [Entry("Type", Name("Annot")), Entry("Subtype", Name(subtype)), Entry("A", Dict(ACTION)),
     Entry("Rect", Scalar), Entry("Border", Scalar), Entry("F", Scalar)]
  }

  // ------------------------------------------------------------ lookups

  lemma {:induction false} NotFound(fields: seq<Entry>, key: string)
    requires forall j :: 0 <= j < |fields| ==> fields[j].key != key
    ensures Lookup(fields, key) == None
    decreases |fields|
  {
    if fields != [] { NotFound(fields[1..], key); }
  }

  lemma PageKeys(annots: Obj)
    ensures Keys(PageWith(annots)) == PAGE_KEYS + {"Annots"}
  {
    var page, keys := PageWith(annots), PAGE_KEYS + {"Annots"};
    assert page[0].key == "Type" && page[1].key == "Annots" && page[2].key == "Contents" && page[3].key == "MediaBox"
        && page[4].key == "Parent" && page[5].key == "Resources" && page[6].key == "Tabs";
    assert forall i :: 0 <= i < 7 ==> page[i].key in keys;
  }

  lemma AnnotKeys(subtype: string)
    ensures Keys(AnnotOf(subtype)) == LINK_KEYS
  {
    var annot := AnnotOf(subtype);
    assert annot[0].key == "Type" && annot[1].key == "Subtype" && annot[2].key == "A" && annot[3].key == "Rect"
        && annot[4].key == "Border" && annot[5].key == "F";
    assert forall i :: 0 <= i < 6 ==> annot[i].key in LINK_KEYS;
  }

  lemma AnnotLookups(subtype: string)
    ensures var annot := AnnotOf(subtype);
            && Lookup(annot, "Type") == Some(Name("Annot")) && Lookup(annot, "Subtype") == Some(Name(subtype))
            && Lookup(annot, "A") == Some(Dict(ACTION)) && Lookup(annot, "S") == None
  {
    var annot := AnnotOf(subtype);
    FoundAt(annot, 0);
    FoundAt(annot, 1);
    FoundAt(annot, 2);
    NotFound(annot, "S");
  }

  lemma ActionLookups()
    ensures Lookup(ACTION, "S") == Some(Name("URI")) && Lookup(ACTION, "URI") == Some(Text(LINK))
    ensures Lookup(ACTION, "Subtype") == None && Lookup(ACTION, "Type") == None
  {
    FoundAt(ACTION, 0);
    FoundAt(ACTION, 1);
    NotFound(ACTION, "Subtype");
    NotFound(ACTION, "Type");
  }

  lemma PageLookups(annots: Obj)
    ensures var page := PageWith(annots);
            && Lookup(page, "Type") == Some(Name("Page")) && Lookup(page, "Annots") == Some(annots)
            && Lookup(page, "Subtype") == None && Lookup(page, "S") == None
  {
    var page := PageWith(annots);
    FoundAt(page, 0);
    FoundAt(page, 1);
    NotFound(page, "Subtype");
    NotFound(page, "S");
  }

  // ------------------------------------------------------------ the walk accepts every part

  predicate Benign(role: Role) {
    role != Some("Annots") && role != Some("Resources") && role != Some("AA") && role != Some("A")
  }

  /** A dictionary without `S` that is neither link nor page passes in any ordinary role. */
  lemma OrdinaryPasses(doc: Doc, fields: seq<Entry>, role: Role, flags: Flags, policy: Policy)
    requires Benign(role) && !NameIs(fields, "Subtype", "Link") && Lookup(fields, "S") == None && PageOk(fields)
    ensures DictPasses(doc, fields, role, flags, policy)
  {
  }

  predicate IsLeaf(value: Obj) { value.Scalar? || value.Name? || value.Text? }

  lemma LeafPlain(doc: Doc, policy: Policy, value: Obj, role: Role, depth: nat, flags: Flags)
    requires depth <= MAX_DEPTH && IsLeaf(value)
    ensures Plain(doc, policy, value, role, depth, flags)
  {
  }

  lemma DictPlain(doc: Doc, policy: Policy, fields: seq<Entry>, role: Role, depth: nat, flags: Flags)
    requires depth <= MAX_DEPTH && DictPasses(doc, fields, role, flags, policy)
    requires PlainChildren(doc, policy, fields, depth, flags, false)
    ensures Plain(doc, policy, Dict(fields), role, depth, flags)
  {
  }

  lemma ObjectPlain(doc: Doc, policy: Policy, n: nat, fields: seq<Entry>, role: Role, depth: nat, flags: Flags)
    requires depth <= MAX_DEPTH && Get(doc, n) == Some(Dict(fields)) && DictPasses(doc, fields, role, flags, policy)
    requires PlainChildren(doc, policy, fields, depth, flags, n in policy.pages)
    ensures Plain(doc, policy, Ref(n), role, depth, flags)
  {
  }

  lemma ObjectArray(doc: Doc, policy: Policy, n: nat, item: Obj, role: Role, depth: nat, flags: Flags)
    requires depth < MAX_DEPTH && Get(doc, n) == Some(Arr([item])) && Plain(doc, policy, item, role, depth + 1, flags)
    ensures Plain(doc, policy, Ref(n), role, depth, flags)
  {
  }

  lemma ArrayOfOne(doc: Doc, policy: Policy, item: Obj, role: Role, depth: nat, flags: Flags)
    requires depth < MAX_DEPTH && Plain(doc, policy, item, role, depth + 1, flags)
    ensures Plain(doc, policy, Arr([item]), role, depth, flags)
  {
  }

  ghost predicate ChildPlain(doc: Doc, policy: Policy, fields: seq<Entry>, k: nat, depth: nat, flags: Flags, onPage: bool)
    requires k < |fields|
  {
    Plain(doc, policy, fields[k].value, Some(fields[k].key), depth + 1, ChildFlags(fields, fields[k].key, flags, onPage))
  }

  lemma AllButOneLeaf(doc: Doc, policy: Policy, fields: seq<Entry>, k: nat, depth: nat, flags: Flags, onPage: bool)
    requires depth < MAX_DEPTH && k < |fields| && forall i :: 0 <= i < |fields| && i != k ==> IsLeaf(fields[i].value)
    requires ChildPlain(doc, policy, fields, k, depth, flags, onPage)
    ensures PlainChildren(doc, policy, fields, depth, flags, onPage)
  {
    forall i | 0 <= i < |fields| ensures ChildPlain(doc, policy, fields, i, depth, flags, onPage) {
      if i != k {
        LeafPlain(doc, policy, fields[i].value, Some(fields[i].key), depth + 1,
                  ChildFlags(fields, fields[i].key, flags, onPage));
      }
    }
  }

  /** The action passes where its URI is deferred, or is one the rules accept. */
  lemma ActionPlain(doc: Doc, policy: Policy, depth: nat, flags: Flags)
    requires depth < MAX_DEPTH && (flags.inLinkAction || (flags.actionOfAnnot && !policy.refused(LINK)))
    ensures Plain(doc, policy, Dict(ACTION), Some("A"), depth, flags)
  {
    ActionLookups();
    LeafPlain(doc, policy, Name("URI"), Some("S"), depth + 1, ChildFlags(ACTION, "S", flags, false));
    AllButOneLeaf(doc, policy, ACTION, 0, depth, flags, false);
    DictPlain(doc, policy, ACTION, Some("A"), depth, flags);
  }

  /** Where the page's `/Annots` stands: its flags say whether the page is in the tree. */
  ghost predicate AnnotsPlain(doc: Doc, policy: Policy, annots: Obj) {
    forall depth: nat :: depth <= MAX_DEPTH - 3 ==>
      Plain(doc, policy, annots, Some("Annots"), depth, Flags(false, 3 in policy.pages, false))
  }

  lemma PagePasses(doc: Doc, annots: Obj, role: Role, flags: Flags, policy: Policy)
    requires Benign(role)
    ensures DictPasses(doc, PageWith(annots), role, flags, policy)
  {
    PageKeys(annots);
    PageLookups(annots);
    OrdinaryPasses(doc, PageWith(annots), role, flags, policy);
  }

  lemma PageChildren(doc: Doc, policy: Policy, annots: Obj, depth: nat, flags: Flags)
    requires AnnotsPlain(doc, policy, annots) && depth <= MAX_DEPTH - 4
    ensures PlainChildren(doc, policy, PageWith(annots), depth, flags, 3 in policy.pages)
  {
    PageLookups(annots);
    var page := PageWith(annots);
    assert ChildFlags(page, page[1].key, flags, 3 in policy.pages) == Flags(false, 3 in policy.pages, false);
    assert ChildPlain(doc, policy, page, 1, depth, flags, 3 in policy.pages);
    AllButOneLeaf(doc, policy, page, 1, depth, flags, 3 in policy.pages);
  }

  lemma PagePlain(doc: Doc, policy: Policy, annots: Obj, role: Role, depth: nat, flags: Flags)
    requires Get(doc, 3) == Some(Dict(PageWith(annots))) && AnnotsPlain(doc, policy, annots)
    requires Benign(role) && depth <= MAX_DEPTH - 4
    ensures Plain(doc, policy, Ref(3), role, depth, flags)
  {
    PagePasses(doc, annots, role, flags, policy);
    PageChildren(doc, policy, annots, depth, flags);
    ObjectPlain(doc, policy, 3, PageWith(annots), role, depth, flags);
  }

  /** What is used of the document. */
  ghost predicate Framed(doc: Doc, annots: Obj) {
    && doc.trailer == TRAILER && Get(doc, 1) == Some(Dict(CATALOG)) && Get(doc, 2) == Some(Dict(TREE))
    && Get(doc, 3) == Some(Dict(PageWith(annots)))
  }

  lemma TreePasses(doc: Doc, role: Role, flags: Flags, policy: Policy)
    requires Benign(role)
    ensures DictPasses(doc, TREE, role, flags, policy)
  {
    FoundAt(TREE, 0);
    NotFound(TREE, "Subtype");
    NotFound(TREE, "S");
    OrdinaryPasses(doc, TREE, role, flags, policy);
  }

  lemma KidsPlain(doc: Doc, policy: Policy, annots: Obj, depth: nat, flags: Flags)
    requires Get(doc, 3) == Some(Dict(PageWith(annots))) && AnnotsPlain(doc, policy, annots) && depth <= MAX_DEPTH - 5
    ensures Plain(doc, policy, Arr([Ref(3)]), Some("Kids"), depth, flags)
  {
    PagePlain(doc, policy, annots, Some("Kids"), depth + 1, flags);
    ArrayOfOne(doc, policy, Ref(3), Some("Kids"), depth, flags);
  }

  lemma TreePlain(doc: Doc, policy: Policy, annots: Obj, role: Role, depth: nat, flags: Flags)
    requires Get(doc, 2) == Some(Dict(TREE)) && Get(doc, 3) == Some(Dict(PageWith(annots)))
    requires AnnotsPlain(doc, policy, annots) && Benign(role) && depth <= MAX_DEPTH - 6
    ensures Plain(doc, policy, Ref(2), role, depth, flags)
  {
    TreePasses(doc, role, flags, policy);
    KidsPlain(doc, policy, annots, depth + 1, ChildFlags(TREE, "Kids", flags, 2 in policy.pages));
    AllButOneLeaf(doc, policy, TREE, 1, depth, flags, 2 in policy.pages);
    ObjectPlain(doc, policy, 2, TREE, role, depth, flags);
  }

  lemma CatalogPasses(doc: Doc, role: Role, flags: Flags, policy: Policy)
    requires Benign(role)
    ensures DictPasses(doc, CATALOG, role, flags, policy)
  {
    FoundAt(CATALOG, 0);
    NotFound(CATALOG, "Subtype");
    NotFound(CATALOG, "S");
    OrdinaryPasses(doc, CATALOG, role, flags, policy);
  }

  lemma CatalogPlain(doc: Doc, policy: Policy, annots: Obj, role: Role, depth: nat, flags: Flags)
    requires Get(doc, 1) == Some(Dict(CATALOG)) && Get(doc, 2) == Some(Dict(TREE))
    requires Get(doc, 3) == Some(Dict(PageWith(annots))) && AnnotsPlain(doc, policy, annots)
    requires Benign(role) && depth <= MAX_DEPTH - 8
    ensures Plain(doc, policy, Ref(1), role, depth, flags)
  {
    CatalogPasses(doc, role, flags, policy);
    TreePlain(doc, policy, annots, Some("Pages"), depth + 1, ChildFlags(CATALOG, "Pages", flags, 1 in policy.pages));
    AllButOneLeaf(doc, policy, CATALOG, 1, depth, flags, 1 in policy.pages);
    ObjectPlain(doc, policy, 1, CATALOG, role, depth, flags);
  }

  lemma TrailerPlain(doc: Doc, policy: Policy, annots: Obj)
    requires Framed(doc, annots) && AnnotsPlain(doc, policy, annots)
    ensures Plain(doc, policy, Dict(TRAILER), None, 0, NO_FLAGS)
  {
    NotFound(TRAILER, "Type");
    NotFound(TRAILER, "Subtype");
    NotFound(TRAILER, "S");
    OrdinaryPasses(doc, TRAILER, None, NO_FLAGS, policy);
    CatalogPlain(doc, policy, annots, Some("Root"), 1, ChildFlags(TRAILER, "Root", NO_FLAGS, false));
    DictPlain(doc, policy, TRAILER, None, 0, NO_FLAGS);
  }

  /** The objects up to the page. */
  lemma FramePlain(doc: Doc, policy: Policy, annots: Obj, n: nat)
    requires Framed(doc, annots) && AnnotsPlain(doc, policy, annots) && 1 <= n <= 3
    ensures Plain(doc, policy, Ref(n), None, 0, NO_FLAGS)
  {
    if n == 1 {
      CatalogPlain(doc, policy, annots, None, 0, NO_FLAGS);
    } else if n == 2 {
      TreePlain(doc, policy, annots, None, 0, NO_FLAGS);
    } else {
      PagePlain(doc, policy, annots, None, 0, NO_FLAGS);
    }
  }

  // ------------------------------------------------------------ the page tree

  lemma CatalogIsOk(doc: Doc)
    requires doc.trailer == TRAILER && Get(doc, 1) == Some(Dict(CATALOG))
    ensures CatalogOk(doc) && LookupOr(Deref(doc, LookupOr(doc.trailer, "Root")).value.entries, "Pages") == Ref(2)
  {
    FoundAt(TRAILER, 0);
    FoundAt(CATALOG, 1);
    assert CATALOG[0].key == "Type" && CATALOG[1].key == "Pages";
    assert Keys(CATALOG) == CATALOG_KEYS;
    assert Deref(doc, Ref(1)) == Some(Dict(CATALOG));
  }

  lemma OnePage(doc: Doc, annots: Obj)
    requires Framed(doc, annots)
    ensures CatalogOk(doc) && RootPages(doc) == Some(PageList([PageWith(annots)], {3}))
  {
    var page := PageWith(annots);
    CatalogIsOk(doc);
    FoundAt(TREE, 0);
    FoundAt(TREE, 1);
    PageLookups(annots);
    assert Deref(doc, Ref(2)) == Some(Dict(TREE));
    assert Deref(doc, Ref(3)) == Some(Dict(page));
    assert Pages(doc, Ref(3), {2}, 1) == Some(PageList([page], {3}));
    assert [Ref(3)][1..] == [];
    assert PagesOf(doc, [], {2}, 0) == Some(PageList([], {}));
    assert [page] + [] == [page] && {3} + {} == {3};
    assert PagesOf(doc, [Ref(3)], {2}, 0) == Some(PageList([page], {3}));
    assert {} + {2} == {2};
  }
}

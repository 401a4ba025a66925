/**
 A document that passes the object walk and whose one extracted link is no `/Link`:
 `/Annots` is two references away, so the walk never sees the annotation under that key.
 */
module PdfFarAnnot {
  import opened Options
  import opened PdfGraph
  import opened PdfLinks
  import opened PdfSmallDoc

  const PAGE := PageWith(Ref(4))
  const WIDGET := AnnotOf("Widget")

  const DOC := Doc(TRAILER, [1, 2, 3, 4, 5, 6],
    map[1 := Dict(CATALOG), 2 := Dict(TREE), 3 := Dict(PAGE), 4 := Ref(5), 5 := Arr([Ref(6)]), 6 := Dict(WIDGET)])

  ghost predicate Holds(doc: Doc) {
    && Framed(doc, Ref(4)) && doc.numbers == [1, 2, 3, 4, 5, 6]
    && Get(doc, 4) == Some(Ref(5)) && Get(doc, 5) == Some(Arr([Ref(6)])) && Get(doc, 6) == Some(Dict(WIDGET))
  }

  lemma DocHolds(doc: Doc)
    requires doc == DOC
    ensures Holds(doc)
  {
    assert doc.numbers[0] == 1 && doc.numbers[1] == 2 && doc.numbers[2] == 3
        && doc.numbers[3] == 4 && doc.numbers[4] == 5 && doc.numbers[5] == 6;
  }

  /** The walk stops at the second reference, whatever lies behind it. */
  lemma FarPlain(doc: Doc, policy: Policy, n: nat, role: Role, depth: nat, flags: Flags)
    requires depth <= MAX_DEPTH && Get(doc, n).Some? && Get(doc, n).value.Ref?
    ensures Plain(doc, policy, Ref(n), role, depth, flags)
  {
  }

  lemma FarAnnotsPlain(doc: Doc, policy: Policy)
    requires Get(doc, 4) == Some(Ref(5))
    ensures AnnotsPlain(doc, policy, Ref(4))
  {
    forall depth: nat | depth <= MAX_DEPTH - 3
      ensures Plain(doc, policy, Ref(4), Some("Annots"), depth, Flags(false, 3 in policy.pages, false))
    {
      FarPlain(doc, policy, 4, Some("Annots"), depth, Flags(false, 3 in policy.pages, false));
    }
  }

  lemma WidgetPlain(doc: Doc, policy: Policy, depth: nat)
    requires Get(doc, 6) == Some(Dict(WIDGET)) && !policy.refused(LINK) && depth <= MAX_DEPTH - 2
    ensures Plain(doc, policy, Ref(6), None, depth, NO_FLAGS)
  {
    AnnotLookups("Widget");
    OrdinaryPasses(doc, WIDGET, None, NO_FLAGS, policy);
    ActionPlain(doc, policy, depth + 1, ChildFlags(WIDGET, "A", NO_FLAGS, 6 in policy.pages));
    AllButOneLeaf(doc, policy, WIDGET, 2, depth, NO_FLAGS, 6 in policy.pages);
    ObjectPlain(doc, policy, 6, WIDGET, None, depth, NO_FLAGS);
  }

  ghost predicate WidgetAlwaysPlain(doc: Doc, policy: Policy) {
    forall depth: nat :: depth <= MAX_DEPTH - 2 ==> Plain(doc, policy, Ref(6), None, depth, NO_FLAGS)
  }

  /** The objects behind the page. */
  lemma BackPlain(doc: Doc, policy: Policy, n: nat)
    requires Get(doc, 4) == Some(Ref(5)) && Get(doc, 5) == Some(Arr([Ref(6)])) && WidgetAlwaysPlain(doc, policy)
    requires 4 <= n <= 6
    ensures Plain(doc, policy, Ref(n), None, 0, NO_FLAGS)
  {
    if n == 4 {
      FarPlain(doc, policy, 4, None, 0, NO_FLAGS);
    } else if n == 5 {
      ObjectArray(doc, policy, 5, Ref(6), None, 0, NO_FLAGS);
    }
  }

  lemma DocPlain(doc: Doc, policy: Policy)
    requires Holds(doc) && !policy.refused(LINK)
    ensures PlainDoc(doc, policy)
  {
    FarAnnotsPlain(doc, policy);
    TrailerPlain(doc, policy, Ref(4));
    TablePlain(doc, policy);
  }

  lemma TablePlain(doc: Doc, policy: Policy)
    requires Holds(doc) && !policy.refused(LINK)
    ensures PlainTable(doc, policy)
  {
    FarAnnotsPlain(doc, policy);
    forall depth: nat | depth <= MAX_DEPTH - 2 ensures Plain(doc, policy, Ref(6), None, depth, NO_FLAGS) {
      WidgetPlain(doc, policy, depth);
    }
    forall i | 0 <= i < |doc.numbers| ensures Plain(doc, policy, Ref(doc.numbers[i]), None, 0, NO_FLAGS) {
      if i < 3 { FramePlain(doc, policy, Ref(4), i + 1); } else { BackPlain(doc, policy, i + 1); }
    }
  }

  // ------------------------------------------------------------ and the extractor returns its link

  lemma OneLink(doc: Doc)
    ensures UriAction(doc, WIDGET) == Some(LINK)
  {
    AnnotKeys("Widget");
    AnnotLookups("Widget");
    ActionLookups();
    assert ACTION[0].key == "S" && ACTION[1].key == "URI";
    assert Keys(ACTION) == ACTION_BARE;
    assert "Type" in ACTION_WITH_TYPE && "Type" !in ACTION_BARE;
  }

  lemma PageHasIt(doc: Doc)
    requires Holds(doc)
    ensures PageItems(doc, PAGE) == Some([Ref(6)]) && Deref(doc, Ref(6)) == Some(Dict(WIDGET))
  {
    PageLookups(Ref(4));
    assert Deref(doc, Ref(5), 7) == Some(Arr([Ref(6)]));
  }

  lemma AllLinks(doc: Doc)
    requires Holds(doc)
    ensures AllUris(doc, [PAGE]) == Some([LINK])
  {
    PageHasIt(doc);
    OneLink(doc);
    assert [Ref(6)][..0] == [] && [PAGE][..0] == [];
    assert ItemUris(doc, []) == Some([]) && AllUris(doc, []) == Some([]);
    assert [] + [LINK] == [LINK];
    assert ItemUris(doc, [Ref(6)]) == Some([LINK]);
  }

  lemma IsExtracted(doc: Doc)
    requires Holds(doc) && CatalogOk(doc) && RootPages(doc) == Some(PageList([PAGE], {3}))
    ensures Extracted(doc, WIDGET)
  {
    PageHasIt(doc);
    assert [Ref(6)][0] == Ref(6);
    assert ExtractedAt(doc, PAGE, [Ref(6)], 0, WIDGET);
  }

  /** "Every extracted annotation passed the annotation check" is false: the widget is extracted. */
  lemma WidgetIsExtracted(doc: Doc, refused: string -> bool)
    requires doc == DOC && !refused(LINK)
    ensures CatalogOk(doc) && RootPages(doc).Some? && PlainDoc(doc, PolicyOf(doc, refused))
    ensures AllUris(doc, RootPages(doc).value.pages) == Some([LINK])
    ensures Extracted(doc, WIDGET) && !RoleOk(WIDGET, Some("Annots"))
  {
    DocHolds(doc);
    OnePage(doc, Ref(4));
    DocPlain(doc, PolicyOf(doc, refused));
    AllLinks(doc);
    IsExtracted(doc);
    AnnotLookups("Widget");
  }
}

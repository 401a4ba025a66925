/**
 A document that passes the object walk with a URI that is neither checked nor returned:
 the page's `/Annots` is the link annotation itself, which the walk leaves to the extractor
 and the extractor, looking for an array, passes over.
 */
module PdfBareLink {
  import opened Options
  import opened PdfGraph
  import opened PdfLinks
  import opened PdfSmallDoc

  const ANNOT := AnnotOf("Link")
  const PAGE := PageWith(Dict(ANNOT))

  const DOC := Doc(TRAILER, [1, 2, 3], map[1 := Dict(CATALOG), 2 := Dict(TREE), 3 := Dict(PAGE)])

  lemma DocHolds(doc: Doc)
    requires doc == DOC
    ensures Framed(doc, Dict(ANNOT)) && doc.numbers == [1, 2, 3]
  {
    assert doc.numbers[0] == 1 && doc.numbers[1] == 2 && doc.numbers[2] == 3;
  }

  lemma LinkPasses(doc: Doc, policy: Policy, flags: Flags)
    ensures DictPasses(doc, ANNOT, Some("Annots"), flags, policy)
  {
    AnnotKeys("Link");
    AnnotLookups("Link");
  }

  /** On a page of the tree the link passes whatever its URI. */
  lemma LinkPlain(doc: Doc, policy: Policy, depth: nat)
    requires 3 in policy.pages && depth <= MAX_DEPTH - 3
    ensures Plain(doc, policy, Dict(ANNOT), Some("Annots"), depth, Flags(false, true, false))
  {
    LinkPasses(doc, policy, Flags(false, true, false));
    LinkChildren(doc, policy, depth);
    DictPlain(doc, policy, ANNOT, Some("Annots"), depth, Flags(false, true, false));
  }

  lemma LinkChildren(doc: Doc, policy: Policy, depth: nat)
    requires depth <= MAX_DEPTH - 3
    ensures PlainChildren(doc, policy, ANNOT, depth, Flags(false, true, false), false)
  {
    var flags := Flags(false, true, false);
    AnnotLookups("Link");
    ActionPlain(doc, policy, depth + 1, ChildFlags(ANNOT, "A", flags, false));
    AllButOneLeaf(doc, policy, ANNOT, 2, depth, flags, false);
  }

  lemma DocPlain(doc: Doc, policy: Policy)
    requires Framed(doc, Dict(ANNOT)) && doc.numbers == [1, 2, 3] && policy.pages == {3}
    ensures PlainDoc(doc, policy)
  {
    forall depth: nat | depth <= MAX_DEPTH - 3
      ensures Plain(doc, policy, Dict(ANNOT), Some("Annots"), depth, Flags(false, 3 in policy.pages, false))
    {
      LinkPlain(doc, policy, depth);
    }
    TrailerPlain(doc, policy, Dict(ANNOT));
    forall i | 0 <= i < |doc.numbers| ensures Plain(doc, policy, Ref(doc.numbers[i]), None, 0, NO_FLAGS) {
      FramePlain(doc, policy, Dict(ANNOT), doc.numbers[i]);
    }
  }

  lemma NothingReturned(doc: Doc)
    ensures AllUris(doc, [PAGE]) == Some([])
  {
    PageLookups(Dict(ANNOT));
    assert PageItems(doc, PAGE) == Some([]);
    assert ItemUris(doc, []) == Some([]);
    assert PageUris(doc, PAGE) == Some([]);
    assert [PAGE][..0] == [] && AllUris(doc, []) == Some([]);
    assert AllUris(doc, [PAGE]).value == [];
  }

  lemma ActionIsBare(doc: Doc, policy: Policy)
    requires Framed(doc, Dict(ANNOT)) && 3 in policy.pages
    ensures BareAction(doc, policy, ACTION) && UriOf(doc, ACTION) == Some(LINK)
  {
    PageLookups(Dict(ANNOT));
    AnnotLookups("Link");
    ActionLookups();
    assert BareLink(doc, policy, 3, PAGE, ANNOT);
    assert Names(doc, LookupOr(ANNOT, "A"), Dict(ACTION), 0);
  }

  /** "Every action URI is checked or returned" is false: this refused one is neither. */
  lemma RefusedUriPassesOver(doc: Doc, refused: string -> bool)
    requires doc == DOC && refused(LINK)
    ensures CatalogOk(doc) && RootPages(doc).Some? && PlainDoc(doc, PolicyOf(doc, refused))
    ensures AllUris(doc, RootPages(doc).value.pages) == Some([])
    ensures InDoc(doc, Dict(ACTION)) && !Safe(doc, ACTION, refused, [])
    ensures !BareSafe(doc, PolicyOf(doc, refused), [])
  {
    DocHolds(doc);
    OnePage(doc, Dict(ANNOT));
    DocPlain(doc, PolicyOf(doc, refused));
    NothingReturned(doc);
    ActionIsBare(doc, PolicyOf(doc, refused));
    BareInDoc(doc, PolicyOf(doc, refused), ACTION);
  }
}

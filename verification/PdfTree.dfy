/**
 When the page tree can be walked: `_pages` carries the references above it and a
 depth, and refuses exactly the nodes below which there is no tree of few enough levels.
 */
module PdfTree {
  import opened Options
  import opened PdfGraph
  import opened PdfLinks
  import opened PdfRules

  /** Below `node` hangs a finite tree of at most `levels` levels with a page at every leaf. */
  ghost predicate IsTree(doc: Doc, node: Obj, levels: nat)
    decreases levels, 1
  {
    levels > 0 && exists found :: Resolves(doc, node, found) && (IsPage(found) || Branches(doc, found, levels - 1))
  }

  /** An array of nodes with a tree below each. */
  ghost predicate Branches(doc: Doc, found: Obj, levels: nat)
    decreases levels, 2
  {
    exists items :: IsNode(doc, found, items) && forall i :: 0 <= i < |items| ==> IsTree(doc, items[i], levels)
  }

  ghost predicate IsPage(found: Obj) { found.Dict? && Reads(found.entries, "Type", Name("Page")) }

  ghost predicate IsNode(doc: Doc, found: Obj, items: seq<Obj>) {
    found.Dict? && exists kids :: Reads(found.entries, "Kids", kids) && Resolves(doc, kids, Arr(items))
  }

  ghost predicate AllTrees(doc: Doc, nodes: seq<Obj>, levels: nat) {
    forall i :: 0 <= i < |nodes| ==> IsTree(doc, nodes[i], levels)
  }

  lemma {:induction false} MoreLevels(doc: Doc, node: Obj, few: nat, many: nat)
    requires IsTree(doc, node, few) && few <= many
    ensures IsTree(doc, node, many)
    decreases few, 0
  {
    var found :| Resolves(doc, node, found) && (IsPage(found) || Branches(doc, found, few - 1));
    if !IsPage(found) { MoreBranches(doc, found, few - 1, many - 1); }
  }

  lemma {:induction false} MoreBranches(doc: Doc, found: Obj, few: nat, many: nat)
    requires Branches(doc, found, few) && few <= many
    ensures Branches(doc, found, many)
    decreases few, 1
  {
    var items :| IsNode(doc, found, items) && forall i :: 0 <= i < |items| ==> IsTree(doc, items[i], few);
    forall i | 0 <= i < |items| ensures IsTree(doc, items[i], many) { MoreLevels(doc, items[i], few, many); }
  }

  lemma PageIs(doc: Doc, node: Obj, found: Obj)
    requires Deref(doc, node) == Some(found)
    ensures Resolves(doc, node, found) && (NameIs(Fields(found), "Type", "Page") <==> IsPage(found))
    ensures forall other :: Resolves(doc, node, other) ==> other == found
  {
    DerefMeans(doc, node, found);
    LookupReads(Fields(found), "Type", Name("Page"));
    forall other | Resolves(doc, node, other) ensures other == found { DerefMeans(doc, node, other); }
  }

  lemma NodeIs(doc: Doc, found: Obj, items: seq<Obj>)
    ensures Deref(doc, LookupOr(Fields(found), "Kids")) == Some(Arr(items)) <==> IsNode(doc, found, items)
  {
    var fields := Fields(found);
    var kids := LookupOr(fields, "Kids");
    DerefMeans(doc, kids, Arr(items));
    if Deref(doc, kids) == Some(Arr(items)) {
      LookupReads(fields, "Kids", kids);
      assert found.Dict?;
    }
    if IsNode(doc, found, items) {
      var other :| Reads(fields, "Kids", other) && Resolves(doc, other, Arr(items));
      LookupReads(fields, "Kids", other);
    }
  }

  // ------------------------------------------------------------ an accepted node is a tree

  lemma {:induction false} PagesAreATree(doc: Doc, node: Obj, path: set<nat>, depth: nat)
    requires Pages(doc, node, path, depth).Some?
    ensures depth <= 64 && IsTree(doc, node, 65 - depth)
    decreases MAX_DEPTH + 1 - depth, 0, 0
  {
    var found := Deref(doc, node).value;
    PageIs(doc, node, found);
    if !IsPage(found) {
      var items := Deref(doc, LookupOr(Fields(found), "Kids")).value.items;
      NodeIs(doc, found, items);
      KidsAreTrees(doc, items, if node.Ref? then path + {node.number} else path, depth);
      assert Branches(doc, found, 64 - depth);
    }
  }

  lemma {:induction false} KidsAreTrees(doc: Doc, kids: seq<Obj>, path: set<nat>, depth: nat)
    requires depth <= MAX_DEPTH && PagesOf(doc, kids, path, depth).Some?
    ensures AllTrees(doc, kids, 64 - depth)
    decreases MAX_DEPTH - depth, 1, |kids|
  {
    if kids != [] {
      PagesAreATree(doc, kids[0], path, depth + 1);
      KidsAreTrees(doc, kids[1..], path, depth);
      forall i | 0 <= i < |kids| ensures IsTree(doc, kids[i], 64 - depth) {
        if i > 0 { assert kids[i] == kids[1..][i - 1]; }
      }
    }
  }

  // ------------------------------------------------------------ a tree is accepted

  /** Nothing on the way down has a tree this small: so no node below can be one of them. */
  ghost predicate AboveAll(doc: Doc, path: set<nat>, levels: nat) {
    forall k <- path :: !IsTree(doc, Ref(k), levels)
  }

  lemma AboveFewer(doc: Doc, path: set<nat>, few: nat, many: nat)
    requires few <= many && AboveAll(doc, path, many)
    ensures AboveAll(doc, path, few)
  {
    forall k | k in path ensures !IsTree(doc, Ref(k), few) {
      if IsTree(doc, Ref(k), few) { MoreLevels(doc, Ref(k), few, many); }
    }
  }

  lemma {:induction false} TreeHasPages(doc: Doc, node: Obj, path: set<nat>, depth: nat, levels: nat)
    requires IsTree(doc, node, levels) && levels + depth <= 65 && AboveAll(doc, path, levels)
    ensures Pages(doc, node, path, depth).Some?
    decreases levels, 1, 0
  {
    if IsTree(doc, node, levels - 1) {
      AboveFewer(doc, path, levels - 1, levels);
      TreeHasPages(doc, node, path, depth, levels - 1);
    } else {
      SmallestTree(doc, node, path, depth, levels);
    }
  }

  lemma {:induction false} SmallestTree(doc: Doc, node: Obj, path: set<nat>, depth: nat, levels: nat)
    requires IsTree(doc, node, levels) && !IsTree(doc, node, levels - 1)
    requires levels + depth <= 65 && AboveAll(doc, path, levels)
    ensures Pages(doc, node, path, depth).Some?
    decreases levels, 0, 0
  {
    var found :| Resolves(doc, node, found) && (IsPage(found) || Branches(doc, found, levels - 1));
    DerefMeans(doc, node, found);
    PageIs(doc, node, found);
    if !IsPage(found) {
      var items :| IsNode(doc, found, items) && forall i :: 0 <= i < |items| ==> IsTree(doc, items[i], levels - 1);
      NodeIs(doc, found, items);
      AboveFewer(doc, path, levels - 1, levels);
      KidsHavePages(doc, items, if node.Ref? then path + {node.number} else path, depth, levels - 1);
    }
  }

  lemma {:induction false} KidsHavePages(doc: Doc, kids: seq<Obj>, path: set<nat>, depth: nat, levels: nat)
    requires AllTrees(doc, kids, levels) && levels + depth <= 64 && AboveAll(doc, path, levels)
    ensures PagesOf(doc, kids, path, depth).Some?
    decreases levels, 2, |kids|
  {
    if kids != [] {
      TreeHasPages(doc, kids[0], path, depth + 1, levels);
      assert forall i :: 0 <= i < |kids[1..]| ==> kids[1..][i] == kids[i + 1];
      KidsHavePages(doc, kids[1..], path, depth, levels);
    }
  }

  /** The walk of the page tree returns exactly when it is a tree of at most 65 levels, cycles and deeper chains refused. */
  lemma PageTreeIsWalked(doc: Doc, node: Obj, depth: nat)
    requires depth <= 65
    ensures Pages(doc, node, {}, depth).Some? <==> IsTree(doc, node, 65 - depth)
  {
    if Pages(doc, node, {}, depth).Some? { PagesAreATree(doc, node, {}, depth); }
    if IsTree(doc, node, 65 - depth) { TreeHasPages(doc, node, {}, depth, 65 - depth); }
  }

  /** So the document has pages exactly when its catalog leads to such a tree. */
  lemma DocumentHasPages(doc: Doc)
    requires CatalogOk(doc)
    ensures RootPages(doc).Some? <==>
            exists root: Obj, catalog: seq<Entry>, node: Obj :: PagesNode(doc, root, catalog, node) && IsTree(doc, node, 65)
  {
    var root := LookupOr(doc.trailer, "Root");
    var catalog := Deref(doc, root).value.entries;
    var node := LookupOr(catalog, "Pages");
    PageTreeIsWalked(doc, node, 0);
    NodeFound(doc, root, catalog, node);
    forall r: Obj, c: seq<Entry>, n: Obj | PagesNode(doc, r, c, n) ensures n == node {
      LookupReads(doc.trailer, "Root", r);
      DerefMeans(doc, r, Dict(c));
      LookupReads(c, "Pages", n);
    }
  }

  ghost predicate PagesNode(doc: Doc, root: Obj, catalog: seq<Entry>, node: Obj) {
    Reads(doc.trailer, "Root", root) && Resolves(doc, root, Dict(catalog)) && Reads(catalog, "Pages", node)
  }

  lemma NodeFound(doc: Doc, root: Obj, catalog: seq<Entry>, node: Obj)
    requires CatalogOk(doc) && root == LookupOr(doc.trailer, "Root")
    requires Deref(doc, root) == Some(Dict(catalog)) && node == LookupOr(catalog, "Pages")
    ensures PagesNode(doc, root, catalog, node)
  {
    LookupReads(doc.trailer, "Root", root);
    DerefMeans(doc, root, Dict(catalog));
    assert "Pages" in Keys(catalog);
    var i :| 0 <= i < |catalog| && catalog[i].key == "Pages";
    PresentKey(catalog, i);
    LookupReads(catalog, "Pages", node);
  }
}

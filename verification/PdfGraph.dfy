/**
 The gift-PDF object walk. `_refuse_graph` follows references with a seen set of
 (object, role) pairs; what it proves about the whole document is stated below
 without mentioning the walk.
 */
module PdfGraph {
  import opened Options

  datatype Obj =
    | Scalar
    | Name(name: string)
    | Text(text: string)
    | Ref(number: nat)
    | Arr(items: seq<Obj>)
    | Dict(entries: seq<Entry>)
    | Stream(fields: seq<Entry>)

  datatype Entry = Entry(key: string, value: Obj)

  /** `numbers` is the cross-reference table in order; an object that does not parse is missing from `objects`. */
  datatype Doc = Doc(trailer: seq<Entry>, numbers: seq<nat>, objects: map<nat, Obj>)

  type Role = Option<string>

  const MAX_DEPTH := 64
  const MAX_HOPS := 8

  const LINK_KEYS := {"Type", "Subtype", "Rect", "Border", "F", "A"}
  const CATALOG_KEYS := {"Pages", "Type"}
  const PAGE_KEYS := {"Contents", "MediaBox", "Parent", "Resources", "Tabs", "Type"}
  const RESOURCE_KEYS := {"ExtGState", "Font", "ProcSet"}

  function Get(doc: Doc, number: nat): Option<Obj> {
    if number in doc.numbers && number in doc.objects then Some(doc.objects[number]) else None
  }

  /** `deref`: at most eight hops, then the value must not be a reference. */
  function Deref(doc: Doc, value: Obj, hops: nat := MAX_HOPS): Option<Obj>
    decreases hops
  {
    if !value.Ref? then Some(value)
    else if hops == 0 then None
    else
      var next := Get(doc, value.number);
      if next.None? then None else Deref(doc, next.value, hops - 1)
  }

  function Keys(entries: seq<Entry>): set<string> {
    set i | 0 <= i < |entries| :: entries[i].key
  }

  function Lookup(entries: seq<Entry>, key: string): Option<Obj> {
    if entries == [] then None
    else if entries[0].key == key then Some(entries[0].value)
    else Lookup(entries[1..], key)
  }

  predicate NameIs(entries: seq<Entry>, key: string, expected: string) {
    Lookup(entries, key) == Some(Name(expected))
  }

  // ------------------------------------------------------------ the checks on one dictionary

  /** `_refuse_page`: a `/Page` has the generator's keys, with or without `Annots`. */
  predicate PageOk(fields: seq<Entry>) {
    NameIs(fields, "Type", "Page") ==> Keys(fields) == PAGE_KEYS || Keys(fields) == PAGE_KEYS + {"Annots"}
  }

  /** `/S`, when it is a name, is `URI`. */
  predicate ActionOk(fields: seq<Entry>) {
    var s := Lookup(fields, "S");
    s.Some? && s.value.Name? ==> s.value.name == "URI"
  }

  /** `_once`: one reference is resolved, a second stays a reference. */
  function Once(doc: Doc, value: Obj): Option<Obj> {
    if value.Ref? then Get(doc, value.number) else Some(value)
  }

  /** The delivery-link rules, and the object numbers of the pages in the page tree. */
  datatype Policy = Policy(refused: string -> bool, pages: set<nat>)

  /** The URI of an action passes the delivery-link rules. */
  predicate UriOk(doc: Doc, fields: seq<Entry>, policy: Policy) {
    var s := Lookup(fields, "S");
    var uri := Lookup(fields, "URI");
    if s.None? || !s.value.Name? || uri.None? then true
    else
      var once := Once(doc, uri.value);
      once.Some? && (once.value.Text? ==> !policy.refused(once.value.text))
  }

  /** The part of `_refuse_resolved_role` that depends on the role alone. */
  predicate RoleOk(fields: seq<Entry>, role: Role) {
    if role == Some("Annots") then Keys(fields) == LINK_KEYS && NameIs(fields, "Subtype", "Link")
    else if role == Some("Resources") then Keys(fields) == RESOURCE_KEYS
    else role != Some("AA") && !NameIs(fields, "Subtype", "Link")
  }

  datatype Flags = Flags(inLinkAction: bool, underPageAnnots: bool, actionOfAnnot: bool)

  const NO_FLAGS := Flags(false, false, false)

  predicate DictPasses(doc: Doc, fields: seq<Entry>, role: Role, flags: Flags, policy: Policy) {
    && RoleOk(fields, role)
    && (role == Some("A") ==> flags.inLinkAction || flags.actionOfAnnot)
    && PageOk(fields)
    && ActionOk(fields)
    && (!flags.inLinkAction ==> UriOk(doc, fields, policy))
  }

  function ChildFlags(fields: seq<Entry>, key: string, flags: Flags, onPage: bool): Flags {
    var annot := NameIs(fields, "Type", "Annot");
    Flags(flags.underPageAnnots && annot && NameIs(fields, "Subtype", "Link") && key == "A",
          onPage && NameIs(fields, "Type", "Page") && key == "Annots",
          annot && key == "A")
  }

  // ------------------------------------------------------------ what the walk establishes

  type Seen = set<(nat, Role)>

  /** The checks on one dictionary, with the URI of a page's own link action left to the extractor. */
  ghost predicate DictGood(doc: Doc, fields: seq<Entry>, role: Role, policy: Policy) {
    && RoleOk(fields, role) && PageOk(fields) && ActionOk(fields)
    && (UriOk(doc, fields, policy) || (role == Some("A") && UnderLink(doc, policy, Dict(fields))))
  }

  /** An action written inside a dictionary: that dictionary is an annotation. */
  predicate ActionsOwned(fields: seq<Entry>, n: nat)
    requires n <= |fields|
  {
    forall i :: 0 <= i < n ==> ActionOwned(fields, fields[i])
  }

  predicate ActionOwned(fields: seq<Entry>, entry: Entry) {
    entry.key == "A" && entry.value.Dict? ==> NameIs(fields, "Type", "Annot")
  }

  /** The walk's flags admit a dictionary in the role `A`. */
  predicate MayAct(value: Obj, role: Role, flags: Flags) {
    value.Dict? && role == Some("A") ==> flags.inLinkAction || flags.actionOfAnnot
  }

  lemma ChildMayAct(fields: seq<Entry>, entry: Entry, flags: Flags, onPage: bool)
    requires MayAct(entry.value, Some(entry.key), ChildFlags(fields, entry.key, flags, onPage))
    ensures ActionOwned(fields, entry)
  {
  }

  /** At most `room` levels below `v`, references not followed. */
  predicate Levels(v: Obj, room: int)
    decreases v, 0
  {
    && room >= 0
    && match v
       case Arr(items) => forall i :: 0 <= i < |items| ==> Levels(items[i], room - 1)
       case Dict(entries) => LevelsOf(entries, |entries|, room - 1)
       case Stream(fields) => room >= 1 && LevelsOf(fields, |fields|, room - 2)
       case _ => true
  }

  predicate LevelsOf(fields: seq<Entry>, n: nat, room: int)
    requires n <= |fields|
    decreases fields, 1
  {
    forall i :: 0 <= i < n ==> Levels(fields[i].value, room)
  }

  predicate LevelsTo(items: seq<Obj>, n: nat, room: int)
    requires n <= |items|
  {
    forall i :: 0 <= i < n ==> Levels(items[i], room)
  }

  lemma {:induction false} LevelsMore(v: Obj, room: int, more: int)
    requires Levels(v, room) && room <= more
    ensures Levels(v, more)
    decreases v, 0
  {
    match v
    case Arr(items) =>
      forall i | 0 <= i < |items| ensures Levels(items[i], more - 1) { LevelsMore(items[i], room - 1, more - 1); }
    case Dict(entries) => LevelsOfMore(entries, room - 1, more - 1);
    case Stream(fields) => LevelsOfMore(fields, room - 2, more - 2);
    case _ =>
  }

  lemma {:induction false} LevelsOfMore(fields: seq<Entry>, room: int, more: int)
    requires LevelsOf(fields, |fields|, room) && room <= more
    ensures LevelsOf(fields, |fields|, more)
    decreases fields, 1
  {
    forall i | 0 <= i < |fields| ensures Levels(fields[i].value, more) { LevelsMore(fields[i].value, room, more); }
  }

  /** Every dictionary inside `v` is good in its role, and every reference inside it has been followed in its role. */
  ghost predicate Good(doc: Doc, v: Obj, role: Role, seen: Seen, policy: Policy)
    decreases v, 0
  {
    match v
    case Ref(n) => (n, role) in seen
    case Arr(items) => forall i :: 0 <= i < |items| ==> Good(doc, items[i], role, seen, policy)
    case Dict(entries) => GoodFields(doc, entries, role, seen, policy)
    case Stream(fields) => GoodFields(doc, fields, role, seen, policy)
    case _ => true
  }

  ghost predicate GoodFields(doc: Doc, fields: seq<Entry>, role: Role, seen: Seen, policy: Policy)
    decreases fields, 1
  {
    && DictGood(doc, fields, role, policy) && ActionsOwned(fields, |fields|)
    && forall i :: 0 <= i < |fields| ==> Good(doc, fields[i].value, Some(fields[i].key), seen, policy)
  }

  /** A followed reference: its object exists, and is good and not too deep unless it is itself a reference. */
  ghost predicate Followed(doc: Doc, pair: (nat, Role), seen: Seen, policy: Policy) {
    var found := Get(doc, pair.0);
    found.Some? && (found.value.Ref? || (Good(doc, found.value, pair.1, seen, policy) && Levels(found.value, 64)))
  }

  ghost predicate NewFollowed(doc: Doc, before: Seen, after: Seen, policy: Policy) {
    before <= after && forall p :: p in after && p !in before ==> Followed(doc, p, after, policy)
  }

  lemma {:induction false} GoodGrows(doc: Doc, v: Obj, role: Role, small: Seen, big: Seen, policy: Policy)
    requires Good(doc, v, role, small, policy) && small <= big
    ensures Good(doc, v, role, big, policy)
    decreases v, 0
  {
    match v
    case Arr(items) =>
      forall i | 0 <= i < |items| ensures Good(doc, items[i], role, big, policy) {
        GoodGrows(doc, items[i], role, small, big, policy);
      }
    case Dict(entries) => FieldsGrow(doc, entries, role, small, big, policy);
    case Stream(fields) => FieldsGrow(doc, fields, role, small, big, policy);
    case _ =>
  }

  lemma {:induction false} FieldsGrow(doc: Doc, fields: seq<Entry>, role: Role, small: Seen, big: Seen, policy: Policy)
    requires GoodFields(doc, fields, role, small, policy) && small <= big
    ensures GoodFields(doc, fields, role, big, policy)
    decreases fields, 1
  {
    forall i | 0 <= i < |fields| ensures Good(doc, fields[i].value, Some(fields[i].key), big, policy) {
      GoodGrows(doc, fields[i].value, Some(fields[i].key), small, big, policy);
    }
  }

  lemma FollowedGrows(doc: Doc, before: Seen, middle: Seen, after: Seen, policy: Policy)
    requires NewFollowed(doc, before, middle, policy) && NewFollowed(doc, middle, after, policy)
    ensures NewFollowed(doc, before, after, policy)
  {
    forall p | p in after && p !in before ensures Followed(doc, p, after, policy) {
      if p in middle {
        var found := Get(doc, p.0).value;
        if !found.Ref? { GoodGrows(doc, found, p.1, middle, after, policy); }
      }
    }
  }

  lemma RefFollowed(doc: Doc, before: Seen, number: nat, role: Role, after: Seen, policy: Policy)
    requires NewFollowed(doc, before + {(number, role)}, after, policy)
    requires Get(doc, number).Some? && Good(doc, Get(doc, number).value, role, after, policy) && Levels(Get(doc, number).value, 64)
    ensures NewFollowed(doc, before, after, policy)
  {
    forall p | p in after && p !in before ensures Followed(doc, p, after, policy) {
      if p in before + {(number, role)} { assert p == (number, role); }
    }
  }

  ghost predicate GoodItems(doc: Doc, items: seq<Obj>, n: nat, role: Role, seen: Seen, policy: Policy)
    requires n <= |items|
  {
    forall j :: 0 <= j < n ==> Good(doc, items[j], role, seen, policy)
  }

  lemma ItemsGrow(doc: Doc, items: seq<Obj>, n: nat, role: Role, small: Seen, big: Seen, policy: Policy)
    requires n <= |items| && GoodItems(doc, items, n, role, small, policy) && small <= big
    ensures GoodItems(doc, items, n, role, big, policy)
  {
    forall j | 0 <= j < n ensures Good(doc, items[j], role, big, policy) {
      GoodGrows(doc, items[j], role, small, big, policy);
    }
  }

  ghost predicate GoodUpTo(doc: Doc, fields: seq<Entry>, n: nat, seen: Seen, policy: Policy)
    requires n <= |fields|
  {
    forall j :: 0 <= j < n ==> Good(doc, fields[j].value, Some(fields[j].key), seen, policy)
  }

  lemma UpToGrows(doc: Doc, fields: seq<Entry>, n: nat, small: Seen, big: Seen, policy: Policy)
    requires n <= |fields| && GoodUpTo(doc, fields, n, small, policy) && small <= big
    ensures GoodUpTo(doc, fields, n, big, policy)
  {
    forall j | 0 <= j < n ensures Good(doc, fields[j].value, Some(fields[j].key), big, policy) {
      GoodGrows(doc, fields[j].value, Some(fields[j].key), small, big, policy);
    }
  }

  // ------------------------------------------------------------ which role a value is visited in

  /**
   `v` names `inner`: it is `inner`, an array with an element that names it, a
   stream with that dictionary, or one reference to an object that names it. An object that is
   itself a reference names nothing: the walk stops there.
   */
  ghost predicate Names(doc: Doc, v: Obj, inner: Obj, n: nat)
    decreases n
  {
    || v == inner
    || (n > 0 &&
        match v
        case Arr(items) => exists i :: 0 <= i < |items| && Names(doc, items[i], inner, n - 1)
        case Ref(k) => Get(doc, k).Some? && !Get(doc, k).value.Ref? && Names(doc, Get(doc, k).value, inner, n - 1)
        case Stream(fields) => inner == Dict(fields)
        case _ => false)
  }

  /** The value of this key names `inner`, in a dictionary anywhere in the document. */
  ghost predicate KeyNames(doc: Doc, fields: seq<Entry>, i: nat, inner: Obj, n: nat) {
    InDoc(doc, Dict(fields)) && i < |fields| && Names(doc, fields[i].value, inner, n)
  }

  /** Some key of the document gives `value` this role. Objects nothing refers to have none. */
  ghost predicate Sourced(doc: Doc, value: Obj, role: Role) {
    role.None? || exists fields: seq<Entry>, i: nat, n: nat :: KeyNames(doc, fields, i, value, n) && fields[i].key == role.value
  }

  ghost predicate Arrives(doc: Doc, value: Obj, role: Role) {
    Sourced(doc, value, role) && (value.Ref? || InDoc(doc, value))
  }

  ghost predicate NewTraced(doc: Doc, before: Seen, after: Seen) {
    before <= after && forall p :: p in after && p !in before ==> Sourced(doc, Ref(p.0), p.1)
  }

  lemma TracedGrows(doc: Doc, before: Seen, middle: Seen, after: Seen)
    requires NewTraced(doc, before, middle) && NewTraced(doc, middle, after)
    ensures NewTraced(doc, before, after)
  {
  }

  lemma {:induction false} NamesWider(doc: Doc, v: Obj, inner: Obj, n: nat, m: nat)
    requires Names(doc, v, inner, n) && n <= m
    ensures Names(doc, v, inner, m)
    decreases n
  {
    if v != inner {
      match v
      case Arr(items) =>
        var i :| 0 <= i < |items| && Names(doc, items[i], inner, n - 1);
        NamesWider(doc, items[i], inner, n - 1, m - 1);
      case Ref(k) => NamesWider(doc, Get(doc, k).value, inner, n - 1, m - 1);
      case _ =>
    }
  }

  lemma {:induction false} NamesThrough(doc: Doc, v: Obj, middle: Obj, inner: Obj, n: nat, m: nat)
    requires Names(doc, v, middle, n) && Names(doc, middle, inner, m) && !middle.Dict?
    ensures Names(doc, v, inner, n + m)
    decreases n
  {
    if v == middle {
      NamesWider(doc, v, inner, m, n + m);
    } else {
      match v
      case Arr(items) =>
        var i :| 0 <= i < |items| && Names(doc, items[i], middle, n - 1);
        NamesThrough(doc, items[i], middle, inner, n - 1, m);
      case Ref(k) => NamesThrough(doc, Get(doc, k).value, middle, inner, n - 1, m);
      case _ =>
    }
  }

  /** A role passes from an array, a stream or a reference to what it names. */
  lemma SourcedThrough(doc: Doc, middle: Obj, inner: Obj, role: Role, m: nat)
    requires Sourced(doc, middle, role) && Names(doc, middle, inner, m) && !middle.Dict?
    ensures Sourced(doc, inner, role)
  {
    if role.Some? {
      var fields: seq<Entry>, i: nat, n: nat :| KeyNames(doc, fields, i, middle, n) && fields[i].key == role.value;
      NamesThrough(doc, fields[i].value, middle, inner, n, m);
      assert KeyNames(doc, fields, i, inner, n + m);
    }
  }

  lemma ArriveObject(doc: Doc, number: nat, role: Role)
    requires Arrives(doc, Ref(number), role) && Get(doc, number).Some? && !Get(doc, number).value.Ref?
    ensures Arrives(doc, Get(doc, number).value, role)
  {
    var found := Get(doc, number).value;
    assert Names(doc, found, found, 0);
    assert Names(doc, Ref(number), found, 1);
    SourcedThrough(doc, Ref(number), found, role, 1);
    assert Nested(doc.objects[number], found);
  }

  lemma ArriveItem(doc: Doc, items: seq<Obj>, i: nat, role: Role)
    requires i < |items| && Arrives(doc, Arr(items), role)
    ensures Arrives(doc, items[i], role)
  {
    assert Names(doc, items[i], items[i], 0);
    assert Names(doc, Arr(items), items[i], 1);
    SourcedThrough(doc, Arr(items), items[i], role, 1);
    assert Nested(items[i], items[i]);
    InDocTrans(doc, Arr(items), items[i]);
  }

  lemma ArriveStream(doc: Doc, fields: seq<Entry>, role: Role)
    requires Arrives(doc, Stream(fields), role)
    ensures Arrives(doc, Dict(fields), role)
  {
    assert Names(doc, Stream(fields), Dict(fields), 1);
    SourcedThrough(doc, Stream(fields), Dict(fields), role, 1);
    InDocTrans(doc, Stream(fields), Dict(fields));
  }

  lemma ArriveField(doc: Doc, fields: seq<Entry>, i: nat)
    requires i < |fields| && InDoc(doc, Dict(fields))
    ensures Arrives(doc, fields[i].value, Some(fields[i].key))
  {
    assert Names(doc, fields[i].value, fields[i].value, 0);
    assert KeyNames(doc, fields, i, fields[i].value, 0);
    assert Nested(fields[i].value, fields[i].value);
    InDocTrans(doc, Dict(fields), fields[i].value);
  }

  // ------------------------------------------------------------ which URIs are deferred

  /** The `/Annots` of a page in the page tree names `value`. */
  ghost predicate PageNames(doc: Doc, policy: Policy, number: nat, page: seq<Entry>, i: nat, value: Obj, n: nat) {
    && number in policy.pages && Get(doc, number) == Some(Dict(page)) && NameIs(page, "Type", "Page")
    && i < |page| && page[i].key == "Annots" && Names(doc, page[i].value, value, n)
  }

  ghost predicate UnderPage(doc: Doc, policy: Policy, value: Obj) {
    exists number: nat, page: seq<Entry>, i: nat, n: nat :: PageNames(doc, policy, number, page, i, value, n)
  }

  /** The `/A` of a link annotation of such a page names `value`. */
  ghost predicate LinkNames(doc: Doc, policy: Policy, link: seq<Entry>, i: nat, value: Obj, n: nat) {
    && UnderPage(doc, policy, Dict(link)) && NameIs(link, "Type", "Annot") && NameIs(link, "Subtype", "Link")
    && i < |link| && link[i].key == "A" && Names(doc, link[i].value, value, n)
  }

  ghost predicate UnderLink(doc: Doc, policy: Policy, value: Obj) {
    exists link: seq<Entry>, i: nat, n: nat :: LinkNames(doc, policy, link, i, value, n)
  }

  /** The walk's flags say where the value stands. */
  ghost predicate FlagsTrue(doc: Doc, policy: Policy, value: Obj, flags: Flags) {
    (flags.underPageAnnots ==> UnderPage(doc, policy, value)) && (flags.inLinkAction ==> UnderLink(doc, policy, value))
  }

  ghost predicate IsTreePage(doc: Doc, policy: Policy, fields: seq<Entry>) {
    exists number: nat :: number in policy.pages && Get(doc, number) == Some(Dict(fields))
  }

  lemma FlagsThrough(doc: Doc, policy: Policy, middle: Obj, inner: Obj, flags: Flags, m: nat)
    requires FlagsTrue(doc, policy, middle, flags) && Names(doc, middle, inner, m) && !middle.Dict?
    ensures FlagsTrue(doc, policy, inner, flags)
  {
    if flags.underPageAnnots {
      var number: nat, page: seq<Entry>, i: nat, n: nat :| PageNames(doc, policy, number, page, i, middle, n);
      NamesThrough(doc, page[i].value, middle, inner, n, m);
      assert PageNames(doc, policy, number, page, i, inner, n + m);
    }
    if flags.inLinkAction {
      var link: seq<Entry>, i: nat, n: nat :| LinkNames(doc, policy, link, i, middle, n);
      NamesThrough(doc, link[i].value, middle, inner, n, m);
      assert LinkNames(doc, policy, link, i, inner, n + m);
    }
  }

  lemma FlagsOfField(doc: Doc, policy: Policy, fields: seq<Entry>, i: nat, flags: Flags, onPage: bool)
    requires i < |fields| && FlagsTrue(doc, policy, Dict(fields), flags) && (onPage ==> IsTreePage(doc, policy, fields))
    ensures FlagsTrue(doc, policy, fields[i].value, ChildFlags(fields, fields[i].key, flags, onPage))
  {
    var below := ChildFlags(fields, fields[i].key, flags, onPage);
    assert Names(doc, fields[i].value, fields[i].value, 0);
    if below.underPageAnnots {
      var number: nat :| number in policy.pages && Get(doc, number) == Some(Dict(fields));
      assert PageNames(doc, policy, number, fields, i, fields[i].value, 0);
    }
    if below.inLinkAction { assert LinkNames(doc, policy, fields, i, fields[i].value, 0); }
  }

  /** How a value comes to be scanned: in a role some key gives it, with flags that are true of it. */
  ghost predicate Comes(doc: Doc, policy: Policy, value: Obj, role: Role, flags: Flags) {
    && Arrives(doc, value, role) && FlagsTrue(doc, policy, value, flags)
    && (flags.inLinkAction ==> role == Some("A"))
  }

  lemma ComesObject(doc: Doc, policy: Policy, number: nat, role: Role, flags: Flags)
    requires Comes(doc, policy, Ref(number), role, flags) && Get(doc, number).Some? && !Get(doc, number).value.Ref?
    ensures Comes(doc, policy, Get(doc, number).value, role, flags)
  {
    var found := Get(doc, number).value;
    ArriveObject(doc, number, role);
    assert Names(doc, found, found, 0);
    FlagsThrough(doc, policy, Ref(number), found, flags, 1);
  }

  lemma ComesItem(doc: Doc, policy: Policy, items: seq<Obj>, i: nat, role: Role, flags: Flags)
    requires i < |items| && Comes(doc, policy, Arr(items), role, flags)
    ensures Comes(doc, policy, items[i], role, flags)
  {
    ArriveItem(doc, items, i, role);
    assert Names(doc, items[i], items[i], 0);
    FlagsThrough(doc, policy, Arr(items), items[i], flags, 1);
  }

  lemma ComesStream(doc: Doc, policy: Policy, fields: seq<Entry>, role: Role, flags: Flags)
    requires Comes(doc, policy, Stream(fields), role, flags)
    ensures Comes(doc, policy, Dict(fields), role, flags)
  {
    ArriveStream(doc, fields, role);
    FlagsThrough(doc, policy, Stream(fields), Dict(fields), flags, 1);
  }

  lemma ComesField(doc: Doc, policy: Policy, fields: seq<Entry>, i: nat, role: Role, flags: Flags, onPage: bool)
    requires i < |fields| && Comes(doc, policy, Dict(fields), role, flags) && (onPage ==> IsTreePage(doc, policy, fields))
    ensures Comes(doc, policy, fields[i].value, Some(fields[i].key), ChildFlags(fields, fields[i].key, flags, onPage))
  {
    ArriveField(doc, fields, i);
    FlagsOfField(doc, policy, fields, i, flags, onPage);
  }

  /** A dictionary that passes its checks is good, its URI checked or deferred. */
  lemma PassesIsGood(doc: Doc, policy: Policy, fields: seq<Entry>, role: Role, flags: Flags)
    requires DictPasses(doc, fields, role, flags, policy) && Comes(doc, policy, Dict(fields), role, flags)
    ensures DictGood(doc, fields, role, policy)
  {
  }

  // ------------------------------------------------------------ the same walk without a seen set

  /** What a walk that revisits every shared object would accept. */
  predicate Plain(doc: Doc, policy: Policy, value: Obj, role: Role, depth: nat, flags: Flags)
    decreases MAX_DEPTH + 1 - depth, 1
  {
    && depth <= MAX_DEPTH
    && if value.Ref? then
         var found := Get(doc, value.number);
         found.Some? && (found.value.Ref? || PlainValue(doc, policy, found.value, Some(value.number), role, depth, flags))
       else PlainValue(doc, policy, value, None, role, depth, flags)
  }

  predicate PlainValue(doc: Doc, policy: Policy, value: Obj, number: Option<nat>,
                       role: Role, depth: nat, flags: Flags)
    requires depth <= MAX_DEPTH
    decreases MAX_DEPTH + 1 - depth, 0
  {
    match value
    case Dict(fields) =>
      && DictPasses(doc, fields, role, flags, policy)
      && forall i :: 0 <= i < |fields| ==>
           Plain(doc, policy, fields[i].value, Some(fields[i].key), depth + 1,
                 ChildFlags(fields, fields[i].key, flags, number.Some? && number.value in policy.pages))
    case Arr(items) => forall i :: 0 <= i < |items| ==> Plain(doc, policy, items[i], role, depth + 1, flags)
    case Stream(fields) => Plain(doc, policy, Dict(fields), role, depth + 1, flags)
    case _ => true
  }

  // ------------------------------------------------------------ the walk

  class GraphWalk {
    const doc: Doc
    const policy: Policy
    var seen: Seen

    constructor (doc: Doc, policy: Policy)
      ensures this.doc == doc && this.policy == policy && seen == {}
    {
      this.doc, this.policy := doc, policy;
      seen := {};
    }

    /** `scan`. False is a refusal, whatever its code. */
    method Scan(value: Obj, role: Role, depth: nat, flags: Flags) returns (ok: bool)
      requires Comes(doc, policy, value, role, flags)
      modifies this`seen
      ensures ok ==> NewFollowed(doc, old(seen), seen, policy) && Good(doc, value, role, seen, policy)
      ensures ok ==> Levels(value, 64 - depth) && MayAct(value, role, flags)
      ensures NewTraced(doc, old(seen), seen)
      ensures Plain(doc, policy, value, role, depth, flags) ==> ok
      decreases MAX_DEPTH + 1 - depth, 5
    {
      if depth > MAX_DEPTH { return false; }
      if value.Ref? {
        ok := ScanRef(value.number, role, depth, flags);
      } else {
        ok := ScanValue(value, None, role, depth, flags);
      }
    }

    method ScanRef(number: nat, role: Role, depth: nat, flags: Flags) returns (ok: bool)
      requires depth <= MAX_DEPTH && Comes(doc, policy, Ref(number), role, flags)
      modifies this`seen
      ensures ok ==> NewFollowed(doc, old(seen), seen, policy) && (number, role) in seen
      ensures NewTraced(doc, old(seen), seen)
      ensures Plain(doc, policy, Ref(number), role, depth, flags) ==> ok
      decreases MAX_DEPTH + 1 - depth, 4
    {
      if (number, role) in seen { return true; }
      ghost var before := seen;
      seen := seen + {(number, role)};
      var found := Get(doc, number);
      if found.None? { return false; }
      if found.value.Ref? { return true; }
      ComesObject(doc, policy, number, role, flags);
      ok := ScanValue(found.value, Some(number), role, depth, flags);
      if ok { LevelsMore(found.value, 64 - depth, 64); }
      if ok { RefFollowed(doc, before, number, role, seen, policy); }
    }

    /** A dictionary, array or stream, inline or just resolved from object `number`. */
    method ScanValue(value: Obj, number: Option<nat>, role: Role, depth: nat, flags: Flags) returns (ok: bool)
      requires depth <= MAX_DEPTH && !value.Ref? && Comes(doc, policy, value, role, flags)
      requires number.Some? ==> Get(doc, number.value) == Some(value)
      modifies this`seen
      ensures ok ==> NewFollowed(doc, old(seen), seen, policy) && Good(doc, value, role, seen, policy)
      ensures ok ==> Levels(value, 64 - depth) && MayAct(value, role, flags)
      ensures NewTraced(doc, old(seen), seen)
      ensures PlainValue(doc, policy, value, number, role, depth, flags) ==> ok
      decreases MAX_DEPTH + 1 - depth, 3
    {
      match value {
        case Dict(entries) =>
          ok := ScanFields(entries, number, role, depth, flags);
        case Arr(items) =>
          ok := ScanItems(items, role, depth, flags);
        case Stream(fields) =>
          ComesStream(doc, policy, fields, role, flags);
          ok := Scan(Dict(fields), role, depth + 1, flags);
        case _ =>
          ok := true;
      }
    }

    method ScanItems(items: seq<Obj>, role: Role, depth: nat, flags: Flags) returns (ok: bool)
      requires depth <= MAX_DEPTH && Comes(doc, policy, Arr(items), role, flags)
      modifies this`seen
      ensures ok ==> NewFollowed(doc, old(seen), seen, policy) && GoodItems(doc, items, |items|, role, seen, policy)
      ensures ok ==> LevelsTo(items, |items|, 63 - depth)
      ensures NewTraced(doc, old(seen), seen)
      ensures PlainValue(doc, policy, Arr(items), None, role, depth, flags) ==> ok
      decreases MAX_DEPTH + 1 - depth, 2
    {
      for i := 0 to |items|
        invariant NewFollowed(doc, old(seen), seen, policy) && NewTraced(doc, old(seen), seen)
        invariant GoodItems(doc, items, i, role, seen, policy) && LevelsTo(items, i, 63 - depth)
      {
        ComesItem(doc, policy, items, i, role, flags);
        ghost var middle := seen;
        ok := ScanNext(items[i], role, depth, flags, old(seen));
        if !ok { return; }
        ItemsGrow(doc, items, i, role, middle, seen, policy);
      }
      ok := true;
    }

    /** One more value of an array or dictionary, in a scan that started with `start` seen. */
    method ScanNext(value: Obj, role: Role, depth: nat, flags: Flags, ghost start: Seen) returns (ok: bool)
      requires depth <= MAX_DEPTH && Comes(doc, policy, value, role, flags)
      requires NewFollowed(doc, start, seen, policy) && NewTraced(doc, start, seen)
      modifies this`seen
      ensures ok ==> NewFollowed(doc, start, seen, policy) && Good(doc, value, role, seen, policy)
      ensures ok ==> Levels(value, 63 - depth) && MayAct(value, role, flags)
      ensures NewTraced(doc, start, seen) && old(seen) <= seen
      ensures Plain(doc, policy, value, role, depth + 1, flags) ==> ok
      decreases MAX_DEPTH + 1 - depth, 0
    {
      ghost var middle := seen;
      ok := Scan(value, role, depth + 1, flags);
      TracedGrows(doc, start, middle, seen);
      if ok { FollowedGrows(doc, start, middle, seen, policy); }
    }

    method ScanFields(fields: seq<Entry>, number: Option<nat>, role: Role, depth: nat, flags: Flags) returns (ok: bool)
      requires depth <= MAX_DEPTH && Comes(doc, policy, Dict(fields), role, flags)
      requires number.Some? ==> Get(doc, number.value) == Some(Dict(fields))
      modifies this`seen
      ensures ok ==> NewFollowed(doc, old(seen), seen, policy) && GoodFields(doc, fields, role, seen, policy)
      ensures ok ==> LevelsOf(fields, |fields|, 63 - depth) && MayAct(Dict(fields), role, flags)
      ensures NewTraced(doc, old(seen), seen)
      ensures PlainValue(doc, policy, Dict(fields), number, role, depth, flags) ==> ok
      decreases MAX_DEPTH + 1 - depth, 2
    {
      if !DictPasses(doc, fields, role, flags, policy) { return false; }
      var onPage := number.Some? && number.value in policy.pages;
      ok := ScanChildren(fields, role, depth, flags, onPage);
      PassesIsGood(doc, policy, fields, role, flags);
    }

    method ScanChildren(fields: seq<Entry>, ghost role: Role, depth: nat, flags: Flags, onPage: bool) returns (ok: bool)
      requires depth <= MAX_DEPTH && Comes(doc, policy, Dict(fields), role, flags)
      requires onPage ==> IsTreePage(doc, policy, fields)
      modifies this`seen
      ensures ok ==> NewFollowed(doc, old(seen), seen, policy) && GoodUpTo(doc, fields, |fields|, seen, policy)
      ensures ok ==> LevelsOf(fields, |fields|, 63 - depth) && ActionsOwned(fields, |fields|)
      ensures NewTraced(doc, old(seen), seen)
      ensures PlainChildren(doc, policy, fields, depth, flags, onPage) ==> ok
      decreases MAX_DEPTH + 1 - depth, 1
    {
      for i := 0 to |fields|
        invariant NewFollowed(doc, old(seen), seen, policy) && NewTraced(doc, old(seen), seen)
        invariant GoodUpTo(doc, fields, i, seen, policy) && LevelsOf(fields, i, 63 - depth) && ActionsOwned(fields, i)
      {
        ComesField(doc, policy, fields, i, role, flags, onPage);
        ghost var middle := seen;
        ok := ScanNext(fields[i].value, Some(fields[i].key), depth, ChildFlags(fields, fields[i].key, flags, onPage), old(seen));
        if !ok { return; }
        ChildMayAct(fields, fields[i], flags, onPage);
        UpToGrows(doc, fields, i, middle, seen, policy);
      }
      ok := true;
    }

    /** One object of the table, unless something has reached it. */
    method ScanObject(number: nat, reached: set<nat>) returns (ok: bool)
      requires Sound(doc, seen, policy) && AllReached(seen, reached)
      modifies this`seen
      ensures ok ==> Sound(doc, seen, policy) && AllReached(seen, reached + {number}) && old(seen) <= seen
      ensures Plain(doc, policy, Ref(number), None, 0, NO_FLAGS) ==> ok
    {
      if number in reached {
        assert reached + {number} == reached;
        return true;
      }
      ghost var middle := seen;
      ok := Scan(Ref(number), None, 0, NO_FLAGS);
      if ok {
        FollowedGrows(doc, {}, middle, seen, policy);
        TracedGrows(doc, {}, middle, seen);
        assert (number, None) in seen;
        ReachedGrows(middle, seen, reached);
      }
    }

    /** Every object of the table that is not yet in `already`. */
    method ScanTable(already: set<nat>) returns (ok: bool)
      requires Sound(doc, seen, policy) && AllReached(seen, already)
      modifies this`seen
      ensures ok ==> Sound(doc, seen, policy) && TableReached(doc, seen) && old(seen) <= seen
      ensures PlainTable(doc, policy) ==> ok
    {
      var reached := already;
      for i := 0 to |doc.numbers|
        invariant Sound(doc, seen, policy) && AllReached(seen, reached) && old(seen) <= seen
        invariant Listed(doc.numbers, i, reached)
      {
        ok := ScanObject(doc.numbers[i], reached);
        if !ok { return; }
        reached := reached + {doc.numbers[i]};
      }
      ListedReached(doc, seen, reached);
      ok := true;
    }

    /** The trailer, then every object nothing has reached yet. */
    method ScanAll() returns (ok: bool)
      requires seen == {}
      modifies this`seen
      ensures ok ==> Covered(doc, seen, policy)
      ensures PlainDoc(doc, policy) ==> ok
    {
      ok := Scan(Dict(doc.trailer), None, 0, NO_FLAGS);
      if !ok { return; }
      var reached := set p | p in seen :: p.0;
      NumbersReached(seen, reached);
      ghost var middle := seen;
      ok := ScanTable(reached);
      if ok { GoodGrows(doc, Dict(doc.trailer), None, middle, seen, policy); }
    }
  }

  /** What holds between two top-level scans. */
  ghost predicate Sound(doc: Doc, seen: Seen, policy: Policy) {
    NewFollowed(doc, {}, seen, policy) && NewTraced(doc, {}, seen)
  }

  ghost predicate TableReached(doc: Doc, seen: Seen) {
    forall i :: 0 <= i < |doc.numbers| ==> Reached(seen, doc.numbers[i])
  }

  ghost predicate AllReached(seen: Seen, numbers: set<nat>) {
    forall n :: n in numbers ==> Reached(seen, n)
  }

  ghost predicate Listed(numbers: seq<nat>, n: nat, reached: set<nat>)
    requires n <= |numbers|
  {
    forall j :: 0 <= j < n ==> numbers[j] in reached
  }

  lemma ListedReached(doc: Doc, seen: Seen, reached: set<nat>)
    requires Listed(doc.numbers, |doc.numbers|, reached) && AllReached(seen, reached)
    ensures TableReached(doc, seen)
  {
  }

  lemma NumbersReached(seen: Seen, reached: set<nat>)
    requires reached == set p | p in seen :: p.0
    ensures AllReached(seen, reached)
  {
    forall n | n in reached ensures Reached(seen, n) {
      var p :| p in seen && p.0 == n;
      assert (n, p.1) in seen;
    }
  }

  lemma ReachedGrows(before: Seen, after: Seen, numbers: set<nat>)
    requires before <= after && AllReached(before, numbers)
    ensures AllReached(after, numbers)
  {
    forall n | n in numbers ensures Reached(after, n) {
      var role: Role :| (n, role) in before;
      assert (n, role) in after;
    }
  }

  /** The plain walk accepts the trailer and every object of the table. */
  predicate PlainDoc(doc: Doc, policy: Policy) {
    Plain(doc, policy, Dict(doc.trailer), None, 0, NO_FLAGS) && PlainTable(doc, policy)
  }

  predicate PlainTable(doc: Doc, policy: Policy) {
    forall i :: 0 <= i < |doc.numbers| ==> Plain(doc, policy, Ref(doc.numbers[i]), None, 0, NO_FLAGS)
  }

  ghost predicate PlainChildren(doc: Doc, policy: Policy, fields: seq<Entry>,
                                depth: nat, flags: Flags, onPage: bool) {
    forall i :: 0 <= i < |fields| ==>
      Plain(doc, policy, fields[i].value, Some(fields[i].key), depth + 1,
            ChildFlags(fields, fields[i].key, flags, onPage))
  }

  ghost predicate Reached(seen: Seen, number: nat) {
    exists role: Role :: (number, role) in seen
  }

  /**
   The walk's own conclusion: the trailer is good, every table entry was followed,
   every followed reference is good, and none was followed in a role nothing gives it.
   */
  ghost predicate Covered(doc: Doc, seen: Seen, policy: Policy) {
    && Good(doc, Dict(doc.trailer), None, seen, policy) && Sound(doc, seen, policy) && TableReached(doc, seen)
    && Levels(Dict(doc.trailer), 64)
  }

  // ------------------------------------------------------------ the page tree

  datatype PageList = PageList(pages: seq<seq<Entry>>, numbers: set<nat>)

  function Fields(value: Obj): seq<Entry> {
    if value.Dict? then value.entries else []
  }

  /** `_pages`: the leaves of the `/Kids` tree, and the object numbers of those that were references. */
  function Pages(doc: Doc, node: Obj, path: set<nat>, depth: nat): Option<PageList>
    decreases MAX_DEPTH + 1 - depth, 0, 0
  {
    if depth > MAX_DEPTH || (node.Ref? && node.number in path) then None
    else
      var found := Deref(doc, node);
      if found.None? then None
      else
        var page := Fields(found.value);
        if NameIs(page, "Type", "Page") then Some(PageList([page], if node.Ref? then {node.number} else {}))
        else
          var kids := Deref(doc, LookupOr(page, "Kids"));
          if kids.None? || !kids.value.Arr? then None
          else PagesOf(doc, kids.value.items, if node.Ref? then path + {node.number} else path, depth)
  }

  function PagesOf(doc: Doc, kids: seq<Obj>, path: set<nat>, depth: nat): Option<PageList>
    requires depth <= MAX_DEPTH
    decreases MAX_DEPTH - depth, 1, |kids|
  {
    if kids == [] then Some(PageList([], {}))
    else
      var first := Pages(doc, kids[0], path, depth + 1);
      var others := PagesOf(doc, kids[1..], path, depth);
      if first.None? || others.None? then None
      else Some(PageList(first.value.pages + others.value.pages, first.value.numbers + others.value.numbers))
  }

  /** `dict.get`, with the null object for a missing key. */
  function LookupOr(fields: seq<Entry>, key: string): Obj {
    var found := Lookup(fields, key);
    if found.None? then Scalar else found.value
  }

  /** `_refuse_trailer_root`. The catalog has no `Names`, so that check never fires. */
  predicate CatalogOk(doc: Doc) {
    var root := Deref(doc, LookupOr(doc.trailer, "Root"));
    root.Some? && root.value.Dict? && Keys(root.value.entries) == CATALOG_KEYS
  }

  function RootPages(doc: Doc): Option<PageList>
    requires CatalogOk(doc)
  {
    Pages(doc, LookupOr(Deref(doc, LookupOr(doc.trailer, "Root")).value.entries, "Pages"), {}, 0)
  }

  /** The rules together with the page tree of this document. */
  function PolicyOf(doc: Doc, refused: string -> bool): Policy
    requires CatalogOk(doc) && RootPages(doc).Some?
  {
    Policy(refused, RootPages(doc).value.numbers)
  }

  lemma CoveredMeans(doc: Doc, seen: Seen, policy: Policy)
    requires Covered(doc, seen, policy)
    ensures exists s :: Covered(doc, s, policy)
    ensures forall fields :: InDoc(doc, Dict(fields)) ==> PageOk(fields) && ActionOk(fields)
  {
    forall fields | InDoc(doc, Dict(fields)) ensures PageOk(fields) && ActionOk(fields) {
      EveryDictionaryChecked(doc, seen, policy, fields);
    }
  }

  /** `_refuse_graph`. */
  method RefuseGraph(doc: Doc, refused: string -> bool) returns (passed: bool)
    ensures passed ==> CatalogOk(doc) && RootPages(doc).Some?
    ensures passed ==> exists seen :: Covered(doc, seen, PolicyOf(doc, refused))
    ensures passed ==> forall fields :: InDoc(doc, Dict(fields)) ==> PageOk(fields) && ActionOk(fields)
    ensures CatalogOk(doc) && RootPages(doc).Some? && PlainDoc(doc, PolicyOf(doc, refused)) ==> passed
  {
    if !CatalogOk(doc) { return false; }
    var pages := RootPages(doc);
    if pages.None? { return false; }
    var policy := Policy(refused, pages.value.numbers);
    assert policy == PolicyOf(doc, refused);
    var walk := new GraphWalk(doc, policy);
    passed := walk.ScanAll();
    if passed { CoveredMeans(doc, walk.seen, policy); }
  }

  // ------------------------------------------------------------ what it means for the document

  /** `inner` occurs in `v`, without following references. */
  ghost predicate Nested(v: Obj, inner: Obj)
    decreases v, 0
  {
    || v == inner
    || match v
       case Arr(items) => exists i :: 0 <= i < |items| && Nested(items[i], inner)
       case Dict(entries) => NestedIn(entries, inner)
       case Stream(fields) => inner == Dict(fields) || NestedIn(fields, inner)
       case _ => false
  }

  ghost predicate NestedIn(fields: seq<Entry>, inner: Obj)
    decreases fields, 1
  {
    exists i :: 0 <= i < |fields| && Nested(fields[i].value, inner)
  }

  /** `inner` occurs in the trailer or in an object of the cross-reference table. */
  ghost predicate InDoc(doc: Doc, inner: Obj) {
    || Nested(Dict(doc.trailer), inner)
    || exists n :: n in doc.numbers && n in doc.objects && Nested(doc.objects[n], inner)
  }

  /** Visited in a role that some key gives it. */
  ghost predicate GoodAs(doc: Doc, v: Obj, role: Role, seen: Seen, policy: Policy) {
    Good(doc, v, role, seen, policy) && Arrives(doc, v, role)
  }

  lemma {:induction false} GoodInside(doc: Doc, v: Obj, role: Role, seen: Seen, policy: Policy, inner: Obj)
    requires GoodAs(doc, v, role, seen, policy) && Nested(v, inner)
    ensures exists r :: GoodAs(doc, inner, r, seen, policy)
    decreases v, 0
  {
    if v != inner {
      match v
      case Arr(items) =>
        var i :| 0 <= i < |items| && Nested(items[i], inner);
        ArriveItem(doc, items, i, role);
        GoodInside(doc, items[i], role, seen, policy, inner);
      case Dict(entries) => FieldsInside(doc, entries, role, seen, policy, inner);
      case Stream(fields) =>
        ArriveStream(doc, fields, role);
        if inner == Dict(fields) {
          assert GoodAs(doc, inner, role, seen, policy);
        } else {
          FieldsInside(doc, fields, role, seen, policy, inner);
        }
    }
  }

  lemma {:induction false} FieldsInside(doc: Doc, fields: seq<Entry>, role: Role, seen: Seen, policy: Policy, inner: Obj)
    requires GoodFields(doc, fields, role, seen, policy) && InDoc(doc, Dict(fields)) && NestedIn(fields, inner)
    ensures exists r :: GoodAs(doc, inner, r, seen, policy)
    decreases fields, 1
  {
    var i :| 0 <= i < |fields| && Nested(fields[i].value, inner);
    ArriveField(doc, fields, i);
    GoodInside(doc, fields[i].value, Some(fields[i].key), seen, policy, inner);
  }

  lemma GoodInDoc(doc: Doc, seen: Seen, policy: Policy, inner: Obj)
    requires Covered(doc, seen, policy) && InDoc(doc, inner) && !inner.Ref?
    ensures exists r :: GoodAs(doc, inner, r, seen, policy)
  {
    if Nested(Dict(doc.trailer), inner) {
      assert Nested(Dict(doc.trailer), Dict(doc.trailer));
      GoodInside(doc, Dict(doc.trailer), None, seen, policy, inner);
    } else {
      var n :| n in doc.numbers && n in doc.objects && Nested(doc.objects[n], inner);
      assert Reached(seen, n);
      var role: Role :| (n, role) in seen;
      assert Followed(doc, (n, role), seen, policy);
      ArriveObject(doc, n, role);
      GoodInside(doc, doc.objects[n], role, seen, policy, inner);
    }
  }

  /**
   Soundness: when the walk passes, every dictionary anywhere in the trailer or in
   any object of the table, reachable or not, has `/S` equal to `URI` if a name,
   and one of the two page key sets if it is a `/Page`.
   */
  lemma EveryDictionaryChecked(doc: Doc, seen: Seen, policy: Policy, fields: seq<Entry>)
    requires Covered(doc, seen, policy) && InDoc(doc, Dict(fields))
    ensures PageOk(fields) && ActionOk(fields)
  {
    var r := DictVisited(doc, seen, policy, fields);
  }

  /** No part of a passing document is nested deeper than 64 levels, and an action inside a dictionary is an annotation's. */
  lemma EveryLevelChecked(doc: Doc, seen: Seen, policy: Policy, fields: seq<Entry>, i: nat)
    requires Covered(doc, seen, policy)
    ensures Levels(Dict(doc.trailer), 64)
    ensures forall n :: n in doc.numbers ==> n in doc.objects && Levels(doc.objects[n], 64)
    ensures InDoc(doc, Dict(fields)) && i < |fields| && fields[i].key == "A" && fields[i].value.Dict? ==>
              Lookup(fields, "Type") == Some(Name("Annot"))
  {
    forall n | n in doc.numbers ensures n in doc.objects && Levels(doc.objects[n], 64) {
      assert Reached(seen, n);
      var role: Role :| (n, role) in seen;
      assert Followed(doc, (n, role), seen, policy);
    }
    if InDoc(doc, Dict(fields)) && i < |fields| {
      var r := DictVisited(doc, seen, policy, fields);
      assert ActionOwned(fields, fields[i]);
    }
  }

  /** Every action's URI was checked, except in the link actions of the page tree's own annotations. */
  lemma EveryUriChecked(doc: Doc, seen: Seen, policy: Policy, fields: seq<Entry>)
    requires Covered(doc, seen, policy) && InDoc(doc, Dict(fields))
    ensures UriOk(doc, fields, policy) || UnderLink(doc, policy, Dict(fields))
  {
    var r := DictVisited(doc, seen, policy, fields);
  }

  /** Every dictionary was checked in some role that the document gives it. */
  lemma DictVisited(doc: Doc, seen: Seen, policy: Policy, fields: seq<Entry>) returns (r: Role)
    requires Covered(doc, seen, policy) && InDoc(doc, Dict(fields))
    ensures GoodFields(doc, fields, r, seen, policy) && Sourced(doc, Dict(fields), r)
  {
    GoodInDoc(doc, seen, policy, Dict(fields));
    r :| GoodAs(doc, Dict(fields), r, seen, policy);
    assert Good(doc, Dict(fields), r, seen, policy);
  }

  /** A good value makes everything it names good in the same role. */
  lemma {:induction false} NamesGood(doc: Doc, v: Obj, inner: Obj, n: nat, role: Role, seen: Seen, policy: Policy)
    requires NewFollowed(doc, {}, seen, policy) && Good(doc, v, role, seen, policy) && Names(doc, v, inner, n)
    ensures Good(doc, inner, role, seen, policy)
    decreases n
  {
    if v != inner {
      match v
      case Arr(items) =>
        var i :| 0 <= i < |items| && Names(doc, items[i], inner, n - 1);
        NamesGood(doc, items[i], inner, n - 1, role, seen, policy);
      case Ref(k) =>
        assert Followed(doc, (k, role), seen, policy);
        NamesGood(doc, Get(doc, k).value, inner, n - 1, role, seen, policy);
      case _ =>
    }
  }

  /**
   Roles survive sharing, arrays and cycles: whatever else refers to the same
   object, each dictionary that a key names, itself or through arrays nested to any depth, each
   step inline or one reference away, was checked under that key.
   */
  lemma EveryRoleChecked(doc: Doc, seen: Seen, policy: Policy, fields: seq<Entry>, i: nat, child: seq<Entry>, n: nat)
    requires Covered(doc, seen, policy) && KeyNames(doc, fields, i, Dict(child), n)
    ensures RoleOk(child, Some(fields[i].key))
    ensures UriOk(doc, child, policy) || (fields[i].key == "A" && UnderLink(doc, policy, Dict(child)))
  {
    var r := DictVisited(doc, seen, policy, fields);
    NamesGood(doc, fields[i].value, Dict(child), n, Some(fields[i].key), seen, policy);
    assert GoodFields(doc, child, Some(fields[i].key), seen, policy);
  }

  // ------------------------------------------------------------ the pages the extractor reads were checked

  lemma NestedLookup(fields: seq<Entry>, key: string)
    requires Lookup(fields, key).Some?
    ensures exists i :: 0 <= i < |fields| && fields[i].value == Lookup(fields, key).value
  {
    if fields[0].key != key {
      NestedLookup(fields[1..], key);
      var i :| 0 <= i < |fields[1..]| && fields[1..][i].value == Lookup(fields[1..], key).value;
      assert fields[i + 1] == fields[1..][i];
    }
  }

  lemma {:induction false} NestedTrans(v: Obj, middle: Obj, inner: Obj)
    requires Nested(v, middle) && Nested(middle, inner)
    ensures Nested(v, inner)
    decreases v
  {
    if v != middle {
      match v
      case Arr(items) =>
        var i :| 0 <= i < |items| && Nested(items[i], middle);
        NestedTrans(items[i], middle, inner);
      case Dict(entries) =>
        var i :| 0 <= i < |entries| && Nested(entries[i].value, middle);
        NestedTrans(entries[i].value, middle, inner);
      case Stream(fields) =>
        if middle == Dict(fields) {
          if inner != middle { assert NestedIn(fields, inner); }
        } else {
          var i :| 0 <= i < |fields| && Nested(fields[i].value, middle);
          NestedTrans(fields[i].value, middle, inner);
        }
    }
  }

  lemma InDocTrans(doc: Doc, middle: Obj, inner: Obj)
    requires InDoc(doc, middle) && Nested(middle, inner)
    ensures InDoc(doc, inner)
  {
    if Nested(Dict(doc.trailer), middle) {
      NestedTrans(Dict(doc.trailer), middle, inner);
    } else {
      var n :| n in doc.numbers && n in doc.objects && Nested(doc.objects[n], middle);
      NestedTrans(doc.objects[n], middle, inner);
    }
  }

  lemma {:induction false} DerefInDoc(doc: Doc, value: Obj, hops: nat)
    requires InDoc(doc, value) && Deref(doc, value, hops).Some?
    ensures InDoc(doc, Deref(doc, value, hops).value)
    decreases hops
  {
    if value.Ref? {
      var next := Get(doc, value.number).value;
      assert Nested(doc.objects[value.number], next);
      DerefInDoc(doc, next, hops - 1);
    }
  }

  lemma {:induction false} PagesInDoc(doc: Doc, node: Obj, path: set<nat>, depth: nat)
    requires InDoc(doc, node) && Pages(doc, node, path, depth).Some?
    ensures forall page :: page in Pages(doc, node, path, depth).value.pages ==> InDoc(doc, Dict(page)) && NameIs(page, "Type", "Page")
    decreases MAX_DEPTH + 1 - depth, 0, 0
  {
    DerefInDoc(doc, node, MAX_HOPS);
    var found := Deref(doc, node).value;
    var page := Fields(found);
    if !NameIs(page, "Type", "Page") {
      var kids := LookupOr(page, "Kids");
      if Lookup(page, "Kids").Some? {
        NestedLookup(page, "Kids");
        var i :| 0 <= i < |page| && page[i].value == kids;
        assert Nested(page[i].value, kids);
        InDocTrans(doc, found, kids);
        DerefInDoc(doc, kids, MAX_HOPS);
        var items := Deref(doc, kids).value.items;
        forall k | 0 <= k < |items| ensures InDoc(doc, items[k]) {
          assert Nested(items[k], items[k]);
          InDocTrans(doc, Arr(items), items[k]);
        }
        KidsInDoc(doc, items, if node.Ref? then path + {node.number} else path, depth);
      }
    }
  }

  lemma {:induction false} KidsInDoc(doc: Doc, kids: seq<Obj>, path: set<nat>, depth: nat)
    requires depth <= MAX_DEPTH && PagesOf(doc, kids, path, depth).Some?
    requires forall k :: 0 <= k < |kids| ==> InDoc(doc, kids[k])
    ensures forall page :: page in PagesOf(doc, kids, path, depth).value.pages ==> InDoc(doc, Dict(page)) && NameIs(page, "Type", "Page")
    decreases MAX_DEPTH - depth, 1, |kids|
  {
    if kids != [] {
      PagesInDoc(doc, kids[0], path, depth + 1);
      KidsInDoc(doc, kids[1..], path, depth);
    }
  }

  /** The page tree's leaves are dictionaries of the document. */
  lemma RootPagesInDoc(doc: Doc)
    requires CatalogOk(doc) && RootPages(doc).Some?
    ensures forall page :: page in RootPages(doc).value.pages ==> InDoc(doc, Dict(page)) && NameIs(page, "Type", "Page")
  {
    var root := LookupOr(doc.trailer, "Root");
    var catalog := Deref(doc, root).value;
    NestedLookup(doc.trailer, "Root");
    var i :| 0 <= i < |doc.trailer| && doc.trailer[i].value == root;
    assert Nested(doc.trailer[i].value, root);
    assert InDoc(doc, root);
    DerefInDoc(doc, root, MAX_HOPS);
    var node := LookupOr(catalog.entries, "Pages");
    NestedPages(catalog.entries, node);
    InDocTrans(doc, catalog, node);
    PagesInDoc(doc, node, {}, 0);
  }

  /** Every page the link extractor will read has exactly one of the two allowed key sets. */
  lemma ExtractedPagesChecked(doc: Doc, seen: Seen, policy: Policy, page: seq<Entry>)
    requires CatalogOk(doc) && RootPages(doc).Some? && Covered(doc, seen, policy)
    requires page in RootPages(doc).value.pages
    ensures Keys(page) == PAGE_KEYS || Keys(page) == PAGE_KEYS + {"Annots"}
  {
    RootPagesInDoc(doc);
    EveryDictionaryChecked(doc, seen, policy, page);
  }

  lemma NestedPages(entries: seq<Entry>, node: Obj)
    requires Keys(entries) == CATALOG_KEYS && node == LookupOr(entries, "Pages")
    ensures Nested(Dict(entries), node)
  {
    assert "Pages" in Keys(entries);
    var k :| 0 <= k < |entries| && entries[k].key == "Pages";
    PresentKey(entries, k);
    NestedLookup(entries, "Pages");
    var i :| 0 <= i < |entries| && entries[i].value == node;
    assert Nested(entries[i].value, node);
  }

  lemma {:induction false} PresentKey(entries: seq<Entry>, k: nat)
    requires k < |entries|
    ensures Lookup(entries, entries[k].key).Some?
    decreases k
  {
    if entries[0].key != entries[k].key { PresentKey(entries[1..], k - 1); }
  }
}

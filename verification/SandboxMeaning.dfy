/**
 One create in plain terms, for a client that publishes at most the page it
 returns: exactly when it succeeds, and exactly which page it marks and why.
 */
module SandboxMeaning {
  import opened Options
  import opened SandboxLedger
  import opened SandboxCalls

  // ---- The rules, spelled out -----------------------------------------------------

  // Made by the bot itself, not before the minute of the run less two minutes and
  // not after the run's moment plus two minutes (microseconds).
  predicate Ours(bot: Bot, page: Page) {
    && page.createdBy == bot.user
    && page.createdAt.Some? && page.createdAt.value.aware
    && bot.moment - bot.moment % 60000000 - 120000000 <= page.createdAt.value.at
    && page.createdAt.value.at <= bot.moment + 120000000
  }

  predicate Foreign(page: Page) {
    page.space != Blank && page.space != Uuid(0x89282fb0_af94_8106_809e_0003c027fa07)
  }

  predicate IsRoot(id: Id) { id == Uuid(0x3ed82fb0_af94_80dc_8272_f40b16376b81) }

  predicate MayAsk(bot: Bot, l: Ledger, c: Call) {
    && (IsRoot(c.parent) || (c.parent != Blank && c.parent in l.ids))
    && bot.space == Uuid(0x89282fb0_af94_8106_809e_0003c027fa07)
  }

  // The returned page is new and where it was asked for.
  predicate NewHere(l: Ledger, c: Call, page: Page) {
    && page.id != Blank && !IsRoot(page.id) && page.id != c.parent && page.id !in l.ids
    && !Foreign(page) && page.parent == c.parent
  }

  predicate StandsIn(page: Page) { !Foreign(page) && !page.archived }

  // The walk up from `page`: read j answers for the parent of the page before it.
  function Ancestor(read: nat -> Option<Page>, page: Page, j: nat): Option<Page> {
    if j == 0 then Some(page) else read(j)
  }

  // Turn j asks for the parent of a page that is not the sandbox page and was not met before.
  ghost predicate Asks(read: nat -> Option<Page>, page: Page, j: nat) {
    && Ancestor(read, page, j).Some?
    && var at := Ancestor(read, page, j).value;
       && at.id != Blank && at.parent != Blank && !IsRoot(at.id)
       && forall h :: 0 <= h < j ==> (Ancestor(read, page, h).Some? ==> Ancestor(read, page, h).value.id != at.id)
  }

  // Its answer, where there is one.
  ghost predicate Answers(read: nat -> Option<Page>, page: Page, j: nat) {
    Asks(read, page, j) && read(j + 1).Some?
  }

  ghost predicate IsParent(read: nat -> Option<Page>, page: Page, j: nat) {
    Answers(read, page, j) && read(j + 1).value.id == Ancestor(read, page, j).value.parent
  }

  ghost predicate Passed(read: nat -> Option<Page>, page: Page, j: nat) {
    IsParent(read, page, j) && StandsIn(read(j + 1).value)
  }

  ghost predicate PassedTo(read: nat -> Option<Page>, page: Page, n: nat) {
    forall j :: 0 <= j < n ==> Passed(read, page, j)
  }

  // Turn n is the sandbox page.
  ghost predicate RootAt(read: nat -> Option<Page>, page: Page, n: nat) {
    PassedTo(read, page, n) && Ancestor(read, page, n).Some? && IsRoot(Ancestor(read, page, n).value.id)
  }

  // Turn n was answered with another page than the parent.
  ghost predicate StrayAt(read: nat -> Option<Page>, page: Page, n: nat) {
    PassedTo(read, page, n) && Answers(read, page, n) && !IsParent(read, page, n)
  }

  // Turn n was answered with the parent, in a foreign space or archived.
  ghost predicate OutsideAt(read: nat -> Option<Page>, page: Page, n: nat) {
    PassedTo(read, page, n) && IsParent(read, page, n) && !StandsIn(read(n + 1).value)
  }

  // The sandbox page is at most three pages up.
  ghost predicate Rooted(read: nat -> Option<Page>, page: Page) { exists n: nat :: n <= 3 && RootAt(read, page, n) }
  ghost predicate Strays(read: nat -> Option<Page>, page: Page) { exists n: nat :: n <= 3 && StrayAt(read, page, n) }
  ghost predicate Leaves(read: nat -> Option<Page>, page: Page) { exists n: nat :: n <= 3 && OutsideAt(read, page, n) }

  // ---- The walk ---------------------------------------------------------------------

  ghost predicate Met(read: nat -> Option<Page>, page: Page, j: nat, seen: set<Id>) {
    && (forall h :: 0 <= h < j ==> Ancestor(read, page, h).Some? && Ancestor(read, page, h).value.id in seen)
    && (forall id <- seen :: exists h :: 0 <= h < j && Ancestor(read, page, h).Some? && Ancestor(read, page, h).value.id == id)
  }

  // A turn that passes is never the last one of the walk.
  lemma StopsOnce(read: nat -> Option<Page>, page: Page, n: nat)
    ensures RootAt(read, page, n) || StrayAt(read, page, n) || OutsideAt(read, page, n) ==> !Passed(read, page, n)
  {
  }

  lemma PassedBefore(read: nat -> Option<Page>, page: Page, j: nat, n: nat)
    requires j < n
    ensures PassedTo(read, page, n) ==> Passed(read, page, j)
  {
  }

  lemma {:induction false} WalkMeans(read: nat -> Option<Page>, page: Page, j: nat, seen: set<Id>)
    requires j <= 4 && StandsIn(page) && PassedTo(read, page, j) && Met(read, page, j, seen)
    requires Ancestor(read, page, j).Some?
    ensures var end := Chain(read, j + 1, 4 - j, Ancestor(read, page, j).value, seen);
            && (end == Reached <==> exists n: nat :: j <= n <= 3 && RootAt(read, page, n))
            && (end == Marked(ChainId) <==> exists n: nat :: j <= n <= 3 && StrayAt(read, page, n))
            && (end == Marked(ChainSpace) <==> exists n: nat :: j <= n <= 3 && OutsideAt(read, page, n))
            && (end.Marked? ==> end.reason == ChainId || end.reason == ChainSpace)
    decreases 4 - j
  {
    if j < 4 {
      StopsOnce(read, page, j);
      TurnMeans(read, page, j, seen);
      if Passed(read, page, j) {
        var at := Ancestor(read, page, j).value;
        NextMet(read, page, j, seen);
        WalkMeans(read, page, j + 1, seen + {at.id});
        assert forall n: nat :: j <= n <= 3 && (RootAt(read, page, n) || StrayAt(read, page, n) || OutsideAt(read, page, n)) ==> j + 1 <= n;
      } else {
        forall n: nat | j < n ensures !PassedTo(read, page, n) { PassedBefore(read, page, j, n); }
      }
    }
  }

  lemma NextMet(read: nat -> Option<Page>, page: Page, j: nat, seen: set<Id>)
    requires Met(read, page, j, seen) && Ancestor(read, page, j).Some?
    ensures Met(read, page, j + 1, seen + {Ancestor(read, page, j).value.id})
  {
    var more := seen + {Ancestor(read, page, j).value.id};
    forall id | id in more
      ensures exists h :: 0 <= h < j + 1 && Ancestor(read, page, h).Some? && Ancestor(read, page, h).value.id == id
    {
      if id in seen {
        var h :| 0 <= h < j && Ancestor(read, page, h).Some? && Ancestor(read, page, h).value.id == id;
        assert 0 <= h < j + 1;
      } else {
        assert Ancestor(read, page, j).value.id == id;
      }
    }
  }

  lemma AncestorStands(read: nat -> Option<Page>, page: Page, j: nat)
    requires StandsIn(page) && PassedTo(read, page, j) && Ancestor(read, page, j).Some?
    ensures StandsIn(Ancestor(read, page, j).value)
  {
    if j > 0 { assert Passed(read, page, j - 1); }
  }

  // One turn of the loop.
  lemma TurnMeans(read: nat -> Option<Page>, page: Page, j: nat, seen: set<Id>)
    requires j < 4 && StandsIn(page) && PassedTo(read, page, j) && Met(read, page, j, seen)
    requires Ancestor(read, page, j).Some?
    ensures var at := Ancestor(read, page, j).value;
            var end := Chain(read, j + 1, 4 - j, at, seen);
            if Passed(read, page, j) then end == Chain(read, j + 2, 3 - j, read(j + 1).value, seen + {at.id})
            else
              && (end == Reached <==> RootAt(read, page, j))
              && (end == Marked(ChainId) <==> StrayAt(read, page, j))
              && (end == Marked(ChainSpace) <==> OutsideAt(read, page, j))
              && (end.Marked? ==> end.reason == ChainId || end.reason == ChainSpace)
  {
    var at := Ancestor(read, page, j).value;
    AncestorStands(read, page, j);
    assert at.id in seen <==> exists h :: 0 <= h < j && Ancestor(read, page, h).Some? && Ancestor(read, page, h).value.id == at.id;
    assert Asks(read, page, j) <==> at.id != Blank && at.parent != Blank && !IsRoot(at.id) && at.id !in seen;
  }

  lemma ChainMeans(read: nat -> Option<Page>, page: Page)
    requires StandsIn(page)
    ensures var end := Chain(read, 1, 4, page, {});
            && (end == Reached <==> Rooted(read, page))
            && (end == Marked(ChainId) <==> Strays(read, page))
            && (end == Marked(ChainSpace) <==> Leaves(read, page))
            && (end.Marked? ==> end.reason == ChainId || end.reason == ChainSpace)
  {
    assert Ancestor(read, page, 0) == Some(page);
    WalkMeans(read, page, 0, {});
  }

  // ---- One create -----------------------------------------------------------------------

  // The page read back is the one returned, where it was asked for.
  predicate ReadBack(c: Call, page: Page) {
    c.read(0).Some? && c.read(0).value.id == page.id && c.read(0).value.parent == c.parent
  }

  // Every check passes and the answer is `page`, as read back.
  ghost predicate Succeeds(bot: Bot, l: Ledger, c: Call, page: Page) {
    && MayAsk(bot, l, c) && c.reply.Returns? && NewHere(l, c, c.reply.page) && Ours(bot, c.reply.page)
    && ReadBack(c, c.reply.page) && page == c.read(0).value
    && StandsIn(page) && Ours(bot, page) && Rooted(c.read, page)
  }

  // Which page a call marks: only the returned one, with one reason at most.
  ghost predicate Marks(bot: Bot, l: Ledger, c: Call, reason: Reason) {
    && MayAsk(bot, l, c) && c.reply.Returns? && c.reply.page.id != Blank
    && var page := c.reply.page;
       var confirming := NewHere(l, c, page) && Ours(bot, page) && ReadBack(c, page);
       var back := if c.read(0).Some? then c.read(0).value else page;
       match reason
       case NotNew => page.id == c.parent && !IsRoot(page.id)
       case SpaceConflict =>
         || (Foreign(page) && (page.id != c.parent || IsRoot(page.id)))
         || (confirming && Foreign(back) && !back.archived)
       case Archived => confirming && back.archived
       case ChainId => confirming && StandsIn(back) && Ours(bot, back) && Strays(c.read, back)
       case ChainSpace => confirming && StandsIn(back) && Ours(bot, back) && Leaves(c.read, back)
  }

  // The returned page, or the page as read back, is not this run's own.
  predicate Rejects(bot: Bot, l: Ledger, c: Call) {
    && MayAsk(bot, l, c) && c.reply.Returns? && NewHere(l, c, c.reply.page)
    && (|| !Ours(bot, c.reply.page)
        || (ReadBack(c, c.reply.page) && StandsIn(c.read(0).value) && !Ours(bot, c.read(0).value)))
  }

  lemma SameRules(bot: Bot, page: Page)
    ensures Ours(bot, page) == IsFresh(bot, page) && Foreign(page) == Conflicts(page.space)
    ensures IsRoot(page.id) <==> page.id == SANDBOX
  {
  }

  // After the walk, what the confirming read makes of the call.
  lemma ConfirmedMeans(bot: Bot, l: Ledger, a: Ledger, c: Call)
    requires MayAsk(bot, l, c) && c.reply.Returns? && NewHere(l, c, c.reply.page) && Ours(bot, c.reply.page)
    ensures var id := c.reply.page.id;
            var (after, r) := Confirmed(bot, a, id, c);
            && (r.Created? <==> c.read(0).Some? && Succeeds(bot, l, c, c.read(0).value))
            && (r.Created? ==> c.read(0) == Some(r.page))
            && (forall m :: m in after.flagged <==> m in a.flagged || (m.id == id && Marks(bot, l, c, m.reason)))
            && after.rejected == (if Rejects(bot, l, c) && id !in a.rejected then a.rejected + [id] else a.rejected)
  {
    if c.read(0).Some? {
      SameRules(bot, c.read(0).value);
      if StandsIn(c.read(0).value) { ChainMeans(c.read, c.read(0).value); }
    }
  }

  lemma {:induction false} TrimMarks(l: Ledger, id: Id, before: nat)
    ensures Trim(l, id, before).0.flagged == l.flagged
    decreases |l.ids|
  {
    if |l.ids| > before && l.ids[|l.ids| - 1] != id {
      var smaller := DropTail(l, l.ids[|l.ids| - 1], before);
      if |smaller.ids| < |l.ids| { TrimMarks(smaller, id, before); }
    }
  }

  ghost predicate MarkAdded(before: seq<Mark>, after: seq<Mark>, id: Id, reason: Reason) {
    after == if Mark(id, reason) in before then before else before + [Mark(id, reason)]
  }

  lemma TrimmedMarks(l: Ledger, d: Ledger, t: Ledger, page: Page)
    requires Trim(d, page.id, |l.ids|) == (t, true) && t.flagged == d.flagged && Front(t.ids, |l.ids|) == l.ids
    ensures var a := Aligned(d, page, |l.ids|).0;
            if Foreign(page) && page.id != Blank && page.id !in l.ids then MarkAdded(d.flagged, a.flagged, page.id, SpaceConflict)
            else a.flagged == d.flagged
  {
  }

  // A kept page in a foreign space is marked while the lists are aligned.
  lemma AlignedMarks(l: Ledger, d: Ledger, page: Page)
    requires InStep(l) && Paired(d) && d.rejected == l.rejected && l.rows <= d.rows
    requires d.ids == l.ids || d.ids == l.ids + [page.id]
    ensures var a := Aligned(d, page, |l.ids|).0;
            if Foreign(page) && page.id != Blank && page.id !in l.ids then MarkAdded(d.flagged, a.flagged, page.id, SpaceConflict)
            else a.flagged == d.flagged
  {
    TrimMarks(d, page.id, |l.ids|);
    TrimKeeps(d, page.id, |l.ids|);
    var n := Kept(d.ids, page.id, |l.ids|, |d.ids|);
    var t := Cut(d, n);
    assert Front(t.ids, |l.ids|) == l.ids;
    assert t.ids == l.ids || t.ids == l.ids + [page.id];
    TrimmedMarks(l, d, t, page);
  }

  lemma AlignedOneMarks(bot: Bot, l: Ledger, c: Call)
    requires InStep(l) && Polite(l.ids, c.reply) && Asked(bot, l.ids, c) && c.reply.Returns?
    ensures var a := Aligned(Answered(Requested(l, c), Marker(c.parent, c.title)), c.reply.page, |l.ids|).0;
            var page := c.reply.page;
            if Foreign(page) && page.id != Blank && page.id !in l.ids then MarkAdded(l.flagged, a.flagged, page.id, SpaceConflict)
            else a.flagged == l.flagged
  {
    RequestedPaired(l, c);
    var answered := Answered(Requested(l, c), Marker(c.parent, c.title));
    if c.reply.published != [] { assert answered.ids == l.ids + [c.reply.page.id]; }
    AlignedMarks(l, answered, c.reply.page);
  }

  // What the checks make of the aligned lists.
  lemma JudgedMeans(bot: Bot, l: Ledger, a: Ledger, c: Call)
    requires InStep(l) && MayAsk(bot, l, c) && c.reply.Returns? && AlignedTo(l, a, c.reply.page)
    requires var page := c.reply.page;
             if Foreign(page) && page.id != Blank && page.id !in l.ids then MarkAdded(l.flagged, a.flagged, page.id, SpaceConflict)
             else a.flagged == l.flagged
    ensures Judgement(bot, l, c, Judged(bot, a, |l.ids|, c.reply.page, c))
  {
    var page := c.reply.page;
    SameRules(bot, page);
    if page.id !in l.ids && page.id != Blank { assert Front(a.ids, |l.ids|) == l.ids; }
    if page.id in l.ids { DropAny(l, page.id); }
    if page.id in l.ids && !Foreign(page) { assert Front(a.ids, |l.ids|) == l.ids; }
    if NewHere(l, c, page) && Ours(bot, page) {
      ConfirmedMeans(bot, l, a, c);
    }
  }

  // Answer, marks and rejections of one call.
  ghost predicate Judgement(bot: Bot, l: Ledger, c: Call, result: (Ledger, Outcome)) {
    var (after, r) := result;
    && (forall page :: r == Created(page) <==> Succeeds(bot, l, c, page))
    && (forall m :: m in after.flagged <==>
                    m in l.flagged || (c.reply.Returns? && m.id == c.reply.page.id && Marks(bot, l, c, m.reason)))
    && after.rejected == (if Rejects(bot, l, c) && c.reply.page.id !in l.rejected then l.rejected + [c.reply.page.id] else l.rejected)
  }

  // The exact result of one create, whatever the client answers.
  lemma CreateMeans(bot: Bot, l: Ledger, c: Call)
    requires InStep(l) && Polite(l.ids, c.reply)
    ensures Judgement(bot, l, c, Create(bot, l, c))
  {
    if MayAsk(bot, l, c) && c.reply.Returns? {
      AlignedOne(bot, l, c);
      AlignedOneMarks(bot, l, c);
      var a := Aligned(Answered(Requested(l, c), Marker(c.parent, c.title)), c.reply.page, |l.ids|).0;
      assert Create(bot, l, c) == Judged(bot, a, |l.ids|, c.reply.page, c);
      JudgedMeans(bot, l, a, c);
    }
  }

  // ---- The two lists after a create ---------------------------------------------------------

  ghost predicate Unchanged(l: Ledger, after: Ledger) { after.ids == l.ids && after.rows == l.rows }

  ghost predicate StruckAt(l: Ledger, after: Ledger, k: nat) {
    && k < |l.ids| == |l.rows|
    && after.ids == l.ids[..k] + l.ids[k + 1..] && after.rows == l.rows[..k] + l.rows[k + 1..]
  }

  ghost predicate Listed(l: Ledger, after: Ledger, row: Row) {
    after.ids == l.ids + [row.id] && after.rows == l.rows + [row]
  }

  // The row a new page is listed under: the client's own, unless the page was read back and confirmed.
  function RowOf(c: Call, confirmed: bool): Row
    requires c.reply.Returns? && (confirmed ==> c.read(0).Some?)
  {
    if confirmed then Row(c.reply.page.id, c.parent, c.read(0).value.url)
    else if |c.reply.published| == 1 then c.reply.published[0]
    else Row(c.reply.page.id, c.reply.page.parent, c.reply.page.url)
  }

  ghost predicate Lists(bot: Bot, l: Ledger, c: Call, after: Ledger) {
    if !MayAsk(bot, l, c) then Unchanged(l, after)
    else if c.reply.Raises? then after.ids == l.ids + IdsOf(c.reply.published) && after.rows == l.rows + c.reply.published
    else
      var page := c.reply.page;
      if page.id in l.ids && Foreign(page) then exists k: nat :: StruckAt(l, after, k) && l.ids[k] == page.id
      else if page.id in l.ids || page.id == Blank || IsRoot(page.id) || Rejects(bot, l, c) then Unchanged(l, after)
      else Listed(l, after, RowOf(c, c.read(0).Some? && Succeeds(bot, l, c, c.read(0).value)))
  }

  lemma ListsMean(bot: Bot, l: Ledger, c: Call)
    requires InStep(l) && Polite(l.ids, c.reply)
    ensures Lists(bot, l, c, Create(bot, l, c).0)
  {
    if MayAsk(bot, l, c) && c.reply.Returns? {
      var page := c.reply.page;
      var (after, r) := Create(bot, l, c);
      AlignedOne(bot, l, c);
      var a := Aligned(Answered(Requested(l, c), Marker(c.parent, c.title)), page, |l.ids|).0;
      assert Create(bot, l, c) == Judged(bot, a, |l.ids|, page, c);
      if page.id in l.ids {
        KnownPage(bot, l, a, c);
      } else if page.id != Blank {
        AlignedRow(bot, l, c);
        NewPage(bot, l, a, c);
      } else {
        JudgedSame(bot, l, a, c);
      }
    }
  }

  lemma JudgedKnown(bot: Bot, a: Ledger, before: nat, c: Call)
    requires c.reply.Returns? && c.reply.page.id != Blank && c.reply.page.id != SANDBOX
    requires c.reply.page.id in Front(a.ids, before) || Conflicts(c.reply.page.space)
    ensures Unchanged(a, Judged(bot, a, before, c.reply.page, c).0)
  {
  }

  lemma KnownPage(bot: Bot, l: Ledger, a: Ledger, c: Call)
    requires InStep(l) && c.reply.Returns? && AlignedTo(l, a, c.reply.page) && c.reply.page.id in l.ids
    ensures var after := Judged(bot, a, |l.ids|, c.reply.page, c).0;
            if Foreign(c.reply.page) then exists k: nat :: StruckAt(l, after, k) && l.ids[k] == c.reply.page.id
            else Unchanged(l, after)
  {
    var page := c.reply.page;
    var k :| 0 <= k < |l.ids| && l.ids[k] == page.id;
    DropPaired(l, k);
    if !Foreign(page) { assert Front(a.ids, |l.ids|) == l.ids; }
    JudgedKnown(bot, a, |l.ids|, c);
    if Foreign(page) { assert StruckAt(l, a, k); }
  }

  lemma RowRemembered(l: Ledger, d: Ledger, page: Page)
    requires InStep(l) && page.id !in l.ids && page.id != Blank && d.ids == l.ids && d.rows == l.rows
    ensures var a := Aligned(d, page, |l.ids|).0; Paired(a) && Listed(l, a, Row(page.id, page.parent, page.url))
  {
    assert Front(l.ids, |l.ids|) == l.ids;
    TrimStops(d, page.id, |l.ids|);
    RememberPaired(d, page);
  }

  lemma RowPublished(l: Ledger, d: Ledger, page: Page, row: Row)
    requires InStep(l) && Paired(d) && page.id !in l.ids && row.id == page.id && Listed(l, d, row)
    ensures var a := Aligned(d, page, |l.ids|).0; Paired(a) && Listed(l, a, row)
  {
    assert d.ids[|l.ids|] == page.id;
    assert Front(d.ids, |l.ids|) == l.ids;
    TrimStops(d, page.id, |l.ids|);
  }

  // The row alignment leaves for a new page.
  lemma AlignedRow(bot: Bot, l: Ledger, c: Call)
    requires InStep(l) && Polite(l.ids, c.reply) && Asked(bot, l.ids, c) && c.reply.Returns?
    requires c.reply.page.id !in l.ids && c.reply.page.id != Blank
    ensures var a := Aligned(Answered(Requested(l, c), Marker(c.parent, c.title)), c.reply.page, |l.ids|).0;
            Paired(a) && Listed(l, a, RowOf(c, false))
  {
    RequestedPaired(l, c);
    var page, d := c.reply.page, Answered(Requested(l, c), Marker(c.parent, c.title));
    if c.reply.published == [] {
      RowRemembered(l, d, page);
    } else {
      assert IdsOf(c.reply.published) == [page.id];
      RowPublished(l, d, page, c.reply.published[0]);
    }
  }

  lemma NewPage(bot: Bot, l: Ledger, a: Ledger, c: Call)
    requires InStep(l) && MayAsk(bot, l, c) && c.reply.Returns? && c.reply.page.id !in l.ids && c.reply.page.id != Blank
    requires Paired(a) && Listed(l, a, RowOf(c, false)) && c.reply.page.id == RowOf(c, false).id
    ensures Lists(bot, l, c, Judged(bot, a, |l.ids|, c.reply.page, c).0)
  {
    var page := c.reply.page;
    SameRules(bot, page);
    assert a.ids[|l.ids|] == page.id;
    DropPaired(a, |l.ids|);
    RejectIsDrop(a, page.id);
    assert Front(a.ids, |l.ids|) == l.ids && a.rows[..|l.ids|] == l.rows;
    assert a.ids[|l.ids| + 1..] == [] && a.rows[|l.ids| + 1..] == [];
    if NewHere(l, c, page) && Ours(bot, page) {
      ConfirmedMeans(bot, l, a, c);
      if ReadBack(c, page) { SameRules(bot, c.read(0).value); }
    }
  }
}

/**
 What one create does to the ledger when the client publishes at most the page it
 returns: a success appends one row, a failure keeps the earlier ones.
 */
module SandboxCalls {
  import opened Options
  import opened SandboxLedger

  // ---- A successful call appends one row under the page it asked for -------------

  ghost predicate Polite(ids: seq<Id>, reply: Reply) { OnlyReturned(reply) && Clean(ids, reply) }

  // Row of a confirmed page that passed every check of call c.
  ghost predicate Appended(bot: Bot, l: Ledger, c: Call, after: Ledger, page: Page) {
    && page.id !in l.ids && page.id != SANDBOX && page.id != Blank && page.parent == c.parent
    && after.ids == l.ids + [page.id]
    && after.rows == l.rows + [Row(page.id, c.parent, page.url)]
    && IsFresh(bot, page) && !page.archived && !Conflicts(page.space)
    && Chain(c.read, 1, 4, page, {}) == Reached
  }

  lemma ConfirmedAppends(bot: Bot, l: Ledger, a: Ledger, id: Id, c: Call)
    requires Paired(a) && a.ids == l.ids + [id] && l.rows <= a.rows && |l.rows| == |l.ids|
    requires id !in l.ids && id != SANDBOX && id != Blank
    requires Confirmed(bot, a, id, c).1.Created?
    ensures var (after, r) := Confirmed(bot, a, id, c); Appended(bot, l, c, after, r.page)
  {
    var n := |l.ids|;
    assert a.ids[n] == id && a.rows[n].id == id;
    assert a.rows[..n] == l.rows;
  }

  lemma CreatedAppends(bot: Bot, l: Ledger, c: Call)
    requires InStep(l) && Polite(l.ids, c.reply)
    requires Create(bot, l, c).1.Created?
    ensures var (after, r) := Create(bot, l, c);
            Allowed(l.ids, c.parent) && Appended(bot, l, c, after, r.page)
  {
    AlignedOne(bot, l, c);
    var page := c.reply.page;
    var answered := Answered(Requested(l, c), Marker(c.parent, c.title));
    var a := Aligned(answered, page, |l.ids|).0;
    assert Create(bot, l, c) == Judged(bot, a, |l.ids|, page, c);
    assert Create(bot, l, c) == Confirmed(bot, a, page.id, c);
    assert Front(l.ids, |l.ids|) == l.ids;
    assert page.id !in l.ids;
    ConfirmedAppends(bot, l, a, page.id, c);
  }

  // What alignment leaves of the two lists l for a polite client.
  ghost predicate AlignedTo(l: Ledger, a: Ledger, page: Page) {
    && Paired(a) && a.rejected == l.rejected
    && (page.id == Blank ==> a.ids == l.ids && a.rows == l.rows)
    && (page.id != Blank && page.id !in l.ids ==> a.ids == l.ids + [page.id] && l.rows <= a.rows)
    && (page.id in l.ids && !Conflicts(page.space) ==> a.ids == l.ids && a.rows == l.rows)
    && (page.id in l.ids && Conflicts(page.space) ==>
          a.ids == Drop(l, page.id).ids && a.rows == Drop(l, page.id).rows)
  }

  lemma AlignedUnpublished(l: Ledger, d: Ledger, page: Page)
    requires InStep(l) && d.ids == l.ids && d.rows == l.rows && d.rejected == l.rejected
    ensures var (a, ok) := Aligned(d, page, |l.ids|); ok && AlignedTo(l, a, page)
  {
    assert Front(l.ids, |l.ids|) == l.ids;
    RememberPaired(d, page);
    DropAny(d, page.id);
  }

  lemma AlignedPublished(l: Ledger, d: Ledger, page: Page)
    requires InStep(l) && Paired(d) && d.ids == l.ids + [page.id] && l.rows <= d.rows && d.rejected == l.rejected
    ensures var (a, ok) := Aligned(d, page, |l.ids|); ok && AlignedTo(l, a, page)
  {
    assert forall k :: 0 <= k < |l.ids| ==> d.ids[k] != d.ids[|l.ids|];
    assert Front(d.ids, |l.ids|) == l.ids;
    assert d.ids[|l.ids|] == page.id;
  }

  lemma AlignedOne(bot: Bot, l: Ledger, c: Call)
    requires InStep(l) && Polite(l.ids, c.reply) && Asked(bot, l.ids, c) && c.reply.Returns?
    ensures var answered := Answered(Requested(l, c), Marker(c.parent, c.title));
            var (a, ok) := Aligned(answered, c.reply.page, |l.ids|);
            ok && AlignedTo(l, a, c.reply.page)
  {
    RequestedPaired(l, c);
    var answered := Answered(Requested(l, c), Marker(c.parent, c.title));
    if c.reply.published == [] {
      AlignedUnpublished(l, answered, c.reply.page);
    } else {
      assert answered.ids == l.ids + [c.reply.page.id];
      AlignedPublished(l, answered, c.reply.page);
    }
  }

  // ---- What a failed call may touch ---------------------------------------------

  lemma JudgedKeepsRows(bot: Bot, l: Ledger, a: Ledger, c: Call)
    requires InStep(l) && c.reply.Returns? && Paired(a)
    requires a.ids == l.ids + [c.reply.page.id] && l.rows <= a.rows
    ensures l.rows <= Judged(bot, a, |l.ids|, c.reply.page, c).0.rows
  {
    var n := |l.ids|;
    assert a.ids[n] == c.reply.page.id;
    DropPaired(a, n);
    RejectIsDrop(a, a.ids[n]);
    assert Drop(a, a.ids[n]).rows == l.rows;
  }

  lemma JudgedSame(bot: Bot, l: Ledger, a: Ledger, c: Call)
    requires InStep(l) && c.reply.Returns? && Paired(a) && a.ids == l.ids && a.rows == l.rows
    requires c.reply.page.id in l.ids || c.reply.page.id == Blank
    ensures Judged(bot, a, |l.ids|, c.reply.page, c).0.rows == l.rows
  {
    assert Front(a.ids, |l.ids|) == l.ids;
  }

  lemma StruckRow(bot: Bot, l: Ledger, a: Ledger, c: Call)
    requires InStep(l) && c.reply.Returns? && c.reply.page.id in l.ids && Conflicts(c.reply.page.space)
    requires Paired(a) && a.rows == Drop(l, c.reply.page.id).rows
    ensures |Judged(bot, a, |l.ids|, c.reply.page, c).0.rows| < |l.rows|
  {
    var k :| 0 <= k < |l.ids| && l.ids[k] == c.reply.page.id;
    DropPaired(l, k);
    assert c.reply.page.id != SANDBOX && c.reply.page.id != Blank;
    assert Judged(bot, a, |l.ids|, c.reply.page, c).0.rows == a.rows;
  }

  ghost predicate Struck(bot: Bot, l: Ledger, c: Call) {
    Asked(bot, l.ids, c) && c.reply.Returns? && c.reply.page.id in l.ids && Conflicts(c.reply.page.space)
  }

  // Rows of earlier calls survive a call exactly when the client did not return
  // one of their pages with an explicit foreign space.
  lemma EarlierRowsKept(bot: Bot, l: Ledger, c: Call)
    requires InStep(l) && Polite(l.ids, c.reply)
    ensures l.rows <= Create(bot, l, c).0.rows <==> !Struck(bot, l, c)
  {
    if Asked(bot, l.ids, c) && c.reply.Returns? {
      AlignedOne(bot, l, c);
      var page := c.reply.page;
      var answered := Answered(Requested(l, c), Marker(c.parent, c.title));
      var a := Aligned(answered, page, |l.ids|).0;
      assert Create(bot, l, c) == Judged(bot, a, |l.ids|, page, c);
      if Struck(bot, l, c) {
        StruckRow(bot, l, a, c);
      } else if page.id in l.ids || page.id == Blank {
        JudgedSame(bot, l, a, c);
      } else {
        JudgedKeepsRows(bot, l, a, c);
      }
    }
  }

  // A page that is not this run's own is listed as rejected and never as created.
  lemma UnfreshIsNotOurs(bot: Bot, l: Ledger, c: Call)
    requires InStep(l) && Polite(l.ids, c.reply) && Asked(bot, l.ids, c) && c.reply.Returns?
    requires var page := c.reply.page;
             page.id !in l.ids && page.id != Blank && page.id != SANDBOX && page.id != c.parent
             && !Conflicts(page.space) && page.parent == c.parent && !IsFresh(bot, page)
    ensures var (after, r) := Create(bot, l, c);
            r == Failed && after.ids == l.ids && after.rows == l.rows && c.reply.page.id in after.rejected
  {
    AlignedOne(bot, l, c);
    var answered := Answered(Requested(l, c), Marker(c.parent, c.title));
    var a := Aligned(answered, c.reply.page, |l.ids|).0;
    assert Front(a.ids, |l.ids|) == l.ids;
    assert a.ids[|l.ids|] == c.reply.page.id;
    DropPaired(a, |l.ids|);
    RejectIsDrop(a, c.reply.page.id);
  }
}

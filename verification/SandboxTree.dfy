/**
 Any sequence of creates: every request is accounted for, ids and rows stay in
 step, and a run whose calls all succeed is a tree three pages deep at most.
 */
module SandboxTree {
  import opened Options
  import opened SandboxLedger
  import opened SandboxCalls

  // ---- Whole runs ------------------------------------------------------------------

  function After(bot: Bot, l: Ledger, calls: seq<Call>): Ledger
    decreases |calls|
  {
    if calls == [] then l else After(bot, Create(bot, l, calls[0]).0, calls[1..])
  }

  ghost predicate AllClean(bot: Bot, l: Ledger, calls: seq<Call>)
    decreases |calls|
  {
    calls == [] || (Clean(l.ids, calls[0].reply) && AllClean(bot, Create(bot, l, calls[0]).0, calls[1..]))
  }

  ghost predicate AllSucceed(bot: Bot, l: Ledger, calls: seq<Call>)
    decreases |calls|
  {
    calls == [] ||
    (Polite(l.ids, calls[0].reply) && Create(bot, l, calls[0]).1.Created?
     && AllSucceed(bot, Create(bot, l, calls[0]).0, calls[1..]))
  }

  lemma {:induction false} BalancedFrom(bot: Bot, l: Ledger, calls: seq<Call>)
    requires Balanced(l)
    ensures Balanced(After(bot, l, calls))
    decreases |calls|
  {
    if calls != [] {
      CreateBalanced(bot, l, calls[0]);
      BalancedFrom(bot, Create(bot, l, calls[0]).0, calls[1..]);
    }
  }

  // Over any sequence of creates, whatever the client does.
  lemma RequestsAccountedFor(bot: Bot, calls: seq<Call>)
    ensures var l := After(bot, START, calls);
            |l.sent| == l.writes + |l.orphans| && multiset(l.orphans) == multiset(l.lost)
  {
    BalancedFrom(bot, START, calls);
  }

  lemma {:induction false} InStepFrom(bot: Bot, l: Ledger, calls: seq<Call>)
    requires InStep(l) && AllClean(bot, l, calls)
    ensures InStep(After(bot, l, calls))
    decreases |calls|
  {
    if calls != [] {
      CreateKeepsStep(bot, l, calls[0]);
      InStepFrom(bot, Create(bot, l, calls[0]).0, calls[1..]);
    }
  }

  lemma RunStaysInStep(bot: Bot, calls: seq<Call>)
    requires AllClean(bot, START, calls)
    ensures var l := After(bot, START, calls);
            DupFree(l.ids) && IdsOf(l.rows) == l.ids && Blank !in l.ids && SANDBOX !in l.ids
  {
    InStepFrom(bot, START, calls);
  }

  // Each row's parent is the sandbox page or an earlier row.
  ghost predicate Tree(rows: seq<Row>) {
    forall i :: 0 <= i < |rows| ==>
      rows[i].parent == SANDBOX || rows[i].parent in IdsOf(rows[..i])
  }

  lemma TreeGrows(rows: seq<Row>, row: Row)
    requires Tree(rows) && (row.parent == SANDBOX || row.parent in IdsOf(rows))
    ensures Tree(rows + [row])
  {
    var all := rows + [row];
    forall i | 0 <= i < |all| ensures all[i].parent == SANDBOX || all[i].parent in IdsOf(all[..i]) {
      if i < |rows| { assert all[..i] == rows[..i]; } else { assert all[..i] == rows; }
    }
  }

  // One row per call, in call order, under the page that call asked for.
  function Parents(rows: seq<Row>): seq<Id> {
    seq(|rows|, i requires 0 <= i < |rows| => rows[i].parent)
  }

  function AskedParents(calls: seq<Call>): seq<Id> {
    if calls == [] then [] else [calls[0].parent] + AskedParents(calls[1..])
  }

  lemma ParentsGrow(rows: seq<Row>, row: Row)
    ensures Parents(rows + [row]) == Parents(rows) + [row.parent]
  {
  }

  lemma CreatedGrows(bot: Bot, l: Ledger, c: Call)
    requires InStep(l) && Tree(l.rows) && Polite(l.ids, c.reply) && Create(bot, l, c).1.Created?
    ensures var next := Create(bot, l, c).0;
            InStep(next) && Tree(next.rows) && Parents(next.rows) == Parents(l.rows) + [c.parent]
  {
    CreatedAppends(bot, l, c);
    CreateKeepsStep(bot, l, c);
    var page := Create(bot, l, c).1.page;
    var row := Row(page.id, c.parent, page.url);
    TreeGrows(l.rows, row);
    ParentsGrow(l.rows, row);
  }

  lemma {:induction false} TreeFrom(bot: Bot, l: Ledger, calls: seq<Call>)
    requires InStep(l) && Tree(l.rows) && AllSucceed(bot, l, calls)
    ensures Tree(After(bot, l, calls).rows)
    ensures Parents(After(bot, l, calls).rows) == Parents(l.rows) + AskedParents(calls)
    decreases |calls|
  {
    if calls != [] {
      CreatedGrows(bot, l, calls[0]);
      TreeFrom(bot, Create(bot, l, calls[0]).0, calls[1..]);
    }
  }

  lemma SuccessfulRunIsATree(bot: Bot, calls: seq<Call>)
    requires AllSucceed(bot, START, calls)
    ensures var rows := After(bot, START, calls).rows;
            Tree(rows) && Parents(rows) == AskedParents(calls)
  {
    TreeFrom(bot, START, calls);
    assert Parents(START.rows) == [];
    assert [] + AskedParents(calls) == AskedParents(calls);
  }

  // ---- The tree is at most three pages deep ------------------------------------------

  // `id` reaches the sandbox page in at most n steps through the rows' parents.
  ghost predicate Within(rows: seq<Row>, id: Id, n: nat)
    decreases n
  {
    id == SANDBOX || (n > 0 && exists row <- rows :: row.id == id && Within(rows, row.parent, n - 1))
  }

  // Reads agree with the rows about where a listed page sits.
  ghost predicate Truthful(rows: seq<Row>, read: nat -> Option<Page>) {
    forall k: nat, row <- rows :: read(k).Some? && read(k).value.id == row.id ==> read(k).value.parent == row.parent
  }

  ghost predicate AllTruthful(bot: Bot, l: Ledger, calls: seq<Call>)
    decreases |calls|
  {
    calls == [] || (Truthful(l.rows, calls[0].read) && AllTruthful(bot, Create(bot, l, calls[0]).0, calls[1..]))
  }

  lemma {:induction false} WithinGrows(rows: seq<Row>, more: seq<Row>, id: Id, n: nat)
    requires Within(rows, id, n)
    ensures Within(rows + more, id, n)
    decreases n
  {
    if id != SANDBOX {
      var row :| row in rows && row.id == id && Within(rows, row.parent, n - 1);
      WithinGrows(rows, more, row.parent, n - 1);
      assert row in rows + more;
    }
  }

  lemma ParentListed(rows: seq<Row>, row: Row) returns (above: Row)
    requires Tree(rows) && row in rows && row.parent != SANDBOX
    ensures above in rows && above.id == row.parent
  {
    var i :| 0 <= i < |rows| && rows[i] == row;
    var j :| 0 <= j < i && IdsOf(rows[..i])[j] == row.parent;
    above := rows[j];
  }

  // The page is the sandbox page or sits where its row says.
  ghost predicate Placed(rows: seq<Row>, page: Page) {
    page.id == SANDBOX || exists row <- rows :: row.id == page.id && row.parent == page.parent
  }

  lemma NextPlaced(rows: seq<Row>, read: nat -> Option<Page>, k: nat, current: Page)
    requires Tree(rows) && Truthful(rows, read) && current.id != SANDBOX && Placed(rows, current)
    requires read(k).Some? && read(k).value.id == current.parent
    ensures Placed(rows, read(k).value)
  {
    var row :| row in rows && row.id == current.id && row.parent == current.parent;
    if row.parent != SANDBOX { var above := ParentListed(rows, row); }
  }

  // A walk that reaches the sandbox page from a listed page stays in the tree.
  lemma {:induction false} ChainClimbs(rows: seq<Row>, read: nat -> Option<Page>, k: nat, steps: nat,
                                       current: Page, seen: set<Id>)
    requires Tree(rows) && Truthful(rows, read) && Placed(rows, current)
    requires Chain(read, k, steps, current, seen) == Reached
    ensures steps > 0 && Within(rows, current.id, steps - 1)
    decreases steps
  {
    if current.id != SANDBOX {
      NextPlaced(rows, read, k, current);
      ChainClimbs(rows, read, k + 1, steps - 1, read(k).value, seen + {current.id});
    }
  }

  ghost predicate Shallow(rows: seq<Row>) { forall row <- rows :: Within(rows, row.id, 3) }

  lemma CreatedIsShallow(bot: Bot, l: Ledger, c: Call)
    requires InStep(l) && Polite(l.ids, c.reply) && Tree(l.rows) && Truthful(l.rows, c.read)
    requires Create(bot, l, c).1.Created?
    ensures Within(l.rows, c.parent, 2)
    ensures Shallow(l.rows) ==> Shallow(Create(bot, l, c).0.rows)
  {
    CreatedAppends(bot, l, c);
    var (next, r) := Create(bot, l, c);
    var above := c.read(1).value;
    assert above.id == c.parent;
    if above.id != SANDBOX {
      var i :| 0 <= i < |l.ids| && l.ids[i] == above.id;
      assert l.rows[i] in l.rows && l.rows[i].id == above.id;
    }
    assert Chain(c.read, 2, 3, above, {} + {r.page.id}) == Reached;
    ChainClimbs(l.rows, c.read, 2, 3, above, {} + {r.page.id});
    var added := next.rows[|l.rows|];
    WithinGrows(l.rows, [added], c.parent, 2);
    assert added in next.rows && Within(next.rows, added.id, 3);
    if Shallow(l.rows) {
      forall row | row in next.rows ensures Within(next.rows, row.id, 3) {
        if row in l.rows { WithinGrows(l.rows, [added], row.id, 3); }
      }
    }
  }

  lemma {:induction false} ShallowFrom(bot: Bot, l: Ledger, calls: seq<Call>)
    requires InStep(l) && Tree(l.rows) && Shallow(l.rows)
    requires AllSucceed(bot, l, calls) && AllTruthful(bot, l, calls)
    ensures Shallow(After(bot, l, calls).rows)
    decreases |calls|
  {
    if calls != [] {
      CreatedGrows(bot, l, calls[0]);
      CreatedIsShallow(bot, l, calls[0]);
      ShallowFrom(bot, Create(bot, l, calls[0]).0, calls[1..]);
    }
  }

  // Every page of a run whose calls all succeed hangs at most three levels below
  // the sandbox page.
  lemma SuccessfulRunIsShallow(bot: Bot, calls: seq<Call>)
    requires AllSucceed(bot, START, calls) && AllTruthful(bot, START, calls)
    ensures Shallow(After(bot, START, calls).rows)
  {
    ShallowFrom(bot, START, calls);
  }

  // ---- When an honest client's page is accepted ------------------------------------------

  predicate Sound(page: Page) { !Conflicts(page.space) && !page.archived }

  // From `current` on, each read answers with the parent page, where the rows put it.
  ghost predicate Answers(rows: seq<Row>, read: nat -> Option<Page>, k: nat, current: Page, n: nat)
    decreases n
  {
    n == 0 || current.id == SANDBOX ||
    (read(k).Some? && read(k).value.id == current.parent && Sound(read(k).value)
     && Placed(rows, read(k).value) && Answers(rows, read, k + 1, read(k).value, n - 1))
  }

  // The client returns a new page of this run under the page asked for, and
  // reads it and its ancestors back as they are.
  ghost predicate Honest(bot: Bot, l: Ledger, c: Call) {
    && Polite(l.ids, c.reply) && c.reply.Returns?
    && var page := c.reply.page;
       && page.id !in l.ids && page.id != SANDBOX && page.id != Blank && page.id != c.parent
       && page.parent == c.parent && Sound(page) && IsFresh(bot, page)
       && c.read(0) == Some(page)
       && Answers(l.rows, c.read, 1, page, 3) && Truthful(l.rows, c.read)
  }

  // The walk's seen set never stops a climb through a tree: it holds pages further down.
  ghost predicate Below(rows: seq<Row>, seen: set<Id>, page: Page) {
    page.id == SANDBOX ||
    exists i :: 0 <= i < |rows| && rows[i].id == page.id && rows[i].parent == page.parent
                && forall j :: 0 <= j <= i ==> rows[j].id !in seen
  }

  lemma BelowNext(rows: seq<Row>, seen: set<Id>, page: Page, next: Page)
    requires Tree(rows) && DupFree(IdsOf(rows)) && page.id != SANDBOX && Below(rows, seen, page)
    requires next.id == page.parent && Placed(rows, next)
    ensures Below(rows, seen + {page.id}, next)
  {
    var i :| 0 <= i < |rows| && rows[i].id == page.id && rows[i].parent == page.parent
             && forall j :: 0 <= j <= i ==> rows[j].id !in seen;
    if next.id != SANDBOX {
      var j :| 0 <= j < i && IdsOf(rows[..i])[j] == rows[i].parent;
      var row :| row in rows && row.id == next.id && row.parent == next.parent;
      var m :| 0 <= m < |rows| && rows[m] == row;
      assert IdsOf(rows)[m] == IdsOf(rows)[j] && m == j;
      forall q | 0 <= q <= j ensures rows[q].id !in seen + {page.id} {
        assert IdsOf(rows)[q] != IdsOf(rows)[i];
      }
    }
  }

  lemma {:induction false} ClimbReaches(rows: seq<Row>, read: nat -> Option<Page>, k: nat, n: nat,
                                        page: Page, seen: set<Id>)
    requires Tree(rows) && DupFree(IdsOf(rows)) && Blank !in IdsOf(rows)
    requires Below(rows, seen, page) && Sound(page)
    requires Within(rows, page.id, n) && Answers(rows, read, k, page, n)
    ensures Chain(read, k, n + 1, page, seen) == Reached
    decreases n
  {
    if page.id != SANDBOX {
      var next := read(k).value;
      BelowNext(rows, seen, page, next);
      StepUp(rows, seen, page, n);
      ClimbReaches(rows, read, k + 1, n - 1, next, seen + {page.id});
    }
  }

  // The page itself can be read, its parent is listed or the sandbox page, and one step nearer to it.
  lemma StepUp(rows: seq<Row>, seen: set<Id>, page: Page, n: nat)
    requires Tree(rows) && DupFree(IdsOf(rows)) && Blank !in IdsOf(rows)
    requires page.id != SANDBOX && Below(rows, seen, page) && Within(rows, page.id, n)
    ensures page.id != Blank && page.id !in seen && page.parent != Blank
    ensures n > 0 && Within(rows, page.parent, n - 1)
  {
    var i :| 0 <= i < |rows| && rows[i].id == page.id && rows[i].parent == page.parent
             && forall j :: 0 <= j <= i ==> rows[j].id !in seen;
    assert IdsOf(rows)[i] == page.id;
    var row :| row in rows && row.id == page.id && Within(rows, row.parent, n - 1);
    var m :| 0 <= m < |rows| && rows[m] == row;
    assert IdsOf(rows)[m] == IdsOf(rows)[i] && m == i;
    if page.parent != SANDBOX {
      var above := ParentListed(rows, row);
      var j :| 0 <= j < |rows| && rows[j] == above;
      assert IdsOf(rows)[j] == page.parent;
    }
  }

  lemma HonestChain(bot: Bot, l: Ledger, c: Call)
    requires InStep(l) && Tree(l.rows) && Asked(bot, l.ids, c) && Honest(bot, l, c)
    requires Within(l.rows, c.parent, 2)
    ensures Chain(c.read, 1, 4, c.reply.page, {}) == Reached
  {
    var page, next := c.reply.page, c.read(1).value;
    assert Below(l.rows, {page.id}, next) by {
      if next.id != SANDBOX {
        var row :| row in l.rows && row.id == next.id && row.parent == next.parent;
        var i :| 0 <= i < |l.rows| && l.rows[i] == row;
        forall j | 0 <= j <= i ensures l.rows[j].id !in {page.id} { assert l.ids[j] in l.ids; }
      }
    }
    assert {} + {page.id} == {page.id};
    ClimbReaches(l.rows, c.read, 2, 2, next, {page.id});
  }

  // An honest client's page is accepted exactly when it is asked for at most two
  // levels below the sandbox page.
  lemma HonestCreateSucceeds(bot: Bot, l: Ledger, c: Call)
    requires InStep(l) && Tree(l.rows) && Asked(bot, l.ids, c) && Honest(bot, l, c)
    ensures Create(bot, l, c).1.Created? <==> Within(l.rows, c.parent, 2)
  {
    if Create(bot, l, c).1.Created? { CreatedIsShallow(bot, l, c); }
    if Within(l.rows, c.parent, 2) {
      HonestChain(bot, l, c);
      AlignedOne(bot, l, c);
      var answered := Answered(Requested(l, c), Marker(c.parent, c.title));
      var a := Aligned(answered, c.reply.page, |l.ids|).0;
      assert Front(a.ids, |l.ids|) == l.ids;
      assert Create(bot, l, c) == Confirmed(bot, a, c.reply.page.id, c);
    }
  }

  // Every bot in the sandbox space can have a first page: the run theorems are about something.
  lemma SomeRunSucceeds(bot: Bot)
    requires bot.space == SANDBOX_SPACE
    ensures exists c: Call :: AllSucceed(bot, START, [c]) && AllTruthful(bot, START, [c])
  {
    var page := Page(Uuid(0), SANDBOX, Blank, "", false, bot.user, Some(Moment(true, bot.moment)));
    var root := page.(id := SANDBOX, parent := Blank);
    var c := Call(SANDBOX, "", Returns(page, []), (k: nat) => if k == 0 then Some(page) else Some(root));
    assert START.ids + IdsOf([]) == [];
    assert c.read(0) == Some(page) && c.read(1) == Some(root);
    HonestCreateSucceeds(bot, START, c);
    assert [c][0] == c && [c][1..] == [];
    assert AllSucceed(bot, START, [c]) && AllTruthful(bot, START, [c]);
  }
}

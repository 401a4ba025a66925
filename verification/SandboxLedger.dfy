/**
 The evidence ledger of a sandbox run: which pages the run created under the
 one asserted parent page, and which requests may have left a page behind.
 The client's answers are parameters of each call; what it appends to the
 run's lists before it answers is `published`.
 */
module SandboxLedger {
  import opened Options

  // A canonical page, parent or space identity: the 128 bits of a UUID, or
  // Blank for anything that is not one.
  datatype Id = Blank | Uuid(bits: nat)

  const SANDBOX: Id := Uuid(0x3ed82fb0_af94_80dc_8272_f40b16376b81)
  const SANDBOX_SPACE: Id := Uuid(0x89282fb0_af94_8106_809e_0003c027fa07)
  const MINUTE: int := 60000000

  // A created time in microseconds; `aware` is false when it has no time zone.
  datatype Moment = Moment(aware: bool, at: int)
  datatype Page = Page(id: Id, parent: Id, space: Id, url: string, archived: bool,
                       createdBy: string, createdAt: Option<Moment>)
  datatype Row = Row(id: Id, parent: Id, url: string)
  datatype Marker = Marker(parent: Id, title: string)
  datatype Reason = NotNew | SpaceConflict | Archived | ChainId | ChainSpace
  datatype Mark = Mark(id: Id, reason: Reason)

  datatype Reply = Raises(published: seq<Row>) | Returns(page: Page, published: seq<Row>)
  // One call: what is asked, what the create answers, what the k-th read answers.
  datatype Call = Call(parent: Id, title: string, reply: Reply, read: nat -> Option<Page>)
  datatype Outcome = Denied | Lost | Failed | Created(page: Page)

  // Fixed for the whole run.
  datatype Bot = Bot(user: string, space: Id, moment: int)

  // `sent` and `lost` are history: every request handed to the client, and
  // those whose answer never came.
  datatype Ledger = Ledger(ids: seq<Id>, rows: seq<Row>, rejected: seq<Id>, flagged: seq<Mark>,
                           orphans: seq<Marker>, writes: nat, sent: seq<Marker>, lost: seq<Marker>)

  const START := Ledger([], [], [], [], [], 0, [], [])

  // ---- List operations ------------------------------------------------------

  function Remove<T(==)>(s: seq<T>, x: T): seq<T> {
    if s == [] then [] else if s[0] == x then s[1..] else [s[0]] + Remove(s[1..], x)
  }

  function IndexOf<T(==)>(s: seq<T>, x: T): nat {
    if s == [] || s[0] == x then 0 else 1 + IndexOf(s[1..], x)
  }

  function Without(rows: seq<Row>, id: Id): seq<Row> {
    if rows == [] then []
    else if rows[0].id == id then Without(rows[1..], id)
    else [rows[0]] + Without(rows[1..], id)
  }

  function IdsOf(rows: seq<Row>): (ids: seq<Id>)
    ensures |ids| == |rows| && forall i :: 0 <= i < |rows| ==> ids[i] == rows[i].id
  {
    seq(|rows|, i requires 0 <= i < |rows| => rows[i].id)
  }

  predicate DupFree<T(==)>(s: seq<T>) {
    forall i, j :: 0 <= i < j < |s| ==> s[i] != s[j]
  }

  lemma {:induction false} RemoveAt<T>(s: seq<T>, k: nat)
    requires k < |s| && forall i :: 0 <= i < k ==> s[i] != s[k]
    ensures IndexOf(s, s[k]) == k
    ensures Remove(s, s[k]) == s[..k] + s[k + 1..]
  {
    if k > 0 {
      RemoveAt(s[1..], k - 1);
      assert s[1..][..k - 1] == s[1..k] && s[1..][k..] == s[k + 1..];
      assert s[..k] == [s[0]] + s[1..k];
    }
  }

  lemma {:induction false} RemoveOne<T>(s: seq<T>, x: T)
    ensures x in s ==> multiset(Remove(s, x)) == multiset(s) - multiset{x} && |Remove(s, x)| == |s| - 1
    ensures x !in s ==> Remove(s, x) == s
  {
    if s != [] {
      assert s == [s[0]] + s[1..];
      RemoveOne(s[1..], x);
    }
  }

  lemma {:induction false} WithoutAbsent(rows: seq<Row>, id: Id)
    requires forall i :: 0 <= i < |rows| ==> rows[i].id != id
    ensures Without(rows, id) == rows
  {
    if rows != [] { WithoutAbsent(rows[1..], id); }
  }

  lemma {:induction false} WithoutAt(rows: seq<Row>, k: nat)
    requires k < |rows| && forall i :: 0 <= i < |rows| && i != k ==> rows[i].id != rows[k].id
    ensures Without(rows, rows[k].id) == rows[..k] + rows[k + 1..]
  {
    if k == 0 {
      WithoutAbsent(rows[1..], rows[0].id);
    } else {
      WithoutAt(rows[1..], k - 1);
      assert rows[1..][..k - 1] == rows[1..k] && rows[1..][k..] == rows[k + 1..];
      assert rows[..k] == [rows[0]] + rows[1..k];
    }
  }

  lemma {:induction false} WithoutMeans(rows: seq<Row>, id: Id)
    ensures forall i :: 0 <= i < |Without(rows, id)| ==> Without(rows, id)[i].id != id
  {
    if rows != [] { WithoutMeans(rows[1..], id); }
  }

  // ---- The ledger's own operations -------------------------------------------

  predicate Conflicts(space: Id) { space != Blank && space != SANDBOX_SPACE }

  predicate Allowed(ids: seq<Id>, parent: Id) {
    parent != Blank && (parent == SANDBOX || parent in ids)
  }

  predicate IsFresh(bot: Bot, page: Page) {
    && page.createdBy == bot.user
    && page.createdAt.Some? && page.createdAt.value.aware
    && bot.moment - bot.moment % MINUTE - 2 * MINUTE <= page.createdAt.value.at <= bot.moment + 2 * MINUTE
  }

  function Drop(l: Ledger, id: Id): Ledger {
    if id == Blank || id !in l.ids then l
    else l.(ids := Remove(l.ids, id), rows := Without(l.rows, id))
  }

  function DropTail(l: Ledger, id: Id, before: nat): Ledger {
    if id !in l.ids || IndexOf(l.ids, id) < before then l else Drop(l, id)
  }

  function Flag(l: Ledger, id: Id, reason: Reason): Ledger {
    if id == Blank || Mark(id, reason) in l.flagged then l
    else l.(flagged := l.flagged + [Mark(id, reason)])
  }

  function Remember(l: Ledger, page: Page): Ledger {
    if page.id == Blank || page.id in l.ids then l
    else l.(ids := l.ids + [page.id], rows := l.rows + [Row(page.id, page.parent, page.url)])
  }

  function Reject(l: Ledger, id: Id): Ledger {
    l.(ids := Remove(l.ids, id), rows := Without(l.rows, id),
       rejected := if id == Blank || id in l.rejected then l.rejected else l.rejected + [id])
  }

  // Drop what the client published after the returned page, newest first;
  // the flag is false when the list did not shrink.
  function Trim(l: Ledger, id: Id, before: nat): (Ledger, bool)
    decreases |l.ids|
  {
    if |l.ids| <= before || l.ids[|l.ids| - 1] == id then (l, true)
    else
      var smaller := DropTail(l, l.ids[|l.ids| - 1], before);
      if |smaller.ids| >= |l.ids| then (l, false) else Trim(smaller, id, before)
  }

  // One turn of the loop: the tail goes, or the list does not shrink.
  lemma TrimStep(l: Ledger, id: Id, before: nat)
    requires |l.ids| > before && l.ids[|l.ids| - 1] != id
    ensures var d := DropTail(l, l.ids[|l.ids| - 1], before);
            if |d.ids| >= |l.ids| then Trim(l, id, before) == (d, false)
            else |d.ids| == |l.ids| - 1 && Trim(l, id, before) == Trim(d, id, before)
  {
    RemoveOne(l.ids, l.ids[|l.ids| - 1]);
  }

  function Aligned(l: Ledger, page: Page, before: nat): (Ledger, bool) {
    var (trimmed, shrank) := Trim(l, page.id, before);
    if !shrank then (trimmed, false)
    else if !Conflicts(page.space) then (Remember(trimmed, page), true)
    else if page.id in Front(trimmed.ids, before) then (Drop(trimmed, page.id), true)
    else (Flag(Remember(trimmed, page), page.id, SpaceConflict), true)
  }

  // Python's s[:n].
  function Front<T>(s: seq<T>, n: nat): seq<T> { if n <= |s| then s[..n] else s }

  datatype Climb = Reached | Broken | Marked(reason: Reason)

  // The walk up from `current`; `k` is the number of reads made so far.
  function Chain(read: nat -> Option<Page>, k: nat, steps: nat, current: Page, seen: set<Id>): Climb
    decreases steps
  {
    if steps == 0 then Broken
    else if current.id == SANDBOX then
      if Conflicts(current.space) || current.archived then Marked(ChainSpace) else Reached
    else if current.parent == Blank || current.id == Blank || current.id in seen then Broken
    else
      match read(k)
      case None => Broken
      case Some(next) =>
        if next.id != current.parent then Marked(ChainId)
        else if Conflicts(next.space) || next.archived then Marked(ChainSpace)
        else Chain(read, k + 1, steps - 1, next, seen + {current.id})
  }

  // The confirming read and the walk, once the returned page has passed.
  function Confirmed(bot: Bot, l: Ledger, id: Id, c: Call): (Ledger, Outcome) {
    match c.read(0)
    case None => (l, Failed)
    case Some(page) =>
      if page.id != id || page.parent != c.parent then (l, Failed)
      else if Conflicts(page.space) || page.archived then
        (Flag(l, id, if page.archived then Archived else SpaceConflict), Failed)
      else if !IsFresh(bot, page) then (Reject(l, id), Failed)
      else
        match Chain(c.read, 1, 4, page, {})
        case Broken => (l, Failed)
        case Marked(reason) => (Flag(l, id, reason), Failed)
        case Reached => (Settled(l, page), Created(page))
  }

  function Settled(l: Ledger, page: Page): Ledger {
    if |l.rows| > 0 && l.rows[|l.rows| - 1].id == page.id
    then l.(rows := l.rows[|l.rows| - 1 := Row(page.id, page.parent, page.url)])
    else l
  }

  function Judged(bot: Bot, l: Ledger, before: nat, page: Page, c: Call): (Ledger, Outcome) {
    if page.id == Blank || page.id == SANDBOX then (Drop(l, page.id), Failed)
    else if page.id == c.parent then (Flag(l, page.id, NotNew), Failed)
    else if page.id in Front(l.ids, before) then (l, Failed)
    else if Conflicts(page.space) then (Flag(l, page.id, SpaceConflict), Failed)
    else if page.parent != c.parent then (l, Failed)
    else if !IsFresh(bot, page) then (Reject(l, page.id), Failed)
    else Confirmed(bot, l, page.id, c)
  }

  predicate Asked(bot: Bot, ids: seq<Id>, c: Call) {
    Allowed(ids, c.parent) && bot.space == SANDBOX_SPACE
  }

  // The request is noted, and the client has appended what it publishes.
  function Requested(l: Ledger, c: Call): Ledger {
    l.(orphans := l.orphans + [Marker(c.parent, c.title)], sent := l.sent + [Marker(c.parent, c.title)],
       ids := l.ids + IdsOf(c.reply.published), rows := l.rows + c.reply.published)
  }

  function Answered(l: Ledger, m: Marker): Ledger {
    l.(orphans := Remove(l.orphans, m), writes := l.writes + 1)
  }

  function Create(bot: Bot, l: Ledger, c: Call): (Ledger, Outcome) {
    if !Asked(bot, l.ids, c) then (l, Denied)
    else
      var m := Marker(c.parent, c.title);
      var asked := Requested(l, c);
      match c.reply
      case Raises(_) => (asked.(lost := asked.lost + [m]), Lost)
      case Returns(page, _) =>
        var (lined, ok) := Aligned(Answered(asked, m), page, |l.ids|);
        if !ok then (lined, Failed) else Judged(bot, lined, |l.ids|, page, c)
  }

  // ---- Every request is accounted for ------------------------------------------

  // Requests handed over are the counted creates plus the possible orphans, and
  // the possible orphans are exactly the requests whose answer never came.
  ghost predicate Balanced(l: Ledger) {
    |l.sent| == l.writes + |l.orphans| && multiset(l.orphans) == multiset(l.lost)
  }

  ghost predicate SameAccount(a: Ledger, b: Ledger) {
    a.orphans == b.orphans && a.writes == b.writes && a.sent == b.sent && a.lost == b.lost
  }

  lemma {:induction false} TrimAccount(l: Ledger, id: Id, before: nat)
    ensures SameAccount(l, Trim(l, id, before).0)
    decreases |l.ids|
  {
    if |l.ids| > before && l.ids[|l.ids| - 1] != id {
      var smaller := DropTail(l, l.ids[|l.ids| - 1], before);
      if |smaller.ids| < |l.ids| { TrimAccount(smaller, id, before); }
    }
  }

  lemma AlignedAccount(l: Ledger, page: Page, before: nat)
    ensures SameAccount(l, Aligned(l, page, before).0)
  {
    TrimAccount(l, page.id, before);
  }

  lemma JudgedAccount(bot: Bot, l: Ledger, before: nat, page: Page, c: Call)
    ensures SameAccount(l, Judged(bot, l, before, page, c).0)
  {
  }

  lemma CreateBalanced(bot: Bot, l: Ledger, c: Call)
    requires Balanced(l)
    ensures Balanced(Create(bot, l, c).0)
  {
    var m := Marker(c.parent, c.title);
    var asked := Requested(l, c);
    RemoveOne(asked.orphans, m);
    if Asked(bot, l.ids, c) && c.reply.Returns? {
      var answered := Answered(asked, m);
      AlignedAccount(answered, c.reply.page, |l.ids|);
      JudgedAccount(bot, Aligned(answered, c.reply.page, |l.ids|).0, |l.ids|, c.reply.page, c);
      assert multiset(answered.orphans) == multiset(l.orphans);
    }
  }

  // ---- Identities and rows stay in step ------------------------------------------

  ghost predicate Paired(l: Ledger) {
    DupFree(l.ids) && Blank !in l.ids && IdsOf(l.rows) == l.ids
  }

  ghost predicate InStep(l: Ledger) { Paired(l) && SANDBOX !in l.ids }

  // What the client may append: new identities, never twice, never blank, and
  // the sandbox page itself only as the page it returns.
  ghost predicate Clean(ids: seq<Id>, reply: Reply) {
    var news := IdsOf(reply.published);
    DupFree(ids + news) && Blank !in news && (SANDBOX in news ==> reply.Returns? && reply.page.id == SANDBOX)
  }

  // The client appends at most the page it returns.
  ghost predicate OnlyReturned(reply: Reply) {
    |reply.published| <= 1 && (reply.Returns? ==> forall row <- reply.published :: row.id == reply.page.id)
  }

  // How the live client publishes the page it has just parsed.
  function Publish(ids: seq<Id>, page: Page): seq<Row> {
    if page.id == Blank || Conflicts(page.space) || page.id in ids then []
    else [Row(page.id, page.parent, page.url)]
  }

  lemma LiveClientIsClean(ids: seq<Id>, page: Page)
    requires DupFree(ids)
    ensures var reply := Returns(page, Publish(ids, page)); OnlyReturned(reply) && Clean(ids, reply)
  {
    assert ids + [] == ids;
  }

  lemma {:induction false} DropPaired(l: Ledger, k: nat)
    requires Paired(l) && k < |l.ids|
    ensures var d := Drop(l, l.ids[k]);
            && d.ids == l.ids[..k] + l.ids[k + 1..] && d.rows == l.rows[..k] + l.rows[k + 1..]
            && Paired(d) && l.ids[k] !in d.ids && IndexOf(l.ids, l.ids[k]) == k
  {
    RemoveAt(l.ids, k);
    WithoutAt(l.rows, k);
  }

  // Dropping any identity keeps the two lists in step and takes it out.
  lemma DropAny(l: Ledger, id: Id)
    requires Paired(l)
    ensures Paired(Drop(l, id)) && id !in Drop(l, id).ids
    ensures forall x <- Drop(l, id).ids :: x in l.ids
  {
    if id in l.ids {
      var k :| 0 <= k < |l.ids| && l.ids[k] == id;
      DropPaired(l, k);
    }
  }

  lemma RejectIsDrop(l: Ledger, id: Id)
    requires Paired(l)
    ensures Reject(l, id).ids == Drop(l, id).ids && Reject(l, id).rows == Drop(l, id).rows
  {
    if id !in l.ids {
      RemoveOne(l.ids, id);
      forall i | 0 <= i < |l.rows| ensures l.rows[i].id != id {
        assert l.rows[i].id == l.ids[i];
      }
      WithoutAbsent(l.rows, id);
    }
  }

  function Cut(l: Ledger, n: nat): Ledger
    requires n <= |l.ids| && n <= |l.rows|
  {
    l.(ids := l.ids[..n], rows := l.rows[..n])
  }

  lemma CutPaired(l: Ledger, n: nat)
    requires Paired(l) && n <= |l.ids|
    ensures Paired(Cut(l, n))
    ensures forall x <- Cut(l, n).ids :: x in l.ids
  {
  }

  lemma DropLast(l: Ledger, before: nat)
    requires Paired(l) && before < |l.ids|
    ensures var n := |l.ids| - 1; DropTail(l, l.ids[n], before) == Cut(l, n) && Paired(Cut(l, n))
  {
    var n := |l.ids| - 1;
    DropPaired(l, n);
    assert l.ids[n + 1..] == [] && l.rows[n + 1..] == [];
  }

  lemma DropCut(l: Ledger, before: nat, n: nat)
    requires Paired(l) && before < n <= |l.ids|
    ensures var c := Cut(l, n); c.ids[n - 1] == l.ids[n - 1] && DropTail(c, c.ids[n - 1], before) == Cut(l, n - 1)
  {
    CutPaired(l, n);
    DropLast(Cut(l, n), before);
    assert Cut(Cut(l, n), n - 1) == Cut(l, n - 1);
  }

  // How far the first n identities are kept: up to the returned page if it is
  // among those published, else up to what was there before.
  function Kept(ids: seq<Id>, id: Id, before: nat, n: nat): (m: nat)
    requires before <= n <= |ids|
    ensures before <= m <= n && (m == before || ids[m - 1] == id)
    ensures id !in ids[m..n]
  {
    if n == before || ids[n - 1] == id then n else Kept(ids, id, before, n - 1)
  }

  lemma TrimStops(l: Ledger, id: Id, before: nat)
    requires |l.ids| <= before || l.ids[|l.ids| - 1] == id
    ensures Trim(l, id, before) == (l, true)
  {
  }

  lemma TrimOne(l: Ledger, id: Id, before: nat, n: nat)
    requires Paired(l) && before < n <= |l.ids| && l.ids[n - 1] != id
    ensures Trim(Cut(l, n), id, before) == Trim(Cut(l, n - 1), id, before)
  {
    DropCut(l, before, n);
    TrimStep(Cut(l, n), id, before);
  }

  // The trimming loop cuts both lists to that one prefix.
  lemma {:induction false} TrimCuts(l: Ledger, id: Id, before: nat, n: nat)
    requires Paired(l) && before <= n <= |l.ids|
    ensures Trim(Cut(l, n), id, before) == (Cut(l, Kept(l.ids, id, before, n)), true)
    decreases n
  {
    if n == before || l.ids[n - 1] == id {
      TrimStops(Cut(l, n), id, before);
    } else {
      TrimOne(l, id, before, n);
      TrimCuts(l, id, before, n - 1);
    }
  }

  lemma TrimKeeps(l: Ledger, id: Id, before: nat)
    requires Paired(l) && before <= |l.ids|
    ensures Trim(l, id, before) == (Cut(l, Kept(l.ids, id, before, |l.ids|)), true)
  {
    assert Cut(l, |l.ids|) == l;
    TrimCuts(l, id, before, |l.ids|);
  }

  lemma RememberPaired(l: Ledger, page: Page)
    requires Paired(l)
    ensures Paired(Remember(l, page))
    ensures forall x <- Remember(l, page).ids :: x in l.ids || x == page.id
  {
  }

  ghost predicate OnlySandboxIf(l: Ledger, id: Id) { SANDBOX in l.ids ==> id == SANDBOX }

  // Alignment leaves the trimmed lists with the page dropped or remembered.
  lemma AlignedCases(l: Ledger, t: Ledger, page: Page, before: nat)
    requires Trim(l, page.id, before) == (t, true)
    ensures var (a, ok) := Aligned(l, page, before);
            ok && (SameLists(a, Drop(t, page.id)) || SameLists(a, Remember(t, page)))
  {
  }

  ghost predicate SameLists(a: Ledger, b: Ledger) { a.ids == b.ids && a.rows == b.rows }

  lemma AlignedPaired(l: Ledger, page: Page, before: nat)
    requires Paired(l) && before <= |l.ids|
    ensures var (a, ok) := Aligned(l, page, before);
            ok && Paired(a) && forall x <- a.ids :: x in l.ids || x == page.id
  {
    TrimKeeps(l, page.id, before);
    var n := Kept(l.ids, page.id, before, |l.ids|);
    CutPaired(l, n);
    var t := Cut(l, n);
    DropAny(t, page.id);
    RememberPaired(t, page);
    AlignedCases(l, t, page, before);
  }

  lemma JudgedInStep(bot: Bot, l: Ledger, before: nat, page: Page, c: Call)
    requires Paired(l) && OnlySandboxIf(l, page.id)
    ensures InStep(Judged(bot, l, before, page, c).0)
  {
    DropAny(l, page.id);
    RejectIsDrop(l, page.id);
  }

  lemma RequestedPaired(l: Ledger, c: Call)
    requires InStep(l) && Clean(l.ids, c.reply)
    ensures Paired(Requested(l, c))
    ensures SANDBOX in Requested(l, c).ids ==> c.reply.Returns? && c.reply.page.id == SANDBOX
  {
    assert IdsOf(l.rows + c.reply.published) == IdsOf(l.rows) + IdsOf(c.reply.published);
  }

  lemma CreateKeepsStep(bot: Bot, l: Ledger, c: Call)
    requires InStep(l) && Clean(l.ids, c.reply)
    ensures InStep(Create(bot, l, c).0)
  {
    if Asked(bot, l.ids, c) {
      RequestedPaired(l, c);
      if c.reply.Returns? {
        var answered := Answered(Requested(l, c), Marker(c.parent, c.title));
        AlignedPaired(answered, c.reply.page, |l.ids|);
        JudgedInStep(bot, Aligned(answered, c.reply.page, |l.ids|).0, |l.ids|, c.reply.page, c);
      }
    }
  }

  // For a client that appends at most the page it returns, the condition is
  // exact: a page published a second time, or a blank one, breaks the step.
  lemma UncleanBreaksStep(bot: Bot, l: Ledger, c: Call)
    requires InStep(l) && Asked(bot, l.ids, c) && OnlyReturned(c.reply) && !Clean(l.ids, c.reply)
    ensures !InStep(Create(bot, l, c).0)
  {
    var asked := Requested(l, c);
    var news := IdsOf(c.reply.published);
    assert l.ids + [] == l.ids;
    assert |c.reply.published| == 1;
    var id := news[0];
    assert asked.ids == l.ids + [id] && asked.rows == l.rows + [c.reply.published[0]];
    assert asked.ids[|l.ids|] == id;
    if c.reply.Returns? {
      var answered := Answered(asked, Marker(c.parent, c.title));
      assert Trim(answered, id, |l.ids|) == (answered, true);
      if id != Blank {
        TwiceListed(bot, l, answered, c);
      }
    }
  }

  // "Created ids stay duplicate-free" is false: one page, published again by a second create.
  lemma PublishedTwice(bot: Bot)
    requires bot.space == SANDBOX_SPACE
    ensures exists l: Ledger, c: Call ::
              && InStep(l) && Asked(bot, l.ids, c) && OnlyReturned(c.reply) && !Clean(l.ids, c.reply)
              && !InStep(Create(bot, l, c).0)
  {
    var row := Row(Uuid(0), SANDBOX, "");
    var l := START.(ids := [Uuid(0)], rows := [row]);
    var page := Page(Uuid(0), SANDBOX, Blank, "", false, bot.user, None);
    var c := Call(SANDBOX, "", Returns(page, [row]), (k: nat) => None);
    var twice := l.ids + IdsOf([row]);
    assert twice[0] == twice[1];
    UncleanBreaksStep(bot, l, c);
  }

  ghost predicate Doubled(l: Ledger, d: Ledger, id: Id) {
    id in l.ids && d.ids == l.ids + [id]
  }

  // Dropping a doubled identity leaves one copy and no row for it.
  lemma DropDoubled(l: Ledger, d: Ledger, id: Id)
    requires DupFree(l.ids) && Doubled(l, d, id) && id != Blank
    ensures !Paired(d) && !Paired(Drop(d, id))
    ensures |Drop(d, id).ids| == |l.ids| && id in Drop(d, id).ids
  {
    var k :| 0 <= k < |l.ids| && l.ids[k] == id;
    assert d.ids[k] == id && d.ids[|l.ids|] == id;
    RemoveAt(d.ids, k);
    WithoutMeans(d.rows, id);
    var e := Drop(d, id);
    var n := |l.ids| - 1;
    assert e.ids[n] == id;
    assert forall i :: 0 <= i < |IdsOf(e.rows)| ==> IdsOf(e.rows)[i] != id;
  }

  lemma TwiceListed(bot: Bot, l: Ledger, d: Ledger, c: Call)
    requires InStep(l) && c.reply.Returns? && c.reply.page.id != Blank && Doubled(l, d, c.reply.page.id)
    ensures var (a, ok) := Aligned(d, c.reply.page, |l.ids|);
            ok && !InStep(Judged(bot, a, |l.ids|, c.reply.page, c).0)
  {
    var id := c.reply.page.id;
    DropDoubled(l, d, id);
    assert Front(d.ids, |l.ids|) == l.ids;
    assert Trim(d, id, |l.ids|) == (d, true);
    var a := Aligned(d, c.reply.page, |l.ids|).0;
    assert a == if Conflicts(c.reply.page.space) then Drop(d, id) else d;
    assert id in Front(a.ids, |l.ids|);
  }
}

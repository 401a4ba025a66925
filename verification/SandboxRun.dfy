/**
 The run object whose lists each create appends to and removes from, proved
 against the ledger functions.
 */
module SandboxRun {
  import opened Options
  import opened SandboxLedger
  import opened SandboxTree
  import SandboxCalls
  import SandboxMeaning

  class Run {
    const bot: Bot
    var createdIds: seq<Id>
    var created: seq<Row>
    var rejectedPages: seq<Id>
    var flaggedPages: seq<Mark>
    var possibleOrphans: seq<Marker>
    var writeCount: nat
    // History: requests handed to the client, and those it did not answer.
    ghost var sent: seq<Marker>
    ghost var lost: seq<Marker>

    constructor (bot: Bot)
      ensures Value() == START && this.bot == bot
    {
      this.bot := bot;
      createdIds, created, rejectedPages, flaggedPages, possibleOrphans := [], [], [], [], [];
      writeCount, sent, lost := 0, [], [];
    }

    ghost function Value(): Ledger
      reads this
    {
      Ledger(createdIds, created, rejectedPages, flaggedPages, possibleOrphans, writeCount, sent, lost)
    }

    method DropRecorded(id: Id)
      modifies this
      ensures Value() == Drop(old(Value()), id)
    {
      if id == Blank || id !in createdIds { return; }
      createdIds := Remove(createdIds, id);
      created := Without(created, id);
    }

    method DropPublished(id: Id, before: nat)
      modifies this
      ensures Value() == DropTail(old(Value()), id, before)
    {
      if id !in createdIds { return; }
      if IndexOf(createdIds, id) < before { return; }
      DropRecorded(id);
    }

    method FlagPage(id: Id, reason: Reason)
      modifies this
      ensures Value() == Flag(old(Value()), id, reason)
    {
      if id == Blank { return; }
      for i := 0 to |flaggedPages|
        invariant Value() == old(Value())
        invariant forall j :: 0 <= j < i ==> flaggedPages[j] != Mark(id, reason)
      {
        if flaggedPages[i] == Mark(id, reason) { return; }
      }
      flaggedPages := flaggedPages + [Mark(id, reason)];
    }

    method RememberPage(page: Page)
      modifies this
      ensures Value() == Remember(old(Value()), page)
    {
      if page.id == Blank || page.id in createdIds { return; }
      createdIds := createdIds + [page.id];
      created := created + [Row(page.id, page.parent, page.url)];
    }

    method RejectUnfresh(id: Id)
      modifies this
      ensures Value() == Reject(old(Value()), id)
    {
      RemoveOne(createdIds, id);
      if id in createdIds { createdIds := Remove(createdIds, id); }
      created := Without(created, id);
      if id != Blank && id !in rejectedPages { rejectedPages := rejectedPages + [id]; }
    }

    // Drops published identities from the tail until it is the returned page or
    // nothing published is left; false when the list does not shrink.
    method TrimPublished(id: Id, before: nat) returns (ok: bool)
      modifies this
      ensures (Value(), ok) == Trim(old(Value()), id, before)
    {
      var remaining := if |createdIds| > before then |createdIds| - before else 0;
      for step := 0 to remaining + 1
        invariant |createdIds| <= before + remaining - step || (step == 0 && |createdIds| <= before)
        invariant Trim(Value(), id, before) == Trim(old(Value()), id, before)
      {
        if |createdIds| <= before { return true; }
        var tail := createdIds[|createdIds| - 1];
        if tail == id { return true; }
        TrimStep(Value(), id, before);
        var length := |createdIds|;
        DropPublished(tail, before);
        if |createdIds| >= length { return false; }
      }
      ok := |createdIds| <= before;
    }

    method AlignPage(page: Page, before: nat) returns (ok: bool)
      modifies this
      ensures (Value(), ok) == Aligned(old(Value()), page, before)
    {
      ok := TrimPublished(page.id, before);
      if !ok { return; }
      if Conflicts(page.space) {
        if page.id in Front(createdIds, before) {
          DropRecorded(page.id);
          return;
        }
        RememberPage(page);
        FlagPage(page.id, SpaceConflict);
        return;
      }
      RememberPage(page);
    }

    method ChainReachesSandbox(page: Page, read: nat -> Option<Page>) returns (ok: bool)
      modifies this
      ensures match Chain(read, 1, 4, page, {})
              case Reached => ok && Value() == old(Value())
              case Broken => !ok && Value() == old(Value())
              case Marked(reason) => !ok && Value() == Flag(old(Value()), page.id, reason)
    {
      var current, seen := page, {};
      for step := 0 to 4
        invariant Value() == old(Value())
        invariant Chain(read, 1 + step, 4 - step, current, seen) == Chain(read, 1, 4, page, {})
      {
        if current.id == SANDBOX {
          if Conflicts(current.space) || current.archived {
            FlagPage(page.id, ChainSpace);
            return false;
          }
          return true;
        }
        if current.parent == Blank || current.id == Blank || current.id in seen { return false; }
        var answer := read(1 + step);
        if answer.None? { return false; }
        var next := answer.value;
        if next.id != current.parent {
          FlagPage(page.id, ChainId);
          return false;
        }
        if Conflicts(next.space) || next.archived {
          FlagPage(page.id, ChainSpace);
          return false;
        }
        seen := seen + {current.id};
        current := next;
      }
      ok := false;
    }

    method ConfirmPage(id: Id, c: Call) returns (r: Outcome)
      modifies this
      ensures (Value(), r) == Confirmed(bot, old(Value()), id, c)
    {
      var answer := c.read(0);
      if answer.None? { return Failed; }
      var page := answer.value;
      if page.id != id || page.parent != c.parent { return Failed; }
      if Conflicts(page.space) || page.archived {
        FlagPage(id, if page.archived then Archived else SpaceConflict);
        return Failed;
      }
      if !IsFresh(bot, page) {
        RejectUnfresh(page.id);
        return Failed;
      }
      var ok := ChainReachesSandbox(page, c.read);
      if !ok { return Failed; }
      if |created| > 0 && created[|created| - 1].id == id {
        created := created[|created| - 1 := Row(id, page.parent, page.url)];
      }
      r := Created(page);
    }

    // Asks the client for a page under c.parent and records what came of it.
    method CreateUnder(c: Call) returns (r: Outcome)
      modifies this
      ensures (Value(), r) == Create(bot, old(Value()), c)
      ensures old(InStep(Value())) && old(SandboxCalls.Polite(createdIds, c.reply)) ==>
                SandboxMeaning.Judgement(bot, old(Value()), c, (Value(), r)) && SandboxMeaning.Lists(bot, old(Value()), c, Value())
    {
      if InStep(Value()) && SandboxCalls.Polite(createdIds, c.reply) {
        SandboxMeaning.CreateMeans(bot, Value(), c);
        SandboxMeaning.ListsMean(bot, Value(), c);
      }
      if !Allowed(createdIds, c.parent) { return Denied; }
      if bot.space != SANDBOX_SPACE { return Denied; }
      var before := |createdIds|;
      var marker := Marker(c.parent, c.title);
      possibleOrphans := possibleOrphans + [marker];
      sent := sent + [marker];
      createdIds := createdIds + IdsOf(c.reply.published);
      created := created + c.reply.published;
      assert Value() == Requested(old(Value()), c);
      if c.reply.Raises? {
        lost := lost + [marker];
        return Lost;
      }
      possibleOrphans := Remove(possibleOrphans, marker);
      writeCount := writeCount + 1;
      var page := c.reply.page;
      ghost var answered := Answered(Requested(old(Value()), c), marker);
      assert Value() == answered;
      var ok := AlignPage(page, before);
      if !ok { return Failed; }
      r := JudgePage(page, before, c);
    }

    method JudgePage(page: Page, before: nat, c: Call) returns (r: Outcome)
      modifies this
      ensures (Value(), r) == Judged(bot, old(Value()), before, page, c)
    {
      if page.id == Blank || page.id == SANDBOX {
        DropRecorded(page.id);
        return Failed;
      }
      if page.id == c.parent {
        FlagPage(page.id, NotNew);
        return Failed;
      }
      if page.id in Front(createdIds, before) { return Failed; }
      if Conflicts(page.space) {
        FlagPage(page.id, SpaceConflict);
        return Failed;
      }
      if page.parent != c.parent { return Failed; }
      if !IsFresh(bot, page) {
        RejectUnfresh(page.id);
        return Failed;
      }
      r := ConfirmPage(page.id, c);
    }

    // Any sequence of creates: every request is accounted for, whatever the
    // client answers, and the lists stay in step while it publishes cleanly.
    method CreateAll(calls: seq<Call>) returns (outcomes: seq<Outcome>)
      requires Value() == START
      modifies this
      ensures Value() == After(bot, START, calls) && |outcomes| == |calls|
      ensures |sent| == writeCount + |possibleOrphans|
      ensures AllClean(bot, START, calls) ==> DupFree(createdIds) && IdsOf(created) == createdIds
    {
      outcomes := [];
      for i := 0 to |calls|
        invariant |outcomes| == i
        invariant After(bot, Value(), calls[i..]) == After(bot, START, calls)
      {
        assert calls[i..][0] == calls[i] && calls[i..][1..] == calls[i + 1..];
        var r := CreateUnder(calls[i]);
        outcomes := outcomes + [r];
      }
      RequestsAccountedFor(bot, calls);
      if AllClean(bot, START, calls) { RunStaysInStep(bot, calls); }
    }
  }
}

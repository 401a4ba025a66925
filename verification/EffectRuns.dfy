/**
 Whole runs: any interleaving of executors on any number of keys, with clocks,
 lease claims, lease expiry and arbitrary rewrites of the job rows in between.
 */
module EffectRuns {
  import opened Options
  import opened EffectTables
  import opened EffectProtocol
  import opened EffectInvariant

  datatype System = System(now: int, jobs: map<JobId, Job>, keys: map<Key, KeyState>)

  datatype Event =
    | OnKey(key: Key, step: Step)
    | Tick(seconds: nat)
    | Claim(jobId: JobId, owner: string)      // claim_build_job
    | Expire(jobId: JobId, owner: string)     // the finally block of the command
    | SetJob(jobId: JobId, job: Job)          // cancellation, release, another scheduler: anything at all

  function At(sys: System, key: Key): KeyState {
    if key in sys.keys then sys.keys[key] else INITIAL
  }

  predicate Possible(sys: System, ev: Event) {
    match ev
    case OnKey(key, step) => Enabled(At(sys, key), step)
    case Claim(id, owner) => id in sys.jobs && ClaimTx(sys.jobs[id], owner, sys.now).Some?
    case Expire(id, _) => id in sys.jobs
    case _ => true
  }

  function After(sys: System, ev: Event): System
    requires Possible(sys, ev)
  {
    match ev
    case OnKey(key, step) =>
      sys.(keys := sys.keys[key := Apply(Env(key, sys.jobs, sys.now), At(sys, key), step)])
    case Tick(seconds) => sys.(now := sys.now + seconds)
    case Claim(id, owner) => sys.(jobs := sys.jobs[id := ClaimTx(sys.jobs[id], owner, sys.now).value])
    case Expire(id, owner) => sys.(jobs := sys.jobs[id := ExpireTx(sys.jobs[id], owner, sys.now)])
    case SetJob(id, job) => sys.(jobs := sys.jobs[id := job])
  }

  predicate IsRun(sys: System, run: seq<Event>)
    decreases |run|
  {
    run == [] || (Possible(sys, run[0]) && IsRun(After(sys, run[0]), run[1..]))
  }

  function End(sys: System, run: seq<Event>): System
    requires IsRun(sys, run)
    decreases |run|
  {
    if run == [] then sys else End(After(sys, run[0]), run[1..])
  }

  ghost predicate SysInv(sys: System) {
    forall key :: Inv(At(sys, key))
  }

  /** A system in which no effect has been reserved yet, whatever its clock and jobs. */
  ghost predicate Start(sys: System) {
    sys.keys == map[]
  }

  lemma EventInv(sys: System, ev: Event)
    requires SysInv(sys) && Possible(sys, ev)
    ensures SysInv(After(sys, ev))
  {
    var sys' := After(sys, ev);
    forall key ensures Inv(At(sys', key)) {
      assert Inv(At(sys, key));
      if ev.OnKey? && ev.key == key {
        StepInv(Env(key, sys.jobs, sys.now), At(sys, key), ev.step);
      }
    }
  }

  lemma {:induction false} RunInv(sys: System, run: seq<Event>)
    requires SysInv(sys) && IsRun(sys, run)
    ensures SysInv(End(sys, run))
    decreases |run|
  {
    if run != [] {
      EventInv(sys, run[0]);
      RunInv(After(sys, run[0]), run[1..]);
    }
  }

  lemma StartInv(sys: System)
    requires Start(sys)
    ensures SysInv(sys)
  {
    InitialInv();
  }

  // ------------------------------------------------------------ at most one write

  /** The provider accepts at most one write per idempotency key, over every run. */
  lemma AtMostOneWrite(sys: System, run: seq<Event>, key: Key)
    requires Start(sys) && IsRun(sys, run)
    ensures |At(End(sys, run), key).landed| <= 1
  {
    StartInv(sys);
    RunInv(sys, run);
    assert Inv(At(End(sys, run), key));
  }

  /**
   At most one executor holds the right to create. While the latest attempt is
   ABSENT nobody holds it, nothing is in flight and nothing was ever written.
   */
  lemma OneRight(sys: System, run: seq<Event>, key: Key, e: ExecId, f: ExecId)
    requires Start(sys) && IsRun(sys, run)
    ensures var s := At(End(sys, run), key);
            && (e in s.execs && f in s.execs && HoldsRight(s.execs[e]) && HoldsRight(s.execs[f]) ==> e == f)
            && (Latest(s.rows.attempts).Some? && Latest(s.rows.attempts).value.state == Absent ==>
                  && s.landed == [] && s.inFlight == {}
                  && (e in s.execs ==> !HoldsRight(s.execs[e])))
  {
    StartInv(sys);
    RunInv(sys, run);
    var s := At(End(sys, run), key);
    assert Inv(s);
    LatestIsLast(s.rows.attempts);
    assert e in s.execs && HoldsRight(s.execs[e]) ==> Writer(s, e);
    assert f in s.execs && HoldsRight(s.execs[f]) ==> Writer(s, f);
    if RetryAllowed(s.rows) {
      assert s.landed != [] ==> Writer(s, s.landed[0].writer);
      assert forall g :: g in s.inFlight ==> Writer(s, g);
    }
  }

  /** Once a request is out or an object exists, no executor that starts later may create. */
  lemma NoSecondRight(sys: System, run: seq<Event>, key: Key, step: Step)
    requires Start(sys) && IsRun(sys, run)
    requires var s := At(End(sys, run), key); s.landed != [] || s.inFlight != {}
    requires step.Begin? && Enabled(At(End(sys, run), key), step)
    ensures var end := End(sys, run);
            !Apply(Env(key, end.jobs, end.now), At(end, key), step).execs[step.e].mayCreate
  {
    StartInv(sys);
    RunInv(sys, run);
    var s := At(End(sys, run), key);
    assert Inv(s);
    assert s.landed != [] ==> Writer(s, s.landed[0].writer);
    assert forall g :: g in s.inFlight ==> Writer(s, g);
    BeginKeepsRows(key, s.rows, step.jobId, step.operation);
  }

  // ------------------------------------------------------------ completion

  /**
   A key is completed exactly when it has one receipt, exactly when its latest
   attempt is CONFIRMED; both name the one object the provider holds, and an
   executor that returned reported that object.
   */
  lemma CompletionAgrees(sys: System, run: seq<Event>, key: Key, e: ExecId)
    requires Start(sys) && IsRun(sys, run)
    ensures var s := At(End(sys, run), key);
            var latest := Latest(s.rows.attempts);
            && (Completed(s.rows) <==> |s.rows.receipts| == 1)
            && (Completed(s.rows) <==> latest.Some? && latest.value.state == Confirmed)
            && |s.rows.receipts| <= 1
            && (Completed(s.rows) ==> latest.value.objectId == Some(s.rows.receipts[0])
                                      && |s.landed| == 1 && s.landed[0].id == s.rows.receipts[0])
            && (e in s.execs && s.execs[e].pc.Returned? ==> s.rows.receipts == [s.execs[e].pc.id])
            && Numbered(s.rows.attempts)
  {
    StartInv(sys);
    RunInv(sys, run);
    var s := At(End(sys, run), key);
    assert Inv(s);
    LatestIsLast(s.rows.attempts);
    if e in s.execs { assert PcKnows(s, s.execs[e]); }
    if Completed(s.rows) { assert TrueId(s.landed, s.rows.receipts[0]); }
  }

  /** One step: the log and the receipts only grow, and not at all once the key is completed. */
  lemma StepGrows(env: Env, s: KeyState, step: Step)
    requires Inv(s) && Enabled(s, step)
    ensures var s' := Apply(env, s, step);
            && s.rows.attempts <= s'.rows.attempts && s.rows.receipts <= s'.rows.receipts && s.landed <= s'.landed
            && (Completed(s.rows) ==> s'.rows == s.rows)
  {
    if step.Begin? {
      BeginKeepsRows(env.key, s.rows, step.jobId, step.operation);
    } else {
      var x := s.execs[step.e];
      if step.RecordAccepted? { AcceptKeepsRows(s.rows, x.jobId, x.operation, x.pc.id); }
      if step.RecordFailure? { FailKeepsRows(s.rows, DefiniteAbsence(x, x.pc.refused), x.knownId); }
      if step.RecordConfirmed? { ConfirmKeepsRows(s.rows, x.pc.id); }
    }
  }

  /** From any reachable state: attempts are never rewritten, and completion freezes the rows for ever. */
  lemma {:induction false} RunGrows(sys: System, run: seq<Event>, key: Key)
    requires SysInv(sys) && IsRun(sys, run)
    ensures var s, s' := At(sys, key), At(End(sys, run), key);
            && s.rows.attempts <= s'.rows.attempts && s.rows.receipts <= s'.rows.receipts && s.landed <= s'.landed
            && (Completed(s.rows) ==> s'.rows == s.rows)
    decreases |run|
  {
    if run != [] {
      EventInv(sys, run[0]);
      assert Inv(At(sys, key));
      if run[0].OnKey? && run[0].key == key {
        StepGrows(Env(key, sys.jobs, sys.now), At(sys, key), run[0].step);
      }
      RunGrows(After(sys, run[0]), run[1..], key);
    }
  }

  // ------------------------------------------------------------ identity retention

  predicate Named(a: Attempt) { a.objectId.Some? }

  ghost predicate HasId(rows: Rows) {
    exists i :: 0 <= i < |rows.attempts| && Named(rows.attempts[i])
  }

  ghost predicate LatestHasId(rows: Rows) {
    rows.attempts != [] && Named(rows.attempts[|rows.attempts| - 1])
  }

  /** An accepted id, once recorded, stays in the log for ever and is the provider's one object. */
  lemma IdStaysInLog(sys: System, run: seq<Event>, key: Key, i: nat)
    requires SysInv(sys) && IsRun(sys, run)
    requires i < |At(sys, key).rows.attempts| && Named(At(sys, key).rows.attempts[i])
    ensures var s := At(End(sys, run), key);
            && i < |s.rows.attempts|
            && s.rows.attempts[i] == At(sys, key).rows.attempts[i]
            && |s.landed| == 1 && Some(s.landed[0].id) == s.rows.attempts[i].objectId
  {
    RunGrows(sys, run, key);
    RunInv(sys, run);
    assert Inv(At(End(sys, run), key));
  }

  /**
   Exactly one kind of step hides a recorded id from the latest attempt: an open
   key's failure block, run by a lease holder that never learnt the id.
   */
  lemma WhatHidesAnId(env: Env, s: KeyState, step: Step)
    requires Inv(s) && Enabled(s, step) && LatestHasId(s.rows)
    ensures !LatestHasId(Apply(env, s, step).rows) <==>
            && step.RecordFailure?
            && s.execs[step.e].knownId.None?
            && HoldsLease(env.jobs, s.execs[step.e].jobId, s.execs[step.e].owner, env.now)
            && !Completed(s.rows)
  {
    LatestIsLast(s.rows.attempts);
    if step.Begin? {
      BeginKeepsRows(env.key, s.rows, step.jobId, step.operation);
    } else {
      var x := s.execs[step.e];
      assert PcKnows(s, x);
      if step.RecordAccepted? { AcceptKeepsRows(s.rows, x.jobId, x.operation, x.pc.id); }
      if step.RecordConfirmed? { RecordKeepsNumbers(s.rows.attempts, Confirmed, Some(x.pc.id)); }
      if step.RecordFailure? {
        NoAbsenceOnceNamed(s, step.e);
        RecordKeepsNumbers(s.rows.attempts, Unknown, x.knownId);
      }
    }
  }

  /** An executor in its handler never claims absence of an object whose id is on record. */
  lemma NoAbsenceOnceNamed(s: KeyState, e: ExecId)
    requires Inv(s) && HasId(s.rows) && e in s.execs && s.execs[e].pc.Failing?
    ensures !DefiniteAbsence(s.execs[e], s.execs[e].pc.refused)
  {
    assert LandedBy(s.landed, s.landed[0].writer);
    assert Writer(s, s.landed[0].writer);
    if DefiniteAbsence(s.execs[e], s.execs[e].pc.refused) {
      assert Writer(s, e);
      assert false;
    }
  }

  /** No two executions of one key overlap: each starts after the earlier ones stopped. */
  predicate Solo(sys: System, run: seq<Event>)
    requires IsRun(sys, run)
    decreases |run|
  {
    run == []
    || (&& (run[0].OnKey? && run[0].step.Begin? ==>
              forall e :: e in At(sys, run[0].key).execs ==> Final(At(sys, run[0].key).execs[e].pc))
        && Solo(After(sys, run[0]), run[1..]))
  }

  /** The recorded id is on the latest attempt and known to whoever is still running. */
  ghost predicate Carried(s: KeyState) {
    && (forall e, f :: e in s.execs && f in s.execs && !Final(s.execs[e].pc) && !Final(s.execs[f].pc) ==> e == f)
    && (HasId(s.rows) ==>
          && LatestHasId(s.rows)
          && forall e :: e in s.execs && !Final(s.execs[e].pc) ==> s.execs[e].knownId == s.rows.attempts[|s.rows.attempts| - 1].objectId)
  }

  lemma CarriedStep(env: Env, s: KeyState, step: Step)
    requires Inv(s) && Carried(s) && Enabled(s, step)
    requires step.Begin? ==> forall e :: e in s.execs ==> Final(s.execs[e].pc)
    ensures Carried(Apply(env, s, step))
  {
    if step.Begin? {
      CarriedBegin(env, s, step);
    } else if HasId(s.rows) {
      CarriedNamed(env, s, step);
    } else {
      CarriedUnnamed(env, s, step);
    }
  }

  lemma CarriedBegin(env: Env, s: KeyState, step: Step)
    requires Inv(s) && Carried(s) && Enabled(s, step) && step.Begin?
    requires forall e :: e in s.execs ==> Final(s.execs[e].pc)
    ensures Carried(Apply(env, s, step))
  {
    BegunCarries(env.key, s.rows, step.jobId, step.operation);
    var s' := Apply(env, s, step);
    assert forall e :: e in s'.execs && !Final(s'.execs[e].pc) ==> e == step.e;
  }

  /** The opening block claims a retry only where no id is on record, and reads the id that is. */
  lemma BegunCarries(key: Key, rows: Rows, jobId: JobId, operation: string)
    requires RowsInv(rows) && (HasId(rows) ==> LatestHasId(rows))
    ensures var r := BeginTx(key, rows, jobId, operation);
            r.Begun? && HasId(r.rows) ==>
              HasId(rows) && r.rows == rows && r.knownId == rows.attempts[|rows.attempts| - 1].objectId
  {
    LatestIsLast(rows.attempts);
    BeginKeepsRows(key, rows, jobId, operation);
    RecordKeepsNumbers(rows.attempts, Unknown, None);
  }

  /** No step but the opening one adds an executor, revives one, or forgets an id it knew. */
  ghost predicate LocalsKept(s: KeyState, s': KeyState) {
    forall e :: e in s'.execs ==>
      && e in s.execs
      && (!Final(s'.execs[e].pc) ==> !Final(s.execs[e].pc))
      && (s.execs[e].knownId.Some? ==> s'.execs[e].knownId.Some?)
  }

  lemma StepKeepsLocals(env: Env, s: KeyState, step: Step)
    requires Enabled(s, step) && !step.Begin?
    ensures LocalsKept(s, Apply(env, s, step))
  {
    var s' := Apply(env, s, step);
    assert forall e :: e in s'.execs && e != step.e ==> e in s.execs && s'.execs[e] == s.execs[e];
  }

  lemma CarriedFrom(s: KeyState, s': KeyState)
    requires Carried(s) && HasId(s.rows) && LocalsKept(s, s')
    requires Inv(s') && LatestHasId(s'.rows)
    ensures Carried(s')
  {
    var last := s'.rows.attempts[|s'.rows.attempts| - 1];
    assert TrueId(s'.landed, last.objectId.value);
    assert Named(s.rows.attempts[|s.rows.attempts| - 1]);
  }

  lemma CarriedNamed(env: Env, s: KeyState, step: Step)
    requires Inv(s) && Carried(s) && Enabled(s, step) && !step.Begin? && HasId(s.rows)
    ensures Carried(Apply(env, s, step))
  {
    StepInv(env, s, step);
    StepKeepsLocals(env, s, step);
    assert LatestHasId(Apply(env, s, step).rows) by { StillNamed(env, s, step); }
    CarriedFrom(s, Apply(env, s, step));
  }

  lemma StillNamed(env: Env, s: KeyState, step: Step)
    requires Inv(s) && Carried(s) && Enabled(s, step) && !step.Begin? && HasId(s.rows)
    ensures LatestHasId(Apply(env, s, step).rows)
  {
    WhatHidesAnId(env, s, step);
    assert Named(s.rows.attempts[|s.rows.attempts| - 1]);
  }

  lemma CarriedUnnamed(env: Env, s: KeyState, step: Step)
    requires Inv(s) && Carried(s) && Enabled(s, step) && !step.Begin? && !HasId(s.rows)
    ensures Carried(Apply(env, s, step))
  {
    var s' := Apply(env, s, step);
    StepKeepsLocals(env, s, step);
    if s'.rows == s.rows {
      assert !HasId(s'.rows);
    } else if step.RecordAccepted? {
      AcceptedCarries(env, s, step);
    } else {
      assert Final(s'.execs[step.e].pc);
      assert forall e :: e in s'.execs ==> Final(s'.execs[e].pc);
      OnlyLastNamed(s.rows, s'.rows);
    }
  }

  lemma AcceptedCarries(env: Env, s: KeyState, step: Step)
    requires Inv(s) && Carried(s) && Enabled(s, step) && step.RecordAccepted?
    requires Apply(env, s, step).rows != s.rows
    ensures Carried(Apply(env, s, step))
  {
    var x := s.execs[step.e];
    assert PcKnows(s, x);
    AcceptKeepsRows(s.rows, x.jobId, x.operation, x.pc.id);
    var s' := Apply(env, s, step);
    assert Named(s'.rows.attempts[|s'.rows.attempts| - 1]);
    assert forall e :: e in s'.execs && !Final(s'.execs[e].pc) ==> e == step.e;
  }

  /** An id that appears with one more attempt is on that attempt. */
  lemma OnlyLastNamed(rows: Rows, rows': Rows)
    requires !HasId(rows) && |rows'.attempts| == |rows.attempts| + 1 && rows.attempts <= rows'.attempts
    ensures HasId(rows') ==> LatestHasId(rows')
  {
    if HasId(rows') {
      var i :| 0 <= i < |rows'.attempts| && Named(rows'.attempts[i]);
      assert i < |rows.attempts| ==> Named(rows.attempts[i]);
    }
  }

  lemma {:induction false} CarriedRun(sys: System, run: seq<Event>, key: Key)
    requires SysInv(sys) && IsRun(sys, run) && Solo(sys, run) && Carried(At(sys, key))
    ensures Carried(At(End(sys, run), key))
    decreases |run|
  {
    if run != [] {
      assert Inv(At(sys, key));
      EventInv(sys, run[0]);
      if run[0].OnKey? && run[0].key == key {
        CarriedStep(Env(key, sys.jobs, sys.now), At(sys, key), run[0].step);
      }
      CarriedRun(After(sys, run[0]), run[1..], key);
    }
  }

  /**
   Without overlapping executions a recorded id is always on the latest attempt,
   and every read an executor still makes asks for that id.
   */
  lemma IdCarriedForward(sys: System, run: seq<Event>, key: Key, e: ExecId)
    requires Start(sys) && IsRun(sys, run) && Solo(sys, run)
    requires HasId(At(End(sys, run), key).rows)
    ensures var s := At(End(sys, run), key);
            && |s.landed| == 1
            && Latest(s.rows.attempts).value.objectId == Some(s.landed[0].id)
            && (e in s.execs && (s.execs[e].pc.Reading? || s.execs[e].pc.ReadingBack?) ==>
                  s.execs[e].knownId == Some(s.landed[0].id))
  {
    StartInv(sys);
    RunInv(sys, run);
    CarriedRun(sys, run, key);
    var s := At(End(sys, run), key);
    assert Inv(s);
    LatestIsLast(s.rows.attempts);
  }

  // ------------------------------------------------------------ leases

  /** Rows of a key change only under the current lease, except to store accepted evidence. */
  lemma LeaseGuardsRows(env: Env, s: KeyState, step: Step)
    requires Enabled(s, step) && !step.RecordAccepted?
    requires Apply(env, s, step).rows != s.rows
    ensures step.e in Apply(env, s, step).execs
    ensures var x := Apply(env, s, step).execs[step.e]; HoldsLease(env.jobs, x.jobId, x.owner, env.now)
  {
  }

  /** While a lease is unexpired nobody takes it over, unless the job row is rewritten from outside. */
  lemma {:induction false} LeaseNotTaken(sys: System, run: seq<Event>, id: JobId, owner: string)
    requires IsRun(sys, run) && HoldsLease(sys.jobs, id, owner, sys.now)
    requires forall i :: 0 <= i < |run| ==> !run[i].SetJob? && run[i] != Expire(id, owner)
    requires End(sys, run).now < sys.jobs[id].leaseExpires.value
    ensures id in End(sys, run).jobs && End(sys, run).jobs[id] == sys.jobs[id]
    decreases |run|
  {
    if run != [] {
      var next := After(sys, run[0]);
      ClockRuns(next, run[1..]);
      assert next.jobs[id] == sys.jobs[id];
      LeaseNotTaken(next, run[1..], id, owner);
    }
  }

  lemma {:induction false} ClockRuns(sys: System, run: seq<Event>)
    requires IsRun(sys, run)
    ensures sys.now <= End(sys, run).now
    decreases |run|
  {
    if run != [] { ClockRuns(After(sys, run[0]), run[1..]); }
  }
}

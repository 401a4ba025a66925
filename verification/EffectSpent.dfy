/**
 The right to create, once spent: after a request whose fate is unknown nobody may
 send again, and only a recorded definite absence ever gives the right back.
 */
module EffectSpent {
  import opened Options
  import opened EffectTables
  import opened EffectProtocol
  import opened EffectInvariant
  import opened EffectRuns
  import opened EffectOverlap

  /** The log allows no retry and no executor can still write or declare that it did not. */
  ghost predicate Spent(s: KeyState) {
    !RetryAllowed(s.rows) && forall e :: e in s.execs ==> !HoldsRight(s.execs[e])
  }

  ghost predicate NoNewRight(s: KeyState, s': KeyState) {
    forall e :: e in s'.execs && s'.execs[e].mayCreate ==> e in s.execs && s.execs[e].mayCreate
  }

  // ------------------------------------------------------------ how the right comes back, exactly

  /** The handler of a lease holder records ABSENT on an open key. */
  ghost predicate RecordsAbsence(env: Env, s: KeyState, step: Step)
    requires Enabled(s, step)
  {
    && step.RecordFailure? && !Completed(s.rows)
    && HoldsLease(env.jobs, s.execs[step.e].jobId, s.execs[step.e].owner, env.now)
    && DefiniteAbsence(s.execs[step.e], s.execs[step.e].pc.refused)
  }

  /** A key that allows no retry allows one after a step exactly when that step records a definite absence. */
  lemma OnlyAbsenceReopens(env: Env, s: KeyState, step: Step)
    requires Inv(s) && Enabled(s, step) && !RetryAllowed(s.rows)
    ensures RetryAllowed(Apply(env, s, step).rows) <==> RecordsAbsence(env, s, step)
  {
    if step.Begin? {
      BeginKeepsRows(env.key, s.rows, step.jobId, step.operation);
    } else {
      var x := s.execs[step.e];
      assert PcKnows(s, x);
      if step.RecordAccepted? { AcceptReopens(s.rows, x.jobId, x.operation, x.pc.id); }
      if step.RecordFailure? { FailReopens(s.rows, DefiniteAbsence(x, x.pc.refused), x.knownId); }
    }
  }

  lemma AcceptReopens(rows: Rows, jobId: JobId, operation: string, id: string)
    requires !RetryAllowed(rows)
    ensures var r := AcceptTx(rows, jobId, operation, id); r.Some? ==> !RetryAllowed(r.value)
  {
  }

  lemma FailReopens(rows: Rows, absent: bool, knownId: Option<string>)
    requires !RetryAllowed(rows)
    ensures RetryAllowed(FailTx(rows, absent, knownId)) <==> absent && OpenForWrite(rows)
  {
  }

  /** A starting executor may create exactly when it holds the lease, matches the reservation, and the log allows a retry. */
  lemma RightIsGranted(env: Env, s: KeyState, step: Step)
    requires Inv(s) && Enabled(s, step) && step.Begin?
    ensures Apply(env, s, step).execs[step.e].mayCreate <==>
            && HoldsLease(env.jobs, step.jobId, step.owner, env.now) && |env.key| <= MAX_KEY_LENGTH
            && (s.rows.reservation.Some? ==>
                  s.rows.reservation.value.jobId == step.jobId && s.rows.reservation.value.operation == step.operation)
            && RetryAllowed(s.rows)
  {
    LatestIsLast(s.rows.attempts);
    BeginKeepsRows(env.key, s.rows, step.jobId, step.operation);
  }

  /** A step touches its own executor only, and no step but the opening one changes what it may do. */
  lemma OwnLocals(env: Env, s: KeyState, step: Step)
    requires Enabled(s, step)
    ensures var s' := Apply(env, s, step);
            && step.e in s'.execs && (!step.Begin? ==> s'.execs[step.e].mayCreate == s.execs[step.e].mayCreate)
            && forall e :: e in s'.execs && e != step.e ==> e in s.execs && s'.execs[e] == s.execs[e]
  {
  }

  lemma OnlyBeginGrants(env: Env, s: KeyState, step: Step)
    requires Inv(s) && Enabled(s, step) && (step.Begin? ==> !RetryAllowed(s.rows))
    ensures NoNewRight(s, Apply(env, s, step))
  {
    OwnLocals(env, s, step);
    if step.Begin? { RightIsGranted(env, s, step); }
  }

  // ------------------------------------------------------------ a spent right stays spent

  /** An executor without the right does not gain it by its own step, and cannot be about to send. */
  lemma OwnRightStaysLost(env: Env, s: KeyState, step: Step)
    requires Enabled(s, step) && !step.Begin? && PcKnows(s, s.execs[step.e]) && !HoldsRight(s.execs[step.e])
    ensures !step.Send? && !HoldsRight(Apply(env, s, step).execs[step.e])
  {
  }

  lemma SpentLocals(env: Env, s: KeyState, step: Step)
    requires Inv(s) && Spent(s) && Enabled(s, step)
    ensures !step.Send?
    ensures forall e :: e in Apply(env, s, step).execs ==> !HoldsRight(Apply(env, s, step).execs[e])
  {
    OwnLocals(env, s, step);
    if step.Begin? { RightIsGranted(env, s, step); } else { OwnRightStaysLost(env, s, step); }
  }

  /** Whatever happens next, a spent right stays spent: nothing is sent and nobody gains the right. */
  lemma SpentStep(env: Env, s: KeyState, step: Step)
    requires Inv(s) && Spent(s) && Enabled(s, step)
    ensures Spent(Apply(env, s, step)) && !step.Send? && NoNewRight(s, Apply(env, s, step))
  {
    SpentLocals(env, s, step);
    OnlyBeginGrants(env, s, step);
    OnlyAbsenceReopens(env, s, step);
  }

  /**
   The holder of the right crashes or is cancelled, wherever it is; or the mutation has started and it
   times out, loses the response, or gets its answer. Only a definite refusal is left out.
   */
  predicate Uncertain(s: KeyState, step: Step)
    requires Enabled(s, step)
  {
    && !step.Begin? && HoldsRight(s.execs[step.e])
    && (step.Crash? || step.CreateReturns? || (step.Raise? && !step.refused && s.execs[step.e].mutationStarted))
  }

  /** Such a step spends the right. */
  lemma UncertainIsSpent(env: Env, s: KeyState, step: Step)
    requires Inv(s) && Enabled(s, step) && Uncertain(s, step)
    ensures Spent(Apply(env, s, step))
  {
    var x := s.execs[step.e];
    assert PcKnows(s, x);
    assert Writer(s, step.e);
    assert forall f :: f in s.execs && HoldsRight(s.execs[f]) ==> Writer(s, f);
  }

  /** Over any run from there: spent for ever, no request, and nobody who could not create before can create after. */
  lemma {:induction false} SpentForEver(sys: System, run: seq<Event>, key: Key)
    requires SysInv(sys) && IsRun(sys, run) && Spent(At(sys, key))
    ensures Spent(At(End(sys, run), key)) && NoNewRight(At(sys, key), At(End(sys, run), key))
    ensures forall i :: 0 <= i < |run| ==> !SendsOn(run[i], key)
    decreases |run|
  {
    if run != [] {
      var next := After(sys, run[0]);
      EventInv(sys, run[0]);
      SpentEvent(sys, run[0], key);
      SpentForEver(next, run[1..], key);
      forall i | 0 <= i < |run| ensures !SendsOn(run[i], key) {
        if i > 0 { assert run[i] == run[1..][i - 1]; }
      }
    }
  }

  /**
   The headline: after any run, if a request's outcome becomes uncertain, then in whatever follows
   no request is sent for that key and no executor that starts later may create.
   */
  lemma NothingSentAfterUncertainty(sys: System, run: seq<Event>, key: Key, step: Step, rest: seq<Event>, e: ExecId)
    requires Start(sys) && IsRun(sys, run)
    requires Enabled(At(End(sys, run), key), step) && Uncertain(At(End(sys, run), key), step)
    requires IsRun(After(End(sys, run), OnKey(key, step)), rest)
    ensures forall i :: 0 <= i < |rest| ==> !SendsOn(rest[i], key)
    ensures var s' := At(End(After(End(sys, run), OnKey(key, step)), rest), key);
            e in s'.execs && s'.execs[e].mayCreate ==> e in At(End(sys, run), key).execs
  {
    StartInv(sys);
    RunInv(sys, run);
    var mid := End(sys, run);
    assert Inv(At(mid, key));
    EventInv(mid, OnKey(key, step));
    UncertainIsSpent(Env(key, mid.jobs, mid.now), At(mid, key), step);
    OwnLocals(Env(key, mid.jobs, mid.now), At(mid, key), step);
    SpentForEver(After(mid, OnKey(key, step)), rest, key);
  }

  predicate SendsOn(ev: Event, key: Key) { ev.OnKey? && ev.key == key && ev.step.Send? }

  lemma SpentEvent(sys: System, ev: Event, key: Key)
    requires SysInv(sys) && Possible(sys, ev) && Spent(At(sys, key))
    ensures Spent(At(After(sys, ev), key)) && NoNewRight(At(sys, key), At(After(sys, ev), key)) && !SendsOn(ev, key)
  {
    assert Inv(At(sys, key));
    if ev.OnKey? && ev.key == key { SpentStep(Env(key, sys.jobs, sys.now), At(sys, key), ev.step); }
  }

  // ------------------------------------------------------------ only a recorded absence gives it back

  ghost predicate AbsenceAt(sys: System, ev: Event, key: Key)
    requires Possible(sys, ev)
  {
    ev.OnKey? && ev.key == key && RecordsAbsence(Env(key, sys.jobs, sys.now), At(sys, key), ev.step)
  }

  ghost predicate AbsenceIn(sys: System, run: seq<Event>, key: Key)
    requires IsRun(sys, run)
    decreases |run|
  {
    run != [] && (AbsenceAt(sys, run[0], key) || AbsenceIn(After(sys, run[0]), run[1..], key))
  }

  /** Without a recorded absence the log goes on allowing no retry, and nobody gains the right. */
  lemma {:induction false} NoAbsenceNoRight(sys: System, run: seq<Event>, key: Key)
    requires SysInv(sys) && IsRun(sys, run) && !RetryAllowed(At(sys, key).rows) && !AbsenceIn(sys, run, key)
    ensures !RetryAllowed(At(End(sys, run), key).rows) && NoNewRight(At(sys, key), At(End(sys, run), key))
    decreases |run|
  {
    if run != [] {
      EventInv(sys, run[0]);
      ClosedEvent(sys, run[0], key);
      NoAbsenceNoRight(After(sys, run[0]), run[1..], key);
    }
  }

  lemma ClosedEvent(sys: System, ev: Event, key: Key)
    requires SysInv(sys) && Possible(sys, ev) && !RetryAllowed(At(sys, key).rows) && !AbsenceAt(sys, ev, key)
    ensures !RetryAllowed(At(After(sys, ev), key).rows) && NoNewRight(At(sys, key), At(After(sys, ev), key))
  {
    assert Inv(At(sys, key));
    if ev.OnKey? && ev.key == key {
      OnlyAbsenceReopens(Env(key, sys.jobs, sys.now), At(sys, key), ev.step);
      OnlyBeginGrants(Env(key, sys.jobs, sys.now), At(sys, key), ev.step);
    }
  }

  /** A right that comes back after a request was reserved came back through a recorded definite absence. */
  lemma RightReturnsByAbsence(sys: System, run: seq<Event>, key: Key, e: ExecId)
    requires SysInv(sys) && IsRun(sys, run) && !RetryAllowed(At(sys, key).rows) && e !in At(sys, key).execs
    requires e in At(End(sys, run), key).execs && At(End(sys, run), key).execs[e].mayCreate
    ensures AbsenceIn(sys, run, key)
  {
    if !AbsenceIn(sys, run, key) { NoAbsenceNoRight(sys, run, key); }
  }

  // ------------------------------------------------------------ the lost request

  /** A spent right with nothing written and nothing on its way. */
  ghost predicate Stranded(s: KeyState) { Spent(s) && s.landed == [] && s.inFlight == {} }

  lemma StrandedEvent(sys: System, ev: Event, key: Key)
    requires SysInv(sys) && Possible(sys, ev) && Stranded(At(sys, key))
    ensures Stranded(At(After(sys, ev), key))
  {
    SpentEvent(sys, ev, key);
    assert Inv(At(sys, key));
  }

  lemma {:induction false} StrandedForEver(sys: System, run: seq<Event>, key: Key)
    requires SysInv(sys) && IsRun(sys, run) && Stranded(At(sys, key))
    ensures Stranded(At(End(sys, run), key))
    decreases |run|
  {
    if run != [] {
      EventInv(sys, run[0]);
      StrandedEvent(sys, run[0], key);
      StrandedForEver(After(sys, run[0]), run[1..], key);
    }
  }

  /** A key whose only request was lost never gets an object, a recorded id, a receipt or a completion. */
  lemma LostForGood(sys: System, run: seq<Event>, key: Key)
    requires SysInv(sys) && IsRun(sys, run) && Stranded(At(sys, key))
    ensures var s := At(End(sys, run), key);
            s.landed == [] && !HasId(s.rows) && s.rows.receipts == [] && !Completed(s.rows)
  {
    StrandedForEver(sys, run, key);
    RunInv(sys, run);
    assert Inv(At(End(sys, run), key));
  }

  // ------------------------------------------------------------ both ends are reachable

  /** From a start, a run in which the only request is dropped and its executor crashes. */
  lemma LostRequestRun()
    ensures exists run :: Start(ONE_JOB) && IsRun(ONE_JOB, run) && Stranded(At(End(ONE_JOB, run), KEY))
  {
    SentRuns();
    LostRuns();
    RunAppend(ONE_JOB, TAKEOVER[..5], LOST);
  }

  const LOST := [OnKey(KEY, Drop(0)), OnKey(KEY, Crash(0))]

  lemma LostRuns()
    ensures IsRun(SENT, LOST) && Stranded(At(End(SENT, LOST), KEY))
  {
    assert At(After(SENT, LOST[0]), KEY).inFlight == {};
    TwoEvents(SENT, LOST[0], LOST[1]);
    assert [LOST[0], LOST[1]] == LOST;
  }

  /** And one in which the request is dropped and refused, and the next executor may create again. */
  lemma RefusedRequestReturnsTheRight()
    ensures exists run :: IsRun(ONE_JOB, run) && Start(ONE_JOB) && RetryAllowed(At(End(ONE_JOB, run), KEY).rows)
                          && At(End(ONE_JOB, run), KEY).rows.attempts != []
  {
    SentRuns();
    RefusedRuns();
    RunAppend(ONE_JOB, TAKEOVER[..5], REFUSED);
    RecordedRefusal(End(ONE_JOB, TAKEOVER[..5] + REFUSED));
    var t := End(ONE_JOB, TAKEOVER[..5] + REFUSED);
    RunCons(t, RECORD, []);
    RunAppend(ONE_JOB, TAKEOVER[..5] + REFUSED, [RECORD]);
    assert [RECORD] + [] == [RECORD];
  }

  const REFUSED := [OnKey(KEY, Drop(0)), OnKey(KEY, Raise(0, true))]
  const RECORD := OnKey(KEY, RecordFailure(0))

  /** The refused executor is in its handler, its lease still valid. */
  ghost predicate Refused(s: System) {
    && s.now == 0 && s.jobs == LEASED_TO_A && At(s, KEY).rows == Rows(RESERVED, [Attempt(0, Unknown, None)], [])
    && 0 in At(s, KEY).execs && At(s, KEY).execs[0] == STALLED.(pc := Failing(true))
  }

  lemma RefusedRuns()
    ensures IsRun(SENT, REFUSED) && Refused(End(SENT, REFUSED))
  {
    var s := After(SENT, REFUSED[0]);
    assert At(s, KEY).inFlight == {} && At(s, KEY).landed == [];
    TwoEvents(SENT, REFUSED[0], REFUSED[1]);
    assert [REFUSED[0], REFUSED[1]] == REFUSED;
  }

  lemma RecordedRefusal(s: System)
    requires Refused(s)
    ensures Possible(s, RECORD)
    ensures At(After(s, RECORD), KEY).rows.attempts == [Attempt(0, Unknown, None), Attempt(1, Absent, None)]
  {
    RecordKeepsNumbers([Attempt(0, Unknown, None)], Absent, None);
  }
}

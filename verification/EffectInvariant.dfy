/** Every step of the protocol keeps the invariant. */
module EffectInvariant {
  import opened Options
  import opened EffectTables
  import opened EffectProtocol

  /** What the executor's next program point must satisfy for the invariant to survive. */
  ghost predicate LocalOk(s: KeyState, e: ExecId, x: Exec) {
    && (e in s.inFlight || LandedBy(s.landed, e) ==> PastSend(x))
    && (x.knownId.Some? ==> TrueId(s.landed, x.knownId.value))
    && PcKnows(s, x)
  }

  /** A move of one executor's locals that gains no right to write. */
  lemma GotoInv(s: KeyState, e: ExecId, x: Exec)
    requires Inv(s) && LocalOk(s, e, x)
    requires HoldsRight(x) ==> Writer(s, e)
    ensures Inv(Goto(s, e, x))
  {
    var s' := Goto(s, e, x);
    assert forall f :: Writer(s', f) ==> Writer(s, f);
    forall f | f in s'.execs ensures PcKnows(s', s'.execs[f]) {
      assert f != e ==> PcKnows(s, s.execs[f]);
      assert PcKnows(s, s'.execs[f]);
    }
  }

  /** An executor that stops keeps its record of what it sent. */
  lemma StopInv(s: KeyState, e: ExecId, pc: Pc)
    requires Inv(s) && e in s.execs && Final(pc)
    requires pc.Returned? ==> Completed(s.rows) && s.rows.receipts == [pc.id]
    ensures Inv(Goto(s, e, s.execs[e].(pc := pc)))
  {
    GotoInv(s, e, s.execs[e].(pc := pc));
  }

  /** New rows for the key: the reservation keeps its scope and a completion is final. */
  lemma RowsInvStep(s: KeyState, rows: Rows)
    requires Inv(s) && RowsInv(rows)
    requires RetryAllowed(rows) ==> forall f :: !Writer(s, f)
    requires forall i :: 0 <= i < |rows.attempts| && rows.attempts[i].objectId.Some? ==>
                           TrueId(s.landed, rows.attempts[i].objectId.value)
    requires s.rows.reservation.Some? ==>
               && rows.reservation.Some?
               && rows.reservation.value.jobId == s.rows.reservation.value.jobId
               && rows.reservation.value.operation == s.rows.reservation.value.operation
    requires Completed(s.rows) ==> rows == s.rows
    ensures Inv(s.(rows := rows))
  {
    var s' := s.(rows := rows);
    assert forall f :: Writer(s', f) <==> Writer(s, f);
    forall f | f in s'.execs ensures PcKnows(s', s'.execs[f]) {
      assert PcKnows(s, s.execs[f]);
    }
  }

  lemma InitialInv()
    ensures Inv(INITIAL)
  {
  }

  lemma BeginInv(env: Env, s: KeyState, step: Step)
    requires Inv(s) && step.Begin? && Enabled(s, step)
    ensures Inv(Apply(env, s, step))
  {
    var e := step.e;
    assert !LandedBy(s.landed, e) && e !in s.inFlight;
    var x := Exec(step.jobId, step.owner, step.operation, None, false, false, false, Raised);
    var r := BeginTx(env.key, s.rows, step.jobId, step.operation);
    if HoldsLease(env.jobs, step.jobId, step.owner, env.now) && r.Begun? {
      BegunInv(env.key, s, e, x.(knownId := r.knownId, mayCreate := r.mayCreate, pc := Reading), r);
    } else {
      GotoInv(s, e, x);
    }
  }

  lemma BegunInv(key: Key, s: KeyState, e: ExecId, x: Exec, r: BeginResult)
    requires Inv(s) && e !in s.execs && e !in s.inFlight && !LandedBy(s.landed, e)
    requires r == BeginTx(key, s.rows, x.jobId, x.operation) && r.Begun?
    requires x == Exec(x.jobId, x.owner, x.operation, r.knownId, r.mayCreate, false, false, Reading)
    ensures Inv(Commit(s, e, x, r.rows))
  {
    BeginKeepsRows(key, s.rows, x.jobId, x.operation);
    LatestIsLast(s.rows.attempts);
    var mid := s.(rows := r.rows);
    if r.mayCreate {
      RecordKeepsNumbers(s.rows.attempts, Unknown, None);
      assert RetryAllowed(s.rows);
      RowsInvStep(s, r.rows);
      ClaimInv(s, mid, e, x);
    } else {
      assert mid == s;
      assert !HoldsRight(x);
      GotoInv(mid, e, x);
    }
  }

  /** The only step that hands out the right to write: nobody held it before. */
  lemma ClaimInv(s: KeyState, mid: KeyState, e: ExecId, x: Exec)
    requires Inv(s) && RetryAllowed(s.rows) && Inv(mid) && mid == s.(rows := mid.rows)
    requires e !in s.execs && !RetryAllowed(mid.rows)
    requires HoldsRight(x) && LocalOk(mid, e, x)
    ensures Inv(Goto(mid, e, x))
  {
    var s' := Goto(mid, e, x);
    assert forall f :: !Writer(s, f);
    assert forall f :: Writer(s', f) ==> Writer(s, f) || f == e;
    forall f | f in s'.execs ensures PcKnows(s', s'.execs[f]) {
      assert f != e ==> PcKnows(mid, mid.execs[f]);
      assert PcKnows(mid, s'.execs[f]);
    }
  }

  lemma ObserveInv(env: Env, s: KeyState, step: Step)
    requires Inv(s) && step.Observe? && Enabled(s, step)
    ensures Inv(Apply(env, s, step))
  {
    var x' := Apply(env, s, step).execs[step.e];
    assert PcKnows(s, s.execs[step.e]);
    assert s.execs[step.e].mayCreate ==> HoldsRight(x') ==> Writer(s, step.e);
    GotoInv(s, step.e, x');
  }

  /** A lease check passes on, or lands in the handler with nothing sent by it. */
  lemma CheckInv(env: Env, s: KeyState, step: Step)
    requires Inv(s) && (step.Check? || step.Recheck?) && Enabled(s, step)
    ensures Inv(Apply(env, s, step))
  {
    var x' := Apply(env, s, step).execs[step.e];
    assert PcKnows(s, s.execs[step.e]);
    assert s.execs[step.e].mayCreate ==> HoldsRight(x') ==> Writer(s, step.e);
    GotoInv(s, step.e, x');
  }

  /** An exception anywhere in the `try` block: `DraftRunRefused` says absence only of a write that never was. */
  lemma RaiseInv(env: Env, s: KeyState, step: Step)
    requires Inv(s) && step.Raise? && Enabled(s, step)
    ensures Inv(Apply(env, s, step))
  {
    var x := s.execs[step.e];
    var x' := x.(pc := Failing(step.refused));
    assert PcKnows(s, x);
    assert HoldsRight(x') ==> Writer(s, step.e);
    GotoInv(s, step.e, x');
  }

  lemma SendInv(env: Env, s: KeyState, step: Step)
    requires Inv(s) && step.Send? && Enabled(s, step)
    ensures Inv(Apply(env, s, step))
  {
    var s' := Apply(env, s, step);
    assert PcKnows(s, s.execs[step.e]);
    assert Writer(s, step.e);
    assert forall f :: Writer(s', f) ==> Writer(s, f);
    forall f | f in s'.execs ensures PcKnows(s', s'.execs[f]) {
      assert PcKnows(s, s.execs[f]);
    }
  }

  lemma LandInv(env: Env, s: KeyState, step: Step)
    requires Inv(s) && step.Land? && Enabled(s, step)
    ensures Inv(Apply(env, s, step))
  {
    var s' := Apply(env, s, step);
    assert Writer(s, step.e);
    if s.landed != [] {
      assert LandedBy(s.landed, s.landed[0].writer);
      assert Writer(s, s.landed[0].writer);
      assert false;
    }
    assert s'.landed == [Write(step.e, step.id)];
    assert s'.landed[0].writer == step.e;
    assert forall f :: Writer(s', f) ==> Writer(s, f);
    forall f | f in s'.execs ensures PcKnows(s', s'.execs[f]) {
      assert PcKnows(s, s.execs[f]);
    }
  }

  lemma DropInv(env: Env, s: KeyState, step: Step)
    requires Inv(s) && step.Drop? && Enabled(s, step)
    ensures Inv(Apply(env, s, step))
  {
    var s' := Apply(env, s, step);
    assert forall f :: Writer(s', f) ==> Writer(s, f);
    forall f | f in s'.execs ensures PcKnows(s', s'.execs[f]) {
      assert PcKnows(s, s.execs[f]);
    }
  }

  lemma CreateReturnsInv(env: Env, s: KeyState, step: Step)
    requires Inv(s) && step.CreateReturns? && Enabled(s, step)
    ensures Inv(Apply(env, s, step))
  {
    assert PcKnows(s, s.execs[step.e]);
    GotoInv(s, step.e, Apply(env, s, step).execs[step.e]);
  }

  /** The accepted id is stored: the rows gain a true id and nobody gains a right. */
  lemma AcceptedRowsInv(s: KeyState, jobId: JobId, operation: string, id: string)
    requires Inv(s) && TrueId(s.landed, id)
    ensures var r := AcceptTx(s.rows, jobId, operation, id); r.Some? ==> Inv(s.(rows := r.value))
  {
    AcceptKeepsRows(s.rows, jobId, operation, id);
    var r := AcceptTx(s.rows, jobId, operation, id);
    if r.Some? && r.value != s.rows {
      RecordKeepsNumbers(s.rows.attempts, Unknown, Some(id));
      RowsInvStep(s, r.value);
    }
  }

  lemma RecordAcceptedInv(env: Env, s: KeyState, step: Step)
    requires Inv(s) && step.RecordAccepted? && Enabled(s, step)
    ensures Inv(Apply(env, s, step))
  {
    var s' := Apply(env, s, step);
    var x := s.execs[step.e];
    assert PcKnows(s, x);
    AcceptedRowsInv(s, x.jobId, x.operation, x.pc.id);
    AcceptKeepsRows(s.rows, x.jobId, x.operation, x.pc.id);
    GotoInv(s.(rows := s'.rows), step.e, s'.execs[step.e]);
  }

  /** The failure attempt: ABSENT may be recorded only where nobody holds the right or has written. */
  lemma FailedRowsInv(s: KeyState, absent: bool, knownId: Option<string>)
    requires Inv(s) && (knownId.Some? ==> TrueId(s.landed, knownId.value))
    requires absent ==> forall f :: !Writer(s, f)
    ensures Inv(s.(rows := FailTx(s.rows, absent, knownId)))
  {
    if OpenForWrite(s.rows) {
      FailKeepsRows(s.rows, absent, knownId);
      RecordKeepsNumbers(s.rows.attempts, if absent then Absent else Unknown, if absent then None else knownId);
      RowsInvStep(s, FailTx(s.rows, absent, knownId));
    }
  }

  lemma RecordFailureInv(env: Env, s: KeyState, step: Step)
    requires Inv(s) && step.RecordFailure? && Enabled(s, step)
    ensures Inv(Apply(env, s, step))
  {
    var x := s.execs[step.e];
    assert PcKnows(s, x);
    var stopped := Goto(s, step.e, x.(pc := Raised));
    StopInv(s, step.e, Raised);
    var absent := DefiniteAbsence(x, x.pc.refused);
    if absent {
      assert Writer(s, step.e);
      assert forall f :: Writer(stopped, f) ==> Writer(s, f);
      assert !Writer(stopped, step.e);
    }
    FailedRowsInv(stopped, absent, x.knownId);
    assert Apply(env, s, step) == stopped
        || Apply(env, s, step) == stopped.(rows := FailTx(s.rows, absent, x.knownId));
  }

  /** The closing block: the receipt, the CONFIRMED attempt and the completion carry the one true id. */
  lemma ConfirmedRowsInv(s: KeyState, id: string)
    requires Inv(s) && TrueId(s.landed, id)
    ensures var r := ConfirmTx(s.rows, id);
            r.Some? ==> Inv(s.(rows := r.value)) && Completed(r.value) && r.value.receipts == [id]
  {
    ConfirmKeepsRows(s.rows, id);
    var r := ConfirmTx(s.rows, id);
    if r.Some? {
      if r.value != s.rows {
        RecordKeepsNumbers(s.rows.attempts, Confirmed, Some(id));
        RowsInvStep(s, r.value);
      } else {
        assert TrueId(s.landed, s.rows.receipts[0]);
      }
    }
  }

  lemma RecordConfirmedInv(env: Env, s: KeyState, step: Step)
    requires Inv(s) && step.RecordConfirmed? && Enabled(s, step)
    ensures Inv(Apply(env, s, step))
  {
    var x := s.execs[step.e];
    assert PcKnows(s, x);
    var r := ConfirmTx(s.rows, x.pc.id);
    if !HoldsLease(env.jobs, x.jobId, x.owner, env.now) || r.None? {
      StopInv(s, step.e, Raised);
    } else {
      ConfirmedRowsInv(s, x.pc.id);
      var mid := s.(rows := r.value);
      StopInv(mid, step.e, Returned(x.pc.id));
      assert Apply(env, s, step) == Goto(mid, step.e, x.(pc := Returned(x.pc.id)));
    }
  }

  /** The inductive step: whatever the executors, the provider and the leases do next, the invariant holds. */
  lemma StepInv(env: Env, s: KeyState, step: Step)
    requires Inv(s) && Enabled(s, step)
    ensures Inv(Apply(env, s, step))
  {
    match step
    case Begin(_, _, _, _) => BeginInv(env, s, step);
    case Observe(_, _) => ObserveInv(env, s, step);
    case Send(_) => SendInv(env, s, step);
    case Land(_, _) => LandInv(env, s, step);
    case Drop(_) => DropInv(env, s, step);
    case CreateReturns(_, _) => CreateReturnsInv(env, s, step);
    case RecordAccepted(_) => RecordAcceptedInv(env, s, step);
    case RecordFailure(_) => RecordFailureInv(env, s, step);
    case RecordConfirmed(_) => RecordConfirmedInv(env, s, step);
    case Raise(_, _) => RaiseInv(env, s, step);
    case Crash(e) => StopInv(s, e, Crashed);
    case _ => CheckInv(env, s, step);
  }
}

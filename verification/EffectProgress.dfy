/**
 What the protocol is for: an executor that holds its lease and sees the object completes
 the key, at its first attempt or in a recovery after any earlier run.
 */
module EffectProgress {
  import opened Options
  import opened EffectTables
  import opened EffectProtocol
  import opened EffectInvariant
  import opened EffectRuns
  import opened EffectOverlap

  /** The executor returned this object and the key is completed with it. */
  ghost predicate Done(s: KeyState, e: ExecId, id: string) {
    && e in s.execs && s.execs[e].pc == Returned(id)
    && s.rows.reservation.Some? && s.rows.reservation.value.completed && s.rows.receipts == [id]
    && s.rows.attempts != [] && s.rows.attempts[|s.rows.attempts| - 1].state == Confirmed
    && s.rows.attempts[|s.rows.attempts| - 1].objectId == Some(id)
  }

  ghost predicate Leased(env: Env, x: Exec) { HoldsLease(env.jobs, x.jobId, x.owner, env.now) }

  /** The closing block of a lease holder completes the key and returns the object. */
  lemma ConfirmingIsDone(env: Env, s: KeyState, e: ExecId)
    requires Inv(s) && e in s.execs && s.execs[e].pc.Confirming? && Leased(env, s.execs[e])
    ensures Done(Apply(env, s, RecordConfirmed(e)), e, s.execs[e].pc.id)
  {
    var id := s.execs[e].pc.id;
    assert PcKnows(s, s.execs[e]);
    ConfirmMeans(s.rows, id);
    if Completed(s.rows) { assert TrueId(s.landed, s.rows.receipts[0]); }
  }

  /** A read that finds the object, the first one or the readback, goes on to confirm it. */
  lemma FoundIsConfirming(env: Env, s: KeyState, e: ExecId, id: string)
    requires Inv(s) && e in s.execs && (s.execs[e].pc.Reading? || s.execs[e].pc.ReadingBack?) && TrueId(s.landed, id)
    ensures Enabled(s, Observe(e, Found(id)))
    ensures Apply(env, s, Observe(e, Found(id))) == Goto(s, e, s.execs[e].(pc := Confirming(id)))
  {
    assert s.landed[0].id == id;
  }

  // ------------------------------------------------------------ recovery

  /** The three steps of an executor that finds the object already there. */
  function Recovery(key: Key, e: ExecId, jobId: JobId, owner: string, operation: string, id: string): seq<Event> {
    [OnKey(key, Begin(e, jobId, owner, operation)), OnKey(key, Observe(e, Found(id))), OnKey(key, RecordConfirmed(e))]
  }

  lemma BeginReads(env: Env, s: KeyState, e: ExecId, jobId: JobId, owner: string, operation: string)
    requires Inv(s) && s.landed != [] && e !in s.execs && |env.key| <= 200 && Joinable(s.rows, jobId, operation)
    requires HoldsLease(env.jobs, jobId, owner, env.now)
    ensures var x := Apply(env, s, Begin(e, jobId, owner, operation)).execs;
            e in x && x[e].pc == Reading && !x[e].mayCreate && x[e].jobId == jobId && x[e].owner == owner
    ensures Apply(env, s, Begin(e, jobId, owner, operation)).landed == s.landed
  {
    assert LandedBy(s.landed, s.landed[0].writer);
    assert Writer(s, s.landed[0].writer);
    BeginMeans(env.key, s.rows, jobId, operation);
  }

  lemma RecoveryStep(env: Env, s: KeyState, e: ExecId, jobId: JobId, owner: string, operation: string)
    requires Inv(s) && s.landed != [] && e !in s.execs && |env.key| <= 200 && Joinable(s.rows, jobId, operation)
    requires HoldsLease(env.jobs, jobId, owner, env.now)
    ensures var id := s.landed[0].id;
            var s1 := Apply(env, s, Begin(e, jobId, owner, operation));
            && Enabled(s1, Observe(e, Found(id)))
            && var s2 := Apply(env, s1, Observe(e, Found(id)));
               Enabled(s2, RecordConfirmed(e)) && Done(Apply(env, s2, RecordConfirmed(e)), e, id)
  {
    var id, begin := s.landed[0].id, Begin(e, jobId, owner, operation);
    BeginReads(env, s, e, jobId, owner, operation);
    StepInv(env, s, begin);
    var s1 := Apply(env, s, begin);
    FoundIsConfirming(env, s1, e, id);
    StepInv(env, s1, Observe(e, Found(id)));
    ConfirmingIsDone(env, Apply(env, s1, Observe(e, Found(id))), e);
  }

  /**
   After any run whatever, if the provider holds an object for the key, an executor of the key's job and
   operation that starts under its lease and sees the object completes the key and returns that object.
   */
  lemma RecoveryCompletes(sys: System, run: seq<Event>, key: Key, e: ExecId, jobId: JobId, owner: string, operation: string)
    requires Start(sys) && IsRun(sys, run) && |key| <= 200
    requires var s := At(End(sys, run), key);
             s.landed != [] && e !in s.execs && Joinable(s.rows, jobId, operation)
    requires HoldsLease(End(sys, run).jobs, jobId, owner, End(sys, run).now)
    ensures var end, id := End(sys, run), At(End(sys, run), key).landed[0].id;
            var steps := Recovery(key, e, jobId, owner, operation, id);
            IsRun(end, steps) && Done(At(End(end, steps), key), e, id)
  {
    StartInv(sys);
    RunInv(sys, run);
    var end := End(sys, run);
    var s, env := At(end, key), Env(key, end.jobs, end.now);
    assert Inv(s);
    RecoveryStep(env, s, e, jobId, owner, operation);
    ThreeOnKey(end, key, Begin(e, jobId, owner, operation), Observe(e, Found(s.landed[0].id)), RecordConfirmed(e));
  }

  /** Three steps on one key, with no event between them. */
  lemma ThreeOnKey(sys: System, key: Key, a: Step, b: Step, c: Step)
    requires var env := Env(key, sys.jobs, sys.now);
             && Enabled(At(sys, key), a) && Enabled(Apply(env, At(sys, key), a), b)
             && Enabled(Apply(env, Apply(env, At(sys, key), a), b), c)
    ensures var env := Env(key, sys.jobs, sys.now);
            var steps := [OnKey(key, a), OnKey(key, b), OnKey(key, c)];
            && IsRun(sys, steps) && End(sys, steps).jobs == sys.jobs && End(sys, steps).now == sys.now
            && At(End(sys, steps), key) == Apply(env, Apply(env, Apply(env, At(sys, key), a), b), c)
  {
    var s1 := After(sys, OnKey(key, a));
    var s2 := After(s1, OnKey(key, b));
    RunCons(s2, OnKey(key, c), []);
    RunCons(s1, OnKey(key, b), [OnKey(key, c)]);
    RunCons(sys, OnKey(key, a), [OnKey(key, b), OnKey(key, c)]);
    assert [OnKey(key, c)] + [] == [OnKey(key, c)];
    assert [OnKey(key, b)] + [OnKey(key, c)] == [OnKey(key, b), OnKey(key, c)];
    assert [OnKey(key, a)] + [OnKey(key, b), OnKey(key, c)] == [OnKey(key, a), OnKey(key, b), OnKey(key, c)];
  }

  // ------------------------------------------------------------ the first attempt

  /** The write landed: its executor gets the id, stores it, and is let through to the readback. */
  lemma AnswerIsStored(env: Env, s: KeyState, e: ExecId, id: string)
    requires Inv(s) && e in s.execs && s.execs[e].pc.Sent? && Leased(env, s.execs[e]) && !Completed(s.rows)
    requires s.landed == [Write(e, id)]
    ensures Enabled(s, CreateReturns(e, id))
    ensures var s1 := Apply(env, s, CreateReturns(e, id));
            && Enabled(s1, RecordAccepted(e))
            && var s2 := Apply(env, s1, RecordAccepted(e));
               && s2.rows == s.rows.(attempts := s.rows.attempts + [Attempt(|s.rows.attempts|, Unknown, Some(id))])
               && e in s2.execs && s2.execs[e].pc == Rechecking && s2.landed == s.landed
               && s2.execs[e].jobId == s.execs[e].jobId && s2.execs[e].owner == s.execs[e].owner
  {
    assert s.landed[0] == Write(e, id);
    assert PcKnows(s, s.execs[e]);
    AcceptMeans(s.rows, s.execs[e].jobId, s.execs[e].operation, id);
  }

  /** From there, recheck, readback and closing block complete the key. */
  lemma ReadbackIsDone(env: Env, s: KeyState, e: ExecId, id: string)
    requires Inv(s) && e in s.execs && s.execs[e].pc.Rechecking? && Leased(env, s.execs[e]) && TrueId(s.landed, id)
    ensures Enabled(s, Recheck(e))
    ensures var s1 := Apply(env, s, Recheck(e));
            && Enabled(s1, Observe(e, Found(id)))
            && var s2 := Apply(env, s1, Observe(e, Found(id)));
               Enabled(s2, RecordConfirmed(e)) && Done(Apply(env, s2, RecordConfirmed(e)), e, id)
  {
    StepInv(env, s, Recheck(e));
    var s1 := Apply(env, s, Recheck(e));
    FoundIsConfirming(env, s1, e, id);
    StepInv(env, s1, Observe(e, Found(id)));
    ConfirmingIsDone(env, Apply(env, s1, Observe(e, Found(id))), e);
  }

  /** What an executor that sent its request does when all goes well. */
  function Answered(key: Key, e: ExecId, id: string): seq<Event> {
    [OnKey(key, Land(e, id)), OnKey(key, CreateReturns(e, id)), OnKey(key, RecordAccepted(e))]
  }

  function Closing(key: Key, e: ExecId, id: string): seq<Event> {
    [OnKey(key, Recheck(e)), OnKey(key, Observe(e, Found(id))), OnKey(key, RecordConfirmed(e))]
  }

  lemma LandsFirst(env: Env, s: KeyState, e: ExecId, id: string)
    requires Inv(s) && e in s.inFlight && id != ""
    ensures Enabled(s, Land(e, id)) && Apply(env, s, Land(e, id)).landed == [Write(e, id)]
  {
    assert Writer(s, e);
    if s.landed != [] {
      assert LandedBy(s.landed, s.landed[0].writer);
      assert Writer(s, s.landed[0].writer);
      assert false;
    }
  }

  /**
   From any reachable state in which a request is out on an open key, under a lease that holds: the write
   lands, the id is stored, the readback sees it, and the key is completed with it and returned.
   */
  lemma FirstWriteCompletes(sys: System, run: seq<Event>, key: Key, e: ExecId, id: string)
    requires Start(sys) && IsRun(sys, run) && id != ""
    requires var s := At(End(sys, run), key);
             e in s.execs && s.execs[e].pc.Sent? && e in s.inFlight && !Completed(s.rows)
             && HoldsLease(End(sys, run).jobs, s.execs[e].jobId, s.execs[e].owner, End(sys, run).now)
    ensures var end := End(sys, run);
            && IsRun(end, Answered(key, e, id))
            && var stored := End(end, Answered(key, e, id));
               IsRun(stored, Closing(key, e, id)) && Done(At(End(stored, Closing(key, e, id)), key), e, id)
  {
    StartInv(sys);
    RunInv(sys, run);
    var end := End(sys, run);
    var s, env := At(end, key), Env(key, end.jobs, end.now);
    assert Inv(s);
    LandsFirst(env, s, e, id);
    StepInv(env, s, Land(e, id));
    var s1 := Apply(env, s, Land(e, id));
    AnswerIsStored(env, s1, e, id);
    ThreeOnKey(end, key, Land(e, id), CreateReturns(e, id), RecordAccepted(e));
    var stored := End(end, Answered(key, e, id));
    RunInv(end, Answered(key, e, id));
    assert Inv(At(stored, key));
    ReadbackIsDone(env, At(stored, key), e, id);
    ThreeOnKey(stored, key, Recheck(e), Observe(e, Found(id)), RecordConfirmed(e));
  }

  /** The ordinary run from a fresh start: claim, reserve, look, check, write, store, read back, complete. */
  lemma OrdinaryRun()
    ensures exists run :: Start(ONE_JOB) && IsRun(ONE_JOB, run) && Done(At(End(ONE_JOB, run), KEY), 0, "x")
  {
    SentRuns();
    var first := TAKEOVER[..5];
    assert End(ONE_JOB, first) == SENT;
    FirstWriteCompletes(ONE_JOB, first, KEY, 0, "x");
    var second, third := Answered(KEY, 0, "x"), Closing(KEY, 0, "x");
    RunAppend(ONE_JOB, first, second);
    RunAppend(ONE_JOB, first + second, third);
  }
}

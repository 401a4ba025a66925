/**
 `SqlDraftEffects.execute` as a transition system over one idempotency key: any
 number of executors, each with a program counter and its locals, over the key's
 rows and the provider. Leases, crashes, lost responses and late writes are steps.

 Assumed of the environment, and written into `Enabled`:
 - `create` sends at most one request, and raises `DraftRunRefused` only when that
   request neither landed nor can land;
 - an object a provider call returns was written under the key, and its id is
   either blank or the id it was written with.
 */
module EffectProtocol {
  import opened Options
  import opened EffectTables

  type ExecId = nat

  datatype Pc =
    | Reading                    // about to call reconcile(known_id)
    | Checking                   // nothing observed; about to re-check the lease
    | Creating                   // mutation_started; nothing sent yet
    | Sent                       // request handed to the provider
    | Accepting(id: string)      // create returned this id
    | Rechecking                 // accepted id stored; about to re-check the lease
    | ReadingBack                // about to call reconcile(created_id)
    | Confirming(id: string)     // observed; about to write the closing block
    | Failing(refused: bool)     // in the exception handler
    | Returned(id: string)
    | Raised
    | Crashed

  datatype Exec = Exec(jobId: JobId, owner: string, operation: string,
                       knownId: Option<string>, mayCreate: bool,
                       mutationStarted: bool, createReturned: bool, pc: Pc)

  datatype Write = Write(writer: ExecId, id: string)

  datatype KeyState = KeyState(rows: Rows, execs: map<ExecId, Exec>, inFlight: set<ExecId>, landed: seq<Write>)

  const INITIAL := KeyState(NO_ROWS, map[], {}, [])

  datatype Env = Env(key: Key, jobs: map<JobId, Job>, now: int)

  datatype Observation = NotFound | Found(id: string)

  datatype Step =
    | Begin(e: ExecId, jobId: JobId, owner: string, operation: string)
    | Observe(e: ExecId, seen: Observation)
    | Check(e: ExecId)
    | Send(e: ExecId)
    | Land(e: ExecId, id: string)
    | Drop(e: ExecId)
    | CreateReturns(e: ExecId, id: string)
    | RecordAccepted(e: ExecId)
    | Recheck(e: ExecId)
    | Raise(e: ExecId, refused: bool)
    | RecordFailure(e: ExecId)
    | RecordConfirmed(e: ExecId)
    | Crash(e: ExecId)

  predicate Final(pc: Pc) { pc.Returned? || pc.Raised? || pc.Crashed? }

  /** Program points inside the `try` block, where an ordinary exception reaches the handler. */
  predicate InTry(pc: Pc) {
    pc.Reading? || pc.Checking? || pc.Creating? || pc.Sent? || pc.Accepting? || pc.Rechecking? || pc.ReadingBack?
  }

  predicate LandedBy(landed: seq<Write>, e: ExecId) {
    exists i :: 0 <= i < |landed| && landed[i].writer == e
  }

  /** What an honest provider may report of the objects written so far. */
  predicate Reportable(landed: seq<Write>, id: string) {
    exists i :: 0 <= i < |landed| && (id == "" || landed[i].id == id)
  }

  predicate DefiniteAbsence(x: Exec, refused: bool) {
    x.mayCreate && (!x.mutationStarted || (refused && !x.createReturned))
  }

  predicate Enabled(s: KeyState, step: Step) {
    if step.Begin? then step.e !in s.execs
    else if step.e !in s.execs then false
    else
      var x := s.execs[step.e];
      match step
      case Observe(_, seen) => (x.pc.Reading? || x.pc.ReadingBack?) && (seen.Found? ==> Reportable(s.landed, seen.id))
      case Check(_) => x.pc.Checking?
      case Send(_) => x.pc.Creating?
      case Land(e, id) => e in s.inFlight && id != ""
      case Drop(e) => e in s.inFlight
      case CreateReturns(e, id) =>
        x.pc.Sent? && exists i :: 0 <= i < |s.landed| && s.landed[i].writer == e && (id == "" || s.landed[i].id == id)
      case RecordAccepted(_) => x.pc.Accepting?
      case Recheck(_) => x.pc.Rechecking?
      case Raise(e, refused) =>
        && InTry(x.pc)
        && (refused && x.mutationStarted && !x.createReturned ==> e !in s.inFlight && !LandedBy(s.landed, e))
      case RecordFailure(_) => x.pc.Failing?
      case RecordConfirmed(_) => x.pc.Confirming?
      case Crash(_) => !Final(x.pc)
  }

  function Goto(s: KeyState, e: ExecId, x: Exec): KeyState {
    s.(execs := s.execs[e := x])
  }

  function Commit(s: KeyState, e: ExecId, x: Exec, rows: Rows): KeyState {
    s.(execs := s.execs[e := x], rows := rows)
  }

  function Apply(env: Env, s: KeyState, step: Step): KeyState
    requires Enabled(s, step)
  {
    match step
    case Begin(e, jobId, owner, operation) =>
      var fresh' := Exec(jobId, owner, operation, None, false, false, false, Raised);
      if !HoldsLease(env.jobs, jobId, owner, env.now) then Goto(s, e, fresh')
      else (
        match BeginTx(env.key, s.rows, jobId, operation)
        case BeginRefused => Goto(s, e, fresh')
        case Begun(rows, knownId, mayCreate) =>
          Commit(s, e, fresh'.(knownId := knownId, mayCreate := mayCreate, pc := Reading), rows)
      )
    case Observe(e, seen) =>
      var x := s.execs[e];
      if seen.NotFound? then
        Goto(s, e, x.(pc := if x.pc.Reading? && x.mayCreate then Checking else Failing(false)))
      else if seen.id == "" || (x.knownId.Some? && seen.id != x.knownId.value) then Goto(s, e, x.(pc := Failing(false)))
      else Goto(s, e, x.(pc := Confirming(seen.id)))
    case Check(e) =>
      var x := s.execs[e];
      if !HoldsLease(env.jobs, x.jobId, x.owner, env.now) then Goto(s, e, x.(pc := Failing(true)))
      else if !OpenForWrite(s.rows) then Goto(s, e, x.(pc := Failing(false)))
      else Goto(s, e, x.(mutationStarted := true, pc := Creating))
    case Send(e) => Goto(s, e, s.execs[e].(pc := Sent)).(inFlight := s.inFlight + {e})
    case Land(e, id) => s.(inFlight := s.inFlight - {e}, landed := s.landed + [Write(e, id)])
    case Drop(e) => s.(inFlight := s.inFlight - {e})
    case CreateReturns(e, id) =>
      var x := s.execs[e].(createReturned := true);
      if id == "" then Goto(s, e, x.(pc := Failing(false)))
      else Goto(s, e, x.(knownId := Some(id), pc := Accepting(id)))
    case RecordAccepted(e) =>
      var x := s.execs[e];
      if !ScopedJob(env.jobs, x.jobId) then Goto(s, e, x.(pc := Failing(true)))
      else (
        match AcceptTx(s.rows, x.jobId, x.operation, x.pc.id)
        case None => Goto(s, e, x.(pc := Failing(false)))
        case Some(rows) => Commit(s, e, x.(pc := Rechecking), rows)
      )
    case Recheck(e) =>
      var x := s.execs[e];
      Goto(s, e, x.(pc := if HoldsLease(env.jobs, x.jobId, x.owner, env.now) then ReadingBack else Failing(true)))
    case Raise(e, refused) => Goto(s, e, s.execs[e].(pc := Failing(refused)))
    case RecordFailure(e) =>
      var x := s.execs[e];
      if !HoldsLease(env.jobs, x.jobId, x.owner, env.now) then Goto(s, e, x.(pc := Raised))
      else Commit(s, e, x.(pc := Raised), FailTx(s.rows, DefiniteAbsence(x, x.pc.refused), x.knownId))
    case RecordConfirmed(e) =>
      var x := s.execs[e];
      if !HoldsLease(env.jobs, x.jobId, x.owner, env.now) then Goto(s, e, x.(pc := Raised))
      else (
        match ConfirmTx(s.rows, x.pc.id)
        case None => Goto(s, e, x.(pc := Raised))
        case Some(rows) => Commit(s, e, x.(pc := Returned(x.pc.id)), rows)
      )
    case Crash(e) => Goto(s, e, s.execs[e].(pc := Crashed))
  }

  // ------------------------------------------------------------ the inductive invariant

  /** The executor may still write, or may still declare that it did not. */
  predicate HoldsRight(x: Exec) {
    && x.mayCreate
    && (x.pc.Reading? || x.pc.Checking? || x.pc.Creating? || x.pc.Sent?
        || (x.pc.Failing? && DefiniteAbsence(x, x.pc.refused)))
  }

  /** The executor holds the right to create, or has a request out, or has written. */
  predicate Writer(s: KeyState, e: ExecId) {
    || (e in s.execs && HoldsRight(s.execs[e]))
    || e in s.inFlight
    || LandedBy(s.landed, e)
  }

  /** Nothing was ever reserved, or the latest attempt says ABSENT. */
  predicate RetryAllowed(rows: Rows) {
    rows.attempts == [] || rows.attempts[|rows.attempts| - 1].state == Absent
  }

  /** A request of this executor is out or has landed, and its locals admit it. */
  predicate PastSend(x: Exec) {
    && x.mutationStarted
    && !x.pc.Reading? && !x.pc.Checking? && !x.pc.Creating?
    && !(x.pc.Failing? && DefiniteAbsence(x, x.pc.refused))
  }

  ghost predicate OneWriter(s: KeyState) {
    && |s.landed| <= 1
    && (forall e, f :: Writer(s, e) && Writer(s, f) ==> e == f)
    && (RetryAllowed(s.rows) ==> forall e :: !Writer(s, e))
    && (forall e :: e in s.inFlight ==> !LandedBy(s.landed, e))
    && (forall e :: e in s.inFlight || LandedBy(s.landed, e) ==>
          e in s.execs && PastSend(s.execs[e]))
  }

  /** The one id the provider ever gave this key. */
  predicate TrueId(landed: seq<Write>, id: string) {
    |landed| == 1 && landed[0].id == id && id != ""
  }

  ghost predicate IdsTrue(s: KeyState) {
    && (forall i :: 0 <= i < |s.landed| ==> s.landed[i].id != "")
    && (forall i :: 0 <= i < |s.rows.attempts| && s.rows.attempts[i].objectId.Some? ==>
          TrueId(s.landed, s.rows.attempts[i].objectId.value))
    && (forall e :: e in s.execs && s.execs[e].knownId.Some? ==> TrueId(s.landed, s.execs[e].knownId.value))
  }

  /** What each program counter knows. */
  ghost predicate PcKnows(s: KeyState, x: Exec) {
    && (x.pc.Reading? ==> !x.mutationStarted && !x.createReturned)
    && (x.pc.Checking? ==> x.mayCreate && !x.mutationStarted && !x.createReturned)
    && (x.pc.Creating? || x.pc.Sent? ==> x.mayCreate && x.mutationStarted && !x.createReturned)
    && (x.pc.Accepting? ==> x.mutationStarted && x.createReturned && x.knownId == Some(x.pc.id) && TrueId(s.landed, x.pc.id))
    && (x.pc.Rechecking? || x.pc.ReadingBack? ==> x.mutationStarted && x.createReturned && x.knownId.Some?)
    && (x.pc.Confirming? ==> TrueId(s.landed, x.pc.id))
    && (!Final(x.pc) ==> s.rows.reservation.Some? && s.rows.reservation.value.jobId == x.jobId
                         && s.rows.reservation.value.operation == x.operation)
    && (x.pc.Returned? ==> Completed(s.rows) && s.rows.receipts == [x.pc.id])
  }

  ghost predicate Inv(s: KeyState) {
    && RowsInv(s.rows)
    && OneWriter(s)
    && IdsTrue(s)
    && forall e :: e in s.execs ==> PcKnows(s, s.execs[e])
  }
}

/**
 The rows one idempotency key owns, and the five transactions of
 `SqlDraftEffects.execute` as functions on those rows.

 A transaction here is the body of one `session.begin()` block. The job row lock
 and the unique key on `idempotency_records` make each block atomic.
 */
module EffectTables {
  import opened Options

  type Key = string
  type JobId = nat

  datatype EffectState = Confirmed | Absent | Unknown

  datatype Attempt = Attempt(number: nat, state: EffectState, objectId: Option<string>)

  datatype Reservation = Reservation(jobId: JobId, operation: string, completed: bool)

  /** Everything stored under one idempotency key. */
  datatype Rows = Rows(reservation: Option<Reservation>, attempts: seq<Attempt>, receipts: seq<string>)

  const NO_ROWS := Rows(None, [], [])

  datatype JobStatus = Ready | Running | Other

  /** `inScope` stands for the static identity checks of `_scoped_job`. */
  datatype Job = Job(inScope: bool, status: JobStatus, leaseOwner: Option<string>, leaseExpires: Option<int>)

  const MAX_KEY_LENGTH := 200

  predicate ScopedJob(jobs: map<JobId, Job>, id: JobId) {
    id in jobs && jobs[id].inScope
  }

  /** `_job`: the scoped job is running and `owner` holds an unexpired lease on it. */
  predicate HoldsLease(jobs: map<JobId, Job>, id: JobId, owner: string, now: int) {
    && ScopedJob(jobs, id)
    && jobs[id].status == Running
    && jobs[id].leaseOwner == Some(owner)
    && jobs[id].leaseExpires.Some?
    && jobs[id].leaseExpires.value > now
  }

  predicate Completed(rows: Rows) {
    rows.reservation.Some? && rows.reservation.value.completed
  }

  /** The attempt with the highest number, as `get_latest_effect_attempt` orders them. */
  function Latest(log: seq<Attempt>): (r: Option<Attempt>)
    ensures r.None? <==> log == []
    ensures r.Some? ==> r.value in log
  {
    if log == [] then None
    else
      var last := log[|log| - 1];
      var rest := Latest(log[..|log| - 1]);
      if rest.Some? && rest.value.number > last.number then rest else Some(last)
  }

  function NextNumber(log: seq<Attempt>): nat {
    match Latest(log)
    case None => 0
    case Some(prior) => prior.number + 1
  }

  function Record(log: seq<Attempt>, state: EffectState, objectId: Option<string>): seq<Attempt> {
    log + [Attempt(NextNumber(log), state, objectId)]
  }

  // ------------------------------------------------------------ transactions

  datatype BeginResult = BeginRefused | Begun(rows: Rows, knownId: Option<string>, mayCreate: bool)

  /** The opening block: reserve the key or join the reservation already there. */
  function BeginTx(key: Key, rows: Rows, jobId: JobId, operation: string): BeginResult {
    if |key| > MAX_KEY_LENGTH then BeginRefused
    else if rows.reservation.Some?
            && (rows.reservation.value.jobId != jobId || rows.reservation.value.operation != operation) then BeginRefused
    else
      var isFresh := rows.reservation.None?;
      var reserved := if isFresh then rows.(reservation := Some(Reservation(jobId, operation, false))) else rows;
      var latest := Latest(rows.attempts);
      var knownId := if latest.Some? then latest.value.objectId else None;
      var mayCreate := isFresh || (latest.Some? && latest.value.state == Absent && !Completed(rows));
      var claimed := if mayCreate then reserved.(attempts := Record(rows.attempts, Unknown, knownId)) else reserved;
      Begun(claimed, knownId, mayCreate)
  }

  /** The reservation is still open just before the write. */
  predicate OpenForWrite(rows: Rows) {
    rows.reservation.Some? && !rows.reservation.value.completed
  }

  /** The accepted id is stored before any readback. `None` is `DraftEffectUncertain`. */
  function AcceptTx(rows: Rows, jobId: JobId, operation: string, createdId: string): Option<Rows> {
    if rows.reservation.None? || rows.reservation.value.jobId != jobId || rows.reservation.value.operation != operation
    then None
    else if rows.reservation.value.completed then
      var prior := Latest(rows.attempts);
      if prior.None? || prior.value.state != Confirmed || prior.value.objectId != Some(createdId) then None
      else Some(rows)
    else Some(rows.(attempts := Record(rows.attempts, Unknown, Some(createdId))))
  }

  /** The exception handler's block. */
  function FailTx(rows: Rows, definiteAbsence: bool, knownId: Option<string>): Rows {
    if OpenForWrite(rows) then
      rows.(attempts := Record(rows.attempts, if definiteAbsence then Absent else Unknown,
                               if definiteAbsence then None else knownId))
    else rows
  }

  /** The closing block. `None` is the missing reservation. */
  function ConfirmTx(rows: Rows, objectId: string): Option<Rows> {
    if rows.reservation.None? then None
    else if rows.reservation.value.completed then Some(rows)
    else Some(Rows(Some(rows.reservation.value.(completed := true)),
                   Record(rows.attempts, Confirmed, Some(objectId)),
                   rows.receipts + [objectId]))
  }

  // ------------------------------------------------------------ leases

  const LEASE_SECONDS := 7200

  /** `claim_build_job` after its scope checks. `None` is a refusal. */
  function ClaimTx(job: Job, owner: string, now: int): Option<Job> {
    if !job.inScope then None
    else if job.status == Running && job.leaseExpires.Some? && job.leaseExpires.value > now then None
    else if job.status != Ready && job.status != Running then None
    else Some(job.(status := Running, leaseOwner := Some(owner), leaseExpires := Some(now + LEASE_SECONDS)))
  }

  /** The `finally` block: the owner gives its lease up by expiring it. */
  function ExpireTx(job: Job, owner: string, now: int): Job {
    if job.status == Running && job.leaseOwner == Some(owner) then job.(leaseExpires := Some(now)) else job
  }

  // ------------------------------------------------------------ what every transaction keeps

  ghost predicate Numbered(log: seq<Attempt>) {
    forall i :: 0 <= i < |log| ==> log[i].number == i
  }

  ghost predicate CheckConstraints(log: seq<Attempt>) {
    forall i :: 0 <= i < |log| ==>
      && (log[i].state == Confirmed ==> log[i].objectId.Some?)
      && (log[i].state == Absent ==> log[i].objectId.None?)
  }

  /** A key is completed exactly when its last attempt is CONFIRMED and it has its one receipt, with that id. */
  ghost predicate RowsInv(rows: Rows) {
    && Numbered(rows.attempts)
    && CheckConstraints(rows.attempts)
    && (rows.reservation.None? <==> rows.attempts == [])
    && (Completed(rows) <==> |rows.receipts| == 1)
    && (!Completed(rows) <==> rows.receipts == [])
    && (forall i :: 0 <= i < |rows.attempts| ==>
          (rows.attempts[i].state == Confirmed <==> Completed(rows) && i == |rows.attempts| - 1))
    && (Completed(rows) ==> rows.attempts[|rows.attempts| - 1].objectId == Some(rows.receipts[0]))
  }

  /** No attempt has a higher number than the latest one, however the log is numbered. */
  lemma {:induction false} LatestIsHighest(log: seq<Attempt>)
    ensures forall a :: a in log ==> a.number <= Latest(log).value.number
    decreases |log|
  {
    if log != [] {
      LatestIsHighest(log[..|log| - 1]);
      assert log == log[..|log| - 1] + [log[|log| - 1]];
    }
  }

  lemma LatestIsLast(log: seq<Attempt>)
    requires Numbered(log)
    ensures log != [] ==> Latest(log) == Some(log[|log| - 1])
    ensures NextNumber(log) == |log|
  {
    if log != [] {
      var rest := Latest(log[..|log| - 1]);
      assert rest.Some? ==> rest.value in log[..|log| - 1];
    }
  }

  /** Attempts stay numbered 0..n-1: a recorded attempt takes the next free number. */
  lemma RecordKeepsNumbers(log: seq<Attempt>, state: EffectState, objectId: Option<string>)
    requires Numbered(log)
    ensures Numbered(Record(log, state, objectId))
    ensures Record(log, state, objectId) == log + [Attempt(|log|, state, objectId)]
    ensures Latest(Record(log, state, objectId)) == Some(Attempt(|log|, state, objectId))
  {
    LatestIsLast(log);
    LatestIsLast(Record(log, state, objectId));
  }

  /** A reservation that this job and operation may join. */
  predicate Joinable(rows: Rows, jobId: JobId, operation: string) {
    rows.reservation.Some? ==> rows.reservation.value.jobId == jobId && rows.reservation.value.operation == operation
  }

  /**
   The opening block in full: refused exactly for a long key or another scope; otherwise
   the key is reserved, the last id is known, and a claim is one more UNKNOWN attempt without an id.
   */
  lemma BeginMeans(key: Key, rows: Rows, jobId: JobId, operation: string)
    requires RowsInv(rows)
    ensures var r := BeginTx(key, rows, jobId, operation);
            var n := |rows.attempts|;
            && (r.Begun? <==> |key| <= 200 && Joinable(rows, jobId, operation))
            && (r.Begun? ==>
                  && r.mayCreate == (n == 0 || rows.attempts[n - 1].state == Absent)
                  && r.knownId == (if n == 0 then None else rows.attempts[n - 1].objectId)
                  && r.rows.reservation == (if n == 0 then Some(Reservation(jobId, operation, false)) else rows.reservation)
                  && r.rows.attempts == (if r.mayCreate then rows.attempts + [Attempt(n, Unknown, None)] else rows.attempts)
                  && r.rows.receipts == rows.receipts)
  {
    LatestIsLast(rows.attempts);
    RecordKeepsNumbers(rows.attempts, Unknown, None);
  }

  /**
   Storing an accepted id in full: it fails exactly for another reservation or for a key completed
   with another object; an open key gains one UNKNOWN attempt with the id.
   */
  lemma AcceptMeans(rows: Rows, jobId: JobId, operation: string, createdId: string)
    requires RowsInv(rows)
    ensures var r := AcceptTx(rows, jobId, operation, createdId);
            && (r.Some? <==> && rows.reservation.Some? && Joinable(rows, jobId, operation)
                             && (rows.reservation.value.completed ==> rows.receipts == [createdId]))
            && (r.Some? && rows.reservation.value.completed ==> r.value == rows)
            && (r.Some? && !rows.reservation.value.completed ==>
                  r.value == rows.(attempts := rows.attempts + [Attempt(|rows.attempts|, Unknown, Some(createdId))]))
  {
    LatestIsLast(rows.attempts);
    RecordKeepsNumbers(rows.attempts, Unknown, Some(createdId));
  }

  /** The failure block in full: one more attempt on an open key, ABSENT without an id or UNKNOWN with the known one. */
  lemma FailMeans(rows: Rows, absent: bool, knownId: Option<string>)
    requires RowsInv(rows)
    ensures FailTx(rows, absent, knownId) ==
            if rows.reservation.None? || rows.reservation.value.completed then rows
            else if absent then rows.(attempts := rows.attempts + [Attempt(|rows.attempts|, Absent, None)])
            else rows.(attempts := rows.attempts + [Attempt(|rows.attempts|, Unknown, knownId)])
  {
    RecordKeepsNumbers(rows.attempts, Absent, None);
    RecordKeepsNumbers(rows.attempts, Unknown, knownId);
  }

  /**
   The closing block in full: with a reservation it always succeeds; an open key gains the
   CONFIRMED attempt, its one receipt and the completion mark together, all for this object.
   */
  lemma ConfirmMeans(rows: Rows, objectId: string)
    requires RowsInv(rows)
    ensures var r := ConfirmTx(rows, objectId);
            && (r.Some? <==> rows.reservation.Some?)
            && (r.Some? && rows.reservation.value.completed ==> r.value == rows)
            && (r.Some? && !rows.reservation.value.completed ==>
                  && r.value.attempts == rows.attempts + [Attempt(|rows.attempts|, Confirmed, Some(objectId))]
                  && r.value.receipts == [objectId]
                  && r.value.reservation
                     == Some(Reservation(rows.reservation.value.jobId, rows.reservation.value.operation, true)))
  {
    RecordKeepsNumbers(rows.attempts, Confirmed, Some(objectId));
  }

  /** Claiming in full: who may, and that the lease then runs for two hours. */
  lemma ClaimMeans(job: Job, owner: string, now: int)
    ensures var r := ClaimTx(job, owner, now);
            && (r.Some? <==> && job.inScope && (job.status == Ready || job.status == Running)
                             && !(job.status == Running && job.leaseExpires.Some? && now < job.leaseExpires.value))
            && (r.Some? ==> r.value == Job(true, Running, Some(owner), Some(now + 2 * 60 * 60)))
  {
  }

  /** Giving a lease up: the owner's own running job expires now, any other job is left alone. */
  lemma ExpireMeans(job: Job, owner: string, now: int)
    ensures var r := ExpireTx(job, owner, now);
            && (job.status == Running && job.leaseOwner == Some(owner) ==>
                  r == Job(job.inScope, Running, Some(owner), Some(now)))
            && (job.status != Running || job.leaseOwner != Some(owner) ==> r == job)
  {
  }

  lemma BeginKeepsRows(key: Key, rows: Rows, jobId: JobId, operation: string)
    requires RowsInv(rows)
    ensures var r := BeginTx(key, rows, jobId, operation);
            r.Begun? ==>
              && RowsInv(r.rows) && rows.attempts <= r.rows.attempts && r.rows.receipts == rows.receipts
              && (r.mayCreate ==> r.knownId.None? && !Completed(rows) && Latest(r.rows.attempts).value.state == Unknown)
              && (!r.mayCreate ==> r.rows == rows)
              && (r.mayCreate <==> rows.reservation.None? || rows.attempts[|rows.attempts| - 1].state == Absent)
  {
    LatestIsLast(rows.attempts);
    RecordKeepsNumbers(rows.attempts, Unknown, None);
  }

  lemma AcceptKeepsRows(rows: Rows, jobId: JobId, operation: string, createdId: string)
    requires RowsInv(rows)
    ensures var r := AcceptTx(rows, jobId, operation, createdId);
            r.Some? ==>
              && RowsInv(r.value) && rows.attempts <= r.value.attempts && r.value.receipts == rows.receipts
              && r.value.reservation == rows.reservation
              && r.value.attempts[|r.value.attempts| - 1].objectId == Some(createdId)
              && (Completed(rows) ==> r.value == rows)
  {
    LatestIsLast(rows.attempts);
    RecordKeepsNumbers(rows.attempts, Unknown, Some(createdId));
  }

  lemma FailKeepsRows(rows: Rows, definiteAbsence: bool, knownId: Option<string>)
    requires RowsInv(rows)
    ensures var r := FailTx(rows, definiteAbsence, knownId);
            RowsInv(r) && rows.attempts <= r.attempts && r.receipts == rows.receipts && r.reservation == rows.reservation
  {
    RecordKeepsNumbers(rows.attempts, Absent, None);
    RecordKeepsNumbers(rows.attempts, Unknown, knownId);
  }

  lemma ConfirmKeepsRows(rows: Rows, objectId: string)
    requires RowsInv(rows)
    ensures var r := ConfirmTx(rows, objectId);
            r.Some? ==>
              && RowsInv(r.value) && rows.attempts <= r.value.attempts && rows.receipts <= r.value.receipts
              && Completed(r.value)
              && (Completed(rows) ==> r.value == rows)
              && (!Completed(rows) ==> r.value.receipts == [objectId])
  {
    RecordKeepsNumbers(rows.attempts, Confirmed, Some(objectId));
  }
}

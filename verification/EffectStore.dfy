/**
 The tables behind `SqlDraftEffects`, updated in place. Each method is one
 `session.begin()` block and is proved equal to the transaction of the same name
 in `EffectTables`, on its own key, with every other key and every job untouched.
 */
module EffectStore {
  import opened Options
  import opened EffectTables

  datatype Outcome<+T> = Ok(value: T) | Refused | Uncertain

  class Store {
    var reservations: map<Key, Reservation>
    var attempts: map<Key, seq<Attempt>>
    var receipts: map<Key, seq<string>>
    var jobs: map<JobId, Job>

    constructor (jobs: map<JobId, Job>)
      ensures this.jobs == jobs
      ensures forall key :: RowsOf(key) == NO_ROWS
    {
      reservations, attempts, receipts := map[], map[], map[];
      this.jobs := jobs;
    }

    ghost function RowsOf(key: Key): Rows
      reads this
    {
      Rows(if key in reservations then Some(reservations[key]) else None,
           if key in attempts then attempts[key] else [],
           if key in receipts then receipts[key] else [])
    }

    twostate predicate OnlyKey(key: Key)
      reads this
    {
      && jobs == old(jobs)
      && forall other :: other != key ==> RowsOf(other) == old(RowsOf(other))
    }

    /** `get_latest_effect_attempt`: the row with the highest attempt number. */
    method LatestAttempt(key: Key) returns (latest: Option<Attempt>)
      ensures latest == Latest(RowsOf(key).attempts)
      ensures latest.Some? <==> RowsOf(key).attempts != []
      ensures latest.Some? ==>
                latest.value in RowsOf(key).attempts
                && forall a :: a in RowsOf(key).attempts ==> a.number <= latest.value.number
    {
      var log := if key in attempts then attempts[key] else [];
      latest := None;
      for i := 0 to |log|
        invariant latest == Latest(log[..i])
      {
        assert log[..i + 1][..i] == log[..i];
        if latest.None? || latest.value.number <= log[i].number {
          latest := Some(log[i]);
        }
      }
      assert log[..|log|] == log;
      LatestIsHighest(log);
    }

    method RecordAttempt(key: Key, state: EffectState, objectId: Option<string>)
      modifies this`attempts
      ensures RowsOf(key) == old(RowsOf(key)).(attempts := Record(old(RowsOf(key)).attempts, state, objectId))
      ensures OnlyKey(key)
    {
      var prior := LatestAttempt(key);
      var number := if prior.Some? then prior.value.number + 1 else 0;
      var log := if key in attempts then attempts[key] else [];
      attempts := attempts[key := log + [Attempt(number, state, objectId)]];
    }

    method BeginEffect(key: Key, jobId: JobId, owner: string, operation: string, now: int)
      returns (r: Outcome<(Option<string>, bool)>)
      modifies this`reservations, this`attempts
      ensures OnlyKey(key)
      ensures var tx := BeginTx(key, old(RowsOf(key)), jobId, operation);
              if HoldsLease(jobs, jobId, owner, now) && tx.Begun?
              then RowsOf(key) == tx.rows && r == Ok((tx.knownId, tx.mayCreate))
              else RowsOf(key) == old(RowsOf(key)) && r == Refused
    {
      if !HoldsLease(jobs, jobId, owner, now) || |key| > MAX_KEY_LENGTH {
        return Refused;
      }
      var isNew := key !in reservations;
      if !isNew && (reservations[key].jobId != jobId || reservations[key].operation != operation) {
        return Refused;
      }
      if isNew {
        reservations := reservations[key := Reservation(jobId, operation, false)];
      }
      var latest := LatestAttempt(key);
      var knownId := if latest.Some? then latest.value.objectId else None;
      var mayCreate := isNew || (latest.Some? && latest.value.state == Absent && !reservations[key].completed);
      if mayCreate {
        RecordAttempt(key, Unknown, knownId);
      }
      return Ok((knownId, mayCreate));
    }

    /** `assert_lease`, called by an adapter immediately before its write. */
    method AssertLease(key: Key, jobId: JobId, owner: string, now: int) returns (allowed: bool)
      ensures allowed <==> HoldsLease(jobs, jobId, owner, now) && OpenForWrite(RowsOf(key))
                           && RowsOf(key).reservation.value.jobId == jobId
    {
      allowed := HoldsLease(jobs, jobId, owner, now) && key in reservations
                 && reservations[key].jobId == jobId && !reservations[key].completed;
    }

    method AcceptEffect(key: Key, jobId: JobId, operation: string, createdId: string) returns (r: Outcome<()>)
      modifies this`attempts
      ensures OnlyKey(key)
      ensures var tx := AcceptTx(old(RowsOf(key)), jobId, operation, createdId);
              if !ScopedJob(jobs, jobId) then r == Refused && RowsOf(key) == old(RowsOf(key))
              else if tx.None? then r == Uncertain && RowsOf(key) == old(RowsOf(key))
              else r == Ok(()) && RowsOf(key) == tx.value
    {
      if !ScopedJob(jobs, jobId) { return Refused; }
      if key !in reservations || reservations[key].jobId != jobId || reservations[key].operation != operation {
        return Uncertain;
      }
      var prior := LatestAttempt(key);
      if reservations[key].completed {
        if prior.None? || prior.value.state != Confirmed || prior.value.objectId != Some(createdId) {
          return Uncertain;
        }
      } else {
        RecordAttempt(key, Unknown, Some(createdId));
      }
      return Ok(());
    }

    method FailEffect(key: Key, jobId: JobId, owner: string, now: int, definiteAbsence: bool, knownId: Option<string>)
      returns (r: Outcome<()>)
      modifies this`attempts
      ensures OnlyKey(key)
      ensures if HoldsLease(jobs, jobId, owner, now)
              then r == Ok(()) && RowsOf(key) == FailTx(old(RowsOf(key)), definiteAbsence, knownId)
              else r == Refused && RowsOf(key) == old(RowsOf(key))
    {
      if !HoldsLease(jobs, jobId, owner, now) { return Refused; }
      if key in reservations && !reservations[key].completed {
        RecordAttempt(key, if definiteAbsence then Absent else Unknown, if definiteAbsence then None else knownId);
      }
      return Ok(());
    }

    method ConfirmEffect(key: Key, jobId: JobId, owner: string, now: int, objectId: string) returns (r: Outcome<string>)
      modifies this`reservations, this`attempts, this`receipts
      ensures OnlyKey(key)
      ensures var tx := ConfirmTx(old(RowsOf(key)), objectId);
              if HoldsLease(jobs, jobId, owner, now) && tx.Some?
              then r == Ok(objectId) && RowsOf(key) == tx.value
              else r == Refused && RowsOf(key) == old(RowsOf(key))
    {
      if !HoldsLease(jobs, jobId, owner, now) || key !in reservations { return Refused; }
      if !reservations[key].completed {
        RecordAttempt(key, Confirmed, Some(objectId));
        receipts := receipts[key := (if key in receipts then receipts[key] else []) + [objectId]];
        reservations := reservations[key := reservations[key].(completed := true)];
      }
      return Ok(objectId);
    }

    method ClaimBuildJob(jobId: JobId, owner: string, now: int) returns (r: Outcome<Job>)
      modifies this`jobs
      ensures var tx := if jobId in old(jobs) then ClaimTx(old(jobs)[jobId], owner, now) else None;
              if tx.Some? then r == Ok(tx.value) && jobs == old(jobs)[jobId := tx.value]
              else r == Refused && jobs == old(jobs)
      ensures r.Ok? ==> HoldsLease(jobs, jobId, owner, now)
    {
      if jobId !in jobs || !jobs[jobId].inScope { return Refused; }
      var job := jobs[jobId];
      if job.status == Running && job.leaseExpires.Some? && job.leaseExpires.value > now { return Refused; }
      if job.status != Ready && job.status != Running { return Refused; }
      job := job.(status := Running, leaseOwner := Some(owner), leaseExpires := Some(now + LEASE_SECONDS));
      jobs := jobs[jobId := job];
      return Ok(job);
    }

    method ExpireLease(jobId: JobId, owner: string, now: int)
      modifies this`jobs
      ensures jobs == if jobId in old(jobs) then old(jobs)[jobId := ExpireTx(old(jobs)[jobId], owner, now)] else old(jobs)
      ensures forall later :: now <= later ==> !HoldsLease(jobs, jobId, owner, later)
    {
      if jobId in jobs && jobs[jobId].status == Running && jobs[jobId].leaseOwner == Some(owner) {
        jobs := jobs[jobId := jobs[jobId].(leaseExpires := Some(now))];
      }
    }
  }
}

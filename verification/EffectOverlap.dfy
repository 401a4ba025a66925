/** A lease takeover in which a recorded id disappears from the latest attempt. */
module EffectOverlap {
  import opened Options
  import opened EffectTables
  import opened EffectProtocol
  import opened EffectRuns

  const KEY := "k"
  const ONE_JOB: System := System(0, map[0 := Job(true, Ready, None, None)], map[])

  /** Executor 0 sends its request, its lease runs out before an answer, and executor 1 takes the job over. */
  const TAKEOVER: seq<Event> :=
    [ Claim(0, "a"),
      OnKey(KEY, Begin(0, 0, "a", "op")),
      OnKey(KEY, Observe(0, NotFound)),
      OnKey(KEY, Check(0)),
      OnKey(KEY, Send(0)),
      Tick(LEASE_SECONDS),
      Claim(0, "b"),
      OnKey(KEY, Begin(1, 0, "b", "op")),
      OnKey(KEY, Observe(1, NotFound)) ]

  /** Then the write lands and 0 stores its id, and 1 records its own failure after it. */
  const HIDDEN: seq<Event> :=
    [ OnKey(KEY, Land(0, "x")),
      OnKey(KEY, CreateReturns(0, "x")),
      OnKey(KEY, RecordAccepted(0)),
      OnKey(KEY, RecordFailure(1)) ]

  const LEASED_TO_B := map[0 := Job(true, Running, Some("b"), Some(LEASE_SECONDS + LEASE_SECONDS))]

  const RESERVED := Some(Reservation(0, "op", false))

  const STALLED := Exec(0, "a", "op", None, true, true, false, Sent)
  const BLIND := Exec(0, "b", "op", None, false, false, false, Failing(false))

  const AFTER_TAKEOVER := System(LEASE_SECONDS, LEASED_TO_B,
    map[KEY := KeyState(Rows(RESERVED, [Attempt(0, Unknown, None)], []), map[0 := STALLED, 1 := BLIND], {0}, [])])

  lemma RunCons(sys: System, ev: Event, rest: seq<Event>)
    requires Possible(sys, ev) && IsRun(After(sys, ev), rest)
    ensures IsRun(sys, [ev] + rest) && End(sys, [ev] + rest) == End(After(sys, ev), rest)
  {
    assert ([ev] + rest)[1..] == rest;
  }

  lemma {:induction false} RunAppend(sys: System, first: seq<Event>, second: seq<Event>)
    requires IsRun(sys, first) && IsRun(End(sys, first), second)
    ensures IsRun(sys, first + second) && End(sys, first + second) == End(End(sys, first), second)
    decreases |first|
  {
    if first == [] {
      assert first + second == second;
    } else {
      RunAppend(After(sys, first[0]), first[1..], second);
      assert first + second == [first[0]] + (first[1..] + second);
      RunCons(sys, first[0], first[1..] + second);
    }
  }

  const LEASED_TO_A := map[0 := Job(true, Running, Some("a"), Some(LEASE_SECONDS))]

  const SENT := System(0, LEASED_TO_A,
    map[KEY := KeyState(Rows(RESERVED, [Attempt(0, Unknown, None)], []), map[0 := STALLED], {0}, [])])

  lemma SentRuns()
    ensures IsRun(ONE_JOB, TAKEOVER[..5]) && End(ONE_JOB, TAKEOVER[..5]) == SENT
  {
    var s1 := After(ONE_JOB, TAKEOVER[0]);
    var s2 := After(s1, TAKEOVER[1]);
    assert At(s2, KEY).rows == Rows(RESERVED, [Attempt(0, Unknown, None)], []);
    var s3 := After(s2, TAKEOVER[2]);
    var s4 := After(s3, TAKEOVER[3]);
    var s5 := After(s4, TAKEOVER[4]);
    assert At(s5, KEY).execs == map[0 := STALLED];
    assert At(s5, KEY).inFlight == {0};
    assert s5.keys == SENT.keys;
    RunCons(s4, TAKEOVER[4], []);
    RunCons(s3, TAKEOVER[3], TAKEOVER[4..5]);
    RunCons(s2, TAKEOVER[2], TAKEOVER[3..5]);
    RunCons(s1, TAKEOVER[1], TAKEOVER[2..5]);
    RunCons(ONE_JOB, TAKEOVER[0], TAKEOVER[1..5]);
    assert [TAKEOVER[0]] + TAKEOVER[1..5] == TAKEOVER[..5];
  }

  lemma TakenRuns()
    ensures IsRun(SENT, TAKEOVER[5..]) && End(SENT, TAKEOVER[5..]) == AFTER_TAKEOVER
  {
    var s6 := After(SENT, TAKEOVER[5]);
    var s7 := After(s6, TAKEOVER[6]);
    var s8 := After(s7, TAKEOVER[7]);
    var s9 := After(s8, TAKEOVER[8]);
    assert At(s9, KEY).execs == map[0 := STALLED, 1 := BLIND];
    assert s9.keys == AFTER_TAKEOVER.keys;
    assert s9.jobs == LEASED_TO_B;
    RunCons(s8, TAKEOVER[8], []);
    RunCons(s7, TAKEOVER[7], TAKEOVER[8..]);
    RunCons(s6, TAKEOVER[6], TAKEOVER[7..]);
    RunCons(SENT, TAKEOVER[5], TAKEOVER[6..]);
  }

  lemma TakeoverRuns()
    ensures IsRun(ONE_JOB, TAKEOVER) && End(ONE_JOB, TAKEOVER) == AFTER_TAKEOVER
  {
    SentRuns();
    TakenRuns();
    RunAppend(ONE_JOB, TAKEOVER[..5], TAKEOVER[5..]);
    assert TAKEOVER[..5] + TAKEOVER[5..] == TAKEOVER;
  }

  const WRITTEN := System(LEASE_SECONDS, LEASED_TO_B,
    map[KEY := KeyState(Rows(RESERVED, [Attempt(0, Unknown, None)], []),
                        map[0 := STALLED.(knownId := Some("x"), createReturned := true, pc := Accepting("x")), 1 := BLIND],
                        {}, [Write(0, "x")])])

  lemma WrittenRuns()
    ensures IsRun(AFTER_TAKEOVER, HIDDEN[..2]) && End(AFTER_TAKEOVER, HIDDEN[..2]) == WRITTEN
  {
    var s1 := After(AFTER_TAKEOVER, HIDDEN[0]);
    assert At(s1, KEY).landed[0] == Write(0, "x");
    var s2 := After(s1, HIDDEN[1]);
    assert At(s2, KEY).execs == At(WRITTEN, KEY).execs;
    assert At(s2, KEY).inFlight == {};
    assert At(s2, KEY).landed == [Write(0, "x")];
    assert s2.keys == WRITTEN.keys;
    RunCons(s1, HIDDEN[1], []);
    RunCons(AFTER_TAKEOVER, HIDDEN[0], HIDDEN[1..2]);
    assert [HIDDEN[0]] + ([HIDDEN[1]] + []) == HIDDEN[..2];
  }

  const LOG := [Attempt(0, Unknown, None), Attempt(1, Unknown, Some("x"))]

  /** The id is on record and executor 1, which never learnt it, is about to record its failure. */
  ghost predicate Accepted(s: System) {
    && s.now == LEASE_SECONDS && s.jobs == LEASED_TO_B
    && At(s, KEY).rows == Rows(RESERVED, LOG, []) && 1 in At(s, KEY).execs && At(s, KEY).execs[1] == BLIND
  }

  lemma AcceptedNext()
    ensures Possible(WRITTEN, HIDDEN[2]) && Accepted(After(WRITTEN, HIDDEN[2]))
  {
    RecordKeepsNumbers([Attempt(0, Unknown, None)], Unknown, Some("x"));
  }

  lemma FailedNext(s: System)
    requires Accepted(s)
    ensures Possible(s, HIDDEN[3]) && At(After(s, HIDDEN[3]), KEY).rows.attempts == LOG + [Attempt(2, Unknown, None)]
  {
    RecordKeepsNumbers(LOG, Unknown, None);
  }

  lemma RecordedRuns()
    ensures IsRun(WRITTEN, HIDDEN[2..])
    ensures At(End(WRITTEN, HIDDEN[2..]), KEY).rows.attempts == LOG + [Attempt(2, Unknown, None)]
  {
    AcceptedNext();
    FailedNext(After(WRITTEN, HIDDEN[2]));
    TwoEvents(WRITTEN, HIDDEN[2], HIDDEN[3]);
    assert [HIDDEN[2], HIDDEN[3]] == HIDDEN[2..];
  }

  lemma TwoEvents(s: System, first: Event, second: Event)
    requires Possible(s, first) && Possible(After(s, first), second)
    ensures IsRun(s, [first, second]) && End(s, [first, second]) == After(After(s, first), second)
  {
    RunCons(After(s, first), second, []);
    RunCons(s, first, [second]);
    assert [first] + [second] == [first, second] && [second] + [] == [second];
  }

  lemma HiddenRuns()
    ensures IsRun(AFTER_TAKEOVER, HIDDEN)
    ensures At(End(AFTER_TAKEOVER, HIDDEN), KEY).rows.attempts == LOG + [Attempt(2, Unknown, None)]
  {
    WrittenRuns();
    RecordedRuns();
    RunAppend(AFTER_TAKEOVER, HIDDEN[..2], HIDDEN[2..]);
    assert HIDDEN[..2] + HIDDEN[2..] == HIDDEN;
  }

  /** "The latest attempt carries the recorded id" is false of overlapping executions. */
  lemma OverlapHidesAnId()
    ensures exists run ::
              && IsRun(ONE_JOB, run) && Start(ONE_JOB) && !Solo(ONE_JOB, run)
              && HasId(At(End(ONE_JOB, run), KEY).rows)
              && Latest(At(End(ONE_JOB, run), KEY).rows.attempts).value.objectId.None?
  {
    TakeoverRuns();
    HiddenRuns();
    RunAppend(ONE_JOB, TAKEOVER, HIDDEN);
    var run := TAKEOVER + HIDDEN;
    var rows := At(End(ONE_JOB, run), KEY).rows;
    assert Named(rows.attempts[1]);
    LatestIsLast(rows.attempts);
    if Solo(ONE_JOB, run) { IdCarriedForward(ONE_JOB, run, KEY, 0); }
  }
}

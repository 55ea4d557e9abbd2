/**
 * The database worker thread (DBAccessor in python/songdb.py): a FIFO of
 * jobs paired with a semaphore, and a retry loop that gives each job up
 * to three execute attempts, reconnecting after each failure. MySQL is
 * replaced by an oracle of execute and connect outcomes, and the
 * `keepalive` flag by the number of its reads that still see true.
 */
module Worker {
  import opened Options
  import opened Seqs

  // ---------------------------------------------------------------------
  // The job queue and its semaphore

  /**
   * A queued request: the query, and whether a fail handler was given
   * (the success handler always is).
   */
  datatype Job = Job(query: seq<string>, hasFailHandler: bool)

  /**
   * The worker as the pages see it: queued jobs, the semaphore's permits,
   * the `keepalive` flag and whether the thread is still running.
   */
  datatype Queue = Queue(jobs: seq<Job>, permits: nat, keepalive: bool, alive: bool)

  /** `__init__`: no jobs, and `threading.Semaphore()` starts with one permit. */
  const Fresh: Queue := Queue([], 1, true, true)

  /**
   * While the worker is kept alive every queued job has a permit, and
   * there is at most one spare: the initial one, not yet consumed.
   */
  predicate Balanced(q: Queue)
  {
    q.keepalive ==> |q.jobs| <= q.permits <= |q.jobs| + 1
  }

  /** `request`: the job goes to the back of the queue and a permit is released. */
  function Request(q: Queue, j: Job): (r: Queue)
    ensures r.jobs == q.jobs + [j] && r.permits == q.permits + 1
    ensures Balanced(q) ==> Balanced(r)
  {
    q.(jobs := q.jobs + [j], permits := q.permits + 1)
  }

  /** `close`: a running worker is told to stop and woken up; otherwise nothing happens. */
  function Close(q: Queue): (r: Queue)
    ensures q.alive ==> !r.keepalive && r.permits == q.permits + 1 && r.jobs == q.jobs
    ensures !q.alive ==> r == q
  {
    if q.alive then q.(keepalive := false, permits := q.permits + 1) else q
  }

  /**
   * One turn of the outer loop of `run` once `acquire` returns (a permit
   * was there): the front job is taken if the worker is kept alive and a
   * job is queued.
   */
  function Take(q: Queue): (r: (Queue, Option<Job>))
    requires q.permits > 0
    ensures r.0.permits == q.permits - 1 && r.0.keepalive == q.keepalive
    ensures r.1.Some? <==> q.keepalive && |q.jobs| > 0
    ensures r.1.Some? ==> r.1.value == q.jobs[0] && r.0.jobs == q.jobs[1..]
    ensures r.1.None? ==> r.0.jobs == q.jobs
    ensures Balanced(q) ==> Balanced(r.0)
  {
    var q' := q.(permits := q.permits - 1);
    if q.keepalive && |q.jobs| > 0 then (q'.(jobs := q.jobs[1..]), Some(q.jobs[0]))
    else (q', None)
  }

  /**
   * `purge_job_queue(remain)`: jobs are dropped from the front, each with
   * one `acquire`, until at most `remain` are left. On a balanced queue
   * there is a permit for every job dropped, so it never blocks.
   */
  function Purge(q: Queue, remain: nat): (r: Queue)
    requires |q.jobs| <= q.permits
    ensures var kept := if |q.jobs| < remain then |q.jobs| else remain;
      && r.jobs == q.jobs[|q.jobs| - kept..]
      && r.permits == q.permits - (|q.jobs| - kept)
    ensures r.keepalive == q.keepalive && r.alive == q.alive
    ensures Balanced(q) ==> Balanced(r)
    decreases |q.jobs|
  {
    if |q.jobs| <= remain then q
    else
      var r := Purge(q.(jobs := q.jobs[1..], permits := q.permits - 1), remain);
      assert q.jobs[1..][|q.jobs| - 1 - remain..] == q.jobs[|q.jobs| - remain..];
      r
  }

  /** Purging never reorders: what is left is the newest jobs, and purging again changes nothing. */
  lemma {:induction false} PurgeKeepsNewest(q: Queue, remain: nat)
    requires Balanced(q) && q.keepalive
    ensures var r := Purge(q, remain);
      && |r.jobs| <= remain
      && (forall i :: 0 <= i < |r.jobs| ==> r.jobs[i] == q.jobs[|q.jobs| - |r.jobs| + i])
      && Purge(r, remain) == r
  {
    var r := Purge(q, remain);
    assert |r.jobs| <= r.permits;
  }

  // ---------------------------------------------------------------------
  // The retry loop

  /** How an attempt to connect ends: refused, connected without utf-8 mode, or connected. */
  datatype Link = Refused | Utf8Failed | Linked

  /** The status messages the worker sends to the user interface. */
  datatype Note =
    | Connecting
    | ConnectFailed(attempt: nat)
    | ConnectedPlain
    | Connected
    | JobDropped
    | Disconnected

  /**
   * What the worker does, in order: an execute with no cursor (the
   * AttributeError of a worker that never connected), an execute and
   * whether it succeeded, a status message, a call of the job's success
   * handler, a call of its fail handler.
   */
  datatype Event = NoCursor | Exec(ok: bool) | Say(note: Note) | Handled | FailHandled

  /** The database's answers: by attempt number, whether execute works and how connecting goes. */
  datatype Oracle = Oracle(exec: nat -> bool, connect: nat -> Link)

  /** How a job ends: its success handler ran, its three attempts failed, or the worker was closed. */
  datatype End = Done | Failed | Exited

  /** A job's events, whether the worker has a cursor afterwards, the unread keepalive budget, the end. */
  datatype Run = Run(trace: seq<Event>, cursor: bool, live: nat, end: End)

  /** How often `e` occurs in `t`. */
  function Occurrences(t: seq<Event>, e: Event): nat
  {
    if |t| == 0 then 0 else (if t[0] == e then 1 else 0) + Occurrences(t[1..], e)
  }

  /** The number of execute attempts in `t`. */
  function Tries(t: seq<Event>): nat
  {
    if |t| == 0 then 0 else (if t[0].NoCursor? || t[0].Exec? then 1 else 0) + Tries(t[1..])
  }

  /** The events that close a job: its success handler, its fail handler, the drop message. */
  predicate Closes(e: Event)
  {
    e == Handled || e == FailHandled || e == Say(JobDropped)
  }

  /** The closing events of `t`, in order. */
  function Endings(t: seq<Event>): seq<Event>
  {
    if |t| == 0 then [] else (if Closes(t[0]) then [t[0]] else []) + Endings(t[1..])
  }

  /** Closing event `e` can close job `j`: a fail handler call needs a fail handler, a drop needs none. */
  predicate Fits(e: Event, j: Job)
  {
    e == Handled || (e == FailHandled && j.hasFailHandler) || (e == Say(JobDropped) && !j.hasFailHandler)
  }

  lemma {:induction false} EndingsAppend(a: seq<Event>, b: seq<Event>)
    ensures Endings(a + b) == Endings(a) + Endings(b)
    decreases |a|
  {
    if |a| == 0 {
      assert a + b == b;
    } else {
      var h := if Closes(a[0]) then [a[0]] else [];
      assert (a + b)[0] == a[0] && (a + b)[1..] == a[1..] + b;
      assert Endings(a + b) == h + Endings(a[1..] + b);
      EndingsAppend(a[1..], b);
      assert h + (Endings(a[1..]) + Endings(b)) == (h + Endings(a[1..])) + Endings(b);
    }
  }

  lemma {:induction false} OccurrencesAppend(a: seq<Event>, b: seq<Event>, e: Event)
    ensures Occurrences(a + b, e) == Occurrences(a, e) + Occurrences(b, e)
    decreases |a|
  {
    if |a| == 0 {
      assert a + b == b;
    } else {
      assert (a + b)[1..] == a[1..] + b;
      OccurrencesAppend(a[1..], b, e);
    }
  }

  lemma {:induction false} TriesAppend(a: seq<Event>, b: seq<Event>)
    ensures Tries(a + b) == Tries(a) + Tries(b)
    decreases |a|
  {
    if |a| == 0 {
      assert a + b == b;
    } else {
      assert (a + b)[1..] == a[1..] + b;
      TriesAppend(a[1..], b);
    }
  }

  lemma SingleCounts(x: Event, e: Event)
    ensures Occurrences([x], e) == (if x == e then 1 else 0)
    ensures Tries([x]) == (if x.NoCursor? || x.Exec? then 1 else 0)
    ensures Endings([x]) == (if Closes(x) then [x] else [])
  {
    assert [x][1..] == [];
  }

  /** A successful attempt's events: the execute and the handler call. */
  lemma SucceededAttemptCounts(e: Event)
    ensures Occurrences([Exec(true), Handled], e) == (if e == Exec(true) || e == Handled then 1 else 0)
    ensures Tries([Exec(true), Handled]) == 1
    ensures Endings([Exec(true), Handled]) == [Handled]
  {
    assert [Exec(true), Handled][1..] == [Handled];
    SingleCounts(Handled, e);
  }

  /** A failed attempt's events: the failed execute and the two messages of reconnecting. */
  lemma FailedAttemptCounts(ev: Event, a: Note, b: Note, e: Event)
    requires ev == NoCursor || ev == Exec(false)
    requires e != ev && e != Say(a) && e != Say(b)
    ensures Occurrences([ev, Say(a), Say(b)], e) == 0
    ensures Tries([ev, Say(a), Say(b)]) == 1
    ensures a != JobDropped && b != JobDropped ==> Endings([ev, Say(a), Say(b)]) == []
  {
    var head := [ev, Say(a), Say(b)];
    assert head[1..] == [Say(a), Say(b)];
    assert head[1..][1..] == [Say(b)];
    assert [Say(b)][1..] == [];
    assert Occurrences([Say(b)], e) == 0;
    assert Occurrences([Say(a), Say(b)], e) == 0;
    assert Tries([Say(b)]) == 0;
    assert Tries([Say(a), Say(b)]) == 0;
    assert Endings([Say(b)]) == (if b == JobDropped then [Say(b)] else []);
    assert Endings([Say(a), Say(b)]) == (if a == JobDropped then [Say(a)] else []) + Endings([Say(b)]);
  }

  /** A failed attempt's events in front of `rest` add one attempt and nothing else that is counted. */
  lemma FailedAttemptThen(ev: Event, b: Note, rest: seq<Event>)
    requires ev == NoCursor || ev == Exec(false)
    requires b != JobDropped && b != Disconnected
    ensures var t := [ev, Say(Connecting), Say(b)] + rest;
      && Tries(t) == 1 + Tries(rest)
      && Occurrences(t, Handled) == Occurrences(rest, Handled)
      && Occurrences(t, Exec(true)) == Occurrences(rest, Exec(true))
      && Occurrences(t, FailHandled) == Occurrences(rest, FailHandled)
      && Occurrences(t, Say(JobDropped)) == Occurrences(rest, Say(JobDropped))
      && Occurrences(t, Say(Disconnected)) == Occurrences(rest, Say(Disconnected))
      && Endings(t) == Endings(rest)
      && (|rest| > 0 ==> Last(t) == Last(rest))
  {
    var head := [ev, Say(Connecting), Say(b)];
    FailedHeadCounts(ev, b);
    TriesAppend(head, rest);
    OccurrencesAppend(head, rest, Handled);
    OccurrencesAppend(head, rest, Exec(true));
    OccurrencesAppend(head, rest, FailHandled);
    OccurrencesAppend(head, rest, Say(JobDropped));
    OccurrencesAppend(head, rest, Say(Disconnected));
    EndingsAppend(head, rest);
  }

  lemma FailedHeadCounts(ev: Event, b: Note)
    requires ev == NoCursor || ev == Exec(false)
    requires b != JobDropped && b != Disconnected
    ensures var head := [ev, Say(Connecting), Say(b)];
      && Tries(head) == 1 && Endings(head) == []
      && Occurrences(head, Handled) == 0 && Occurrences(head, Exec(true)) == 0
      && Occurrences(head, FailHandled) == 0 && Occurrences(head, Say(JobDropped)) == 0
      && Occurrences(head, Say(Disconnected)) == 0
  {
    FailedAttemptCounts(ev, Connecting, b, Handled);
    FailedAttemptCounts(ev, Connecting, b, Exec(true));
    FailedAttemptCounts(ev, Connecting, b, FailHandled);
    FailedAttemptCounts(ev, Connecting, b, Say(JobDropped));
    FailedAttemptCounts(ev, Connecting, b, Say(Disconnected));
  }

  /** The message after a connection attempt numbered `tries`. */
  function LinkNote(link: Link, tries: nat): Note
  {
    match link
    case Refused => ConnectFailed(tries)
    case Utf8Failed => ConnectedPlain
    case Linked => Connected
  }

  /**
   * The `while trycount < 3` loop from attempt `k` on. A failed execute
   * reads `keepalive` twice before reconnecting; a successful one reads it
   * once before calling the handler. A connection that is made gives the
   * worker a cursor.
   */
  function Attempts(k: nat, cursor: bool, o: Oracle, live: nat): (r: Run)
    requires k <= 3
    ensures Tries(r.trace) <= 3 - k && r.live <= live
    ensures Occurrences(r.trace, Handled) == (if r.end == Done then 1 else 0)
    ensures r.end == Done ==> |r.trace| > 0 && Last(r.trace) == Handled && Occurrences(r.trace, Exec(true)) == 1
    ensures r.end == Failed ==> Tries(r.trace) == 3 - k && Occurrences(r.trace, Exec(true)) == 0 && live >= 2 * (3 - k)
    ensures r.end == Exited ==> r.live == 0
    ensures Occurrences(r.trace, FailHandled) == 0 && Occurrences(r.trace, Say(JobDropped)) == 0
    ensures Occurrences(r.trace, Say(Disconnected)) == 0
    ensures Endings(r.trace) == (if r.end == Done then [Handled] else [])
    // keepalive reads: two per failed attempt, one for the attempt that succeeds
    ensures r.end == Done ==> r.live + 2 * Tries(r.trace) == live + 1
    ensures r.end == Failed ==> r.live + 2 * Tries(r.trace) == live
    ensures r.end == Exited ==> live < 2 * Tries(r.trace)
    decreases 3 - k
  {
    if k == 3 then Run([], cursor, live, Failed)
    else
      var ok := cursor && o.exec(k);
      var ev := if cursor then Exec(ok) else NoCursor;
      if ok then
        if live == 0 then
          SingleCounts(ev, Handled);
          Run([ev], cursor, 0, Exited)
        else
          SucceededAttemptCounts(Handled);
          SucceededAttemptCounts(Exec(true));
          SucceededAttemptCounts(FailHandled);
          SucceededAttemptCounts(Say(JobDropped));
          SucceededAttemptCounts(Say(Disconnected));
          Run([ev, Handled], cursor, live - 1, Done)
      else if live < 2 then
        SingleCounts(ev, Handled);
        Run([ev], cursor, 0, Exited)
      else
        var link := o.connect(k);
        var head := [ev, Say(Connecting), Say(LinkNote(link, k + 1))];
        var rest := Attempts(k + 1, cursor || link != Refused, o, live - 2);
        FailedAttemptThen(ev, LinkNote(link, k + 1), rest.trace);
        Run(head + rest.trace, rest.cursor, rest.live, rest.end)
  }

  /**
   * When every execute from attempt `k` on fails and `keepalive` holds out
   * for two reads per attempt, the loop gives up after its last attempt.
   */
  lemma {:induction false} AttemptsFailWhenExecutesFail(k: nat, cursor: bool, o: Oracle, live: nat)
    requires k <= 3
    ensures (forall i :: k <= i < 3 ==> !o.exec(i)) && live >= 2 * (3 - k) ==>
      Attempts(k, cursor, o, live).end == Failed
    decreases 3 - k
  {
    if k < 3 && live >= 2 {
      AttemptsFailWhenExecutesFail(k + 1, cursor || o.connect(k) != Refused, o, live - 2);
    }
  }

  /**
   * With a cursor, an execute that works ends the loop at once: one read
   * of `keepalive`, then the success handler.
   */
  lemma AttemptsSucceedAtOnce(k: nat, o: Oracle, live: nat)
    requires k < 3
    ensures o.exec(k) && live >= 1 ==> Attempts(k, true, o, live) == Run([Exec(true), Handled], true, live - 1, Done)
  {
  }

  /**
   * Without a cursor the attempt fails before reaching the database; once
   * connecting works, the next attempt's execute runs on the new cursor.
   */
  lemma AttemptsReconnectThenSucceed(k: nat, o: Oracle, live: nat)
    requires k < 2
    ensures o.connect(k) != Refused && o.exec(k + 1) && live >= 3 ==>
      Attempts(k, false, o, live)
        == Run([NoCursor, Say(Connecting), Say(LinkNote(o.connect(k), k + 1)), Exec(true), Handled], true, live - 3, Done)
  {
    if o.connect(k) != Refused && o.exec(k + 1) && live >= 3 {
      AttemptsSucceedAtOnce(k + 1, o, live - 2);
      var head := [NoCursor, Say(Connecting), Say(LinkNote(o.connect(k), k + 1))];
      assert head + [Exec(true), Handled] == [NoCursor, Say(Connecting), Say(LinkNote(o.connect(k), k + 1)), Exec(true), Handled];
    }
  }

  /** The counts after a failed job's closing event, the fail handler call or the drop message. */
  lemma DropCounts(t: seq<Event>, last: Event)
    requires last == FailHandled || last == Say(JobDropped)
    ensures Tries(t + [last]) == Tries(t)
    ensures Occurrences(t + [last], Handled) == Occurrences(t, Handled)
    ensures Occurrences(t + [last], Exec(true)) == Occurrences(t, Exec(true))
    ensures Occurrences(t + [last], Say(Disconnected)) == Occurrences(t, Say(Disconnected))
    ensures Occurrences(t + [last], FailHandled) + Occurrences(t + [last], Say(JobDropped))
         == Occurrences(t, FailHandled) + Occurrences(t, Say(JobDropped)) + 1
    ensures Endings(t + [last]) == Endings(t) + [last]
  {
    EndingsAppend(t, [last]);
    OccurrencesAppend(t, [last], Handled);
    OccurrencesAppend(t, [last], Exec(true));
    OccurrencesAppend(t, [last], FailHandled);
    OccurrencesAppend(t, [last], Say(JobDropped));
    OccurrencesAppend(t, [last], Say(Disconnected));
    TriesAppend(t, [last]);
    SingleCounts(last, Handled);
    SingleCounts(last, Exec(true));
    SingleCounts(last, FailHandled);
    SingleCounts(last, Say(JobDropped));
    SingleCounts(last, Say(Disconnected));
  }

  /**
   * One job taken from the queue: the retry loop, then, if all three
   * attempts failed, the fail handler or the "Job dropped" message.
   */
  function RunJob(j: Job, cursor: bool, o: Oracle, live: nat): (r: Run)
    ensures Tries(r.trace) <= 3
    ensures Occurrences(r.trace, Handled) <= 1
    ensures r.end == Done <==> Occurrences(r.trace, Handled) == 1
    ensures r.end == Done ==> Last(r.trace) == Handled
    ensures Occurrences(r.trace, FailHandled) + Occurrences(r.trace, Say(JobDropped)) == (if r.end == Failed then 1 else 0)
    ensures r.end == Failed ==> Tries(r.trace) == 3 && Occurrences(r.trace, Exec(true)) == 0 && live >= 6
    ensures r.end == Failed ==>
      Last(r.trace) == (if j.hasFailHandler then FailHandled else Say(JobDropped))
    ensures r.end == Exited ==> r.live == 0
    ensures Occurrences(r.trace, Say(Disconnected)) == 0
    // the closing events: the success handler, or the fail handler or the drop message, or nothing
    ensures r.end == Done ==> Endings(r.trace) == [Handled]
    ensures r.end == Failed ==> Endings(r.trace) == [if j.hasFailHandler then FailHandled else Say(JobDropped)]
    ensures r.end == Exited ==> Endings(r.trace) == []
    // keepalive reads: two per failed attempt, one for the attempt that succeeds
    ensures r.end == Done ==> r.live + 2 * Tries(r.trace) == live + 1
    ensures r.end == Failed ==> r.live + 6 == live
    ensures r.end == Exited ==> live < 2 * Tries(r.trace)
  {
    var a := Attempts(0, cursor, o, live);
    if a.end == Failed then
      var last := if j.hasFailHandler then FailHandled else Say(JobDropped);
      DropCounts(a.trace, last);
      Run(a.trace + [last], a.cursor, a.live, Failed)
    else a
  }

  /**
   * What the database answers decides how a job ends: it fails when all
   * three executes fail and `keepalive` holds out; it is handled at the
   * first attempt when the worker has a cursor and the execute works; a
   * worker without a cursor that manages to connect runs the job at the
   * second attempt.
   */
  lemma RunJobFollowsOracle(j: Job, cursor: bool, o: Oracle, live: nat)
    ensures var r := RunJob(j, cursor, o, live);
      && ((forall i :: 0 <= i < 3 ==> !o.exec(i)) && live >= 6 ==> r.end == Failed)
      && (cursor && o.exec(0) && live >= 1 ==> r.end == Done && r.trace == [Exec(true), Handled])
      && (!cursor && o.connect(0) != Refused && o.exec(1) && live >= 3 ==>
            r.end == Done && r.trace == [NoCursor, Say(Connecting), Say(LinkNote(o.connect(0), 1)), Exec(true), Handled])
  {
    AttemptsFailWhenExecutesFail(0, cursor, o, live);
    if cursor {
      AttemptsSucceedAtOnce(0, o, live);
    } else {
      AttemptsReconnectThenSucceed(0, o, live);
    }
  }

  /**
   * A worker that has never connected has no cursor, so the first job's
   * first attempt fails without reaching the database: at most two of its
   * attempts do.
   */
  lemma FirstJobLosesATry(j: Job, o: Oracle, live: nat)
    ensures var r := RunJob(j, false, o, live);
      && r.trace[0] == NoCursor
      && Occurrences(r.trace, Exec(true)) + Occurrences(r.trace, Exec(false)) <= 2
  {
    var a := Attempts(0, false, o, live);
    var r := RunJob(j, false, o, live);
    if live < 2 {
      assert a.trace == [NoCursor];
      SingleCounts(NoCursor, Exec(true));
      SingleCounts(NoCursor, Exec(false));
    } else {
      var link := o.connect(0);
      var head := [NoCursor, Say(Connecting), Say(LinkNote(link, 1))];
      var rest := Attempts(1, link != Refused, o, live - 2);
      assert a.trace == head + rest.trace;
      ExecsWithinTries(rest.trace);
      FailedAttemptCounts(NoCursor, Connecting, LinkNote(link, 1), Exec(true));
      FailedAttemptCounts(NoCursor, Connecting, LinkNote(link, 1), Exec(false));
      OccurrencesAppend(head, rest.trace, Exec(true));
      OccurrencesAppend(head, rest.trace, Exec(false));
      if a.end == Failed {
        var last := if j.hasFailHandler then FailHandled else Say(JobDropped);
        assert r.trace == a.trace + [last];
        OccurrencesAppend(a.trace, [last], Exec(true));
        OccurrencesAppend(a.trace, [last], Exec(false));
        SingleCounts(last, Exec(true));
        SingleCounts(last, Exec(false));
      }
    }
  }

  /** Every execute is an attempt. */
  lemma {:induction false} ExecsWithinTries(t: seq<Event>)
    ensures Occurrences(t, Exec(true)) + Occurrences(t, Exec(false)) <= Tries(t)
  {
    if |t| > 0 {
      ExecsWithinTries(t[1..]);
    }
  }

  /**
   * The outer loop of `run` over the jobs in queue order, each with its own
   * oracle: each turn reads `keepalive` twice (the loop test and the test
   * before taking a job). The thread ends when it reads false, and the
   * `finally` clause then sends "Disconnected"; with the queue empty it
   * waits in `acquire` for the next request.
   */
  function Session(jobs: seq<Job>, os: seq<Oracle>, cursor: bool, live: nat): (r: (seq<Event>, bool))
    requires |os| == |jobs|
    ensures r.1 ==> |r.0| > 0 && Last(r.0) == Say(Disconnected)
    ensures Occurrences(r.0, Say(Disconnected)) == (if r.1 then 1 else 0)
    ensures Occurrences(r.0, Handled) + Occurrences(r.0, FailHandled) + Occurrences(r.0, Say(JobDropped)) <= |jobs|
    ensures live < 2 ==> r == ([Say(Disconnected)], true)
    // jobs are closed in queue order, each by a handler it can have, and all of them unless the thread ends
    ensures |Endings(r.0)| <= |jobs|
    ensures forall i :: 0 <= i < |Endings(r.0)| ==> Fits(Endings(r.0)[i], jobs[i])
    ensures !r.1 ==> |Endings(r.0)| == |jobs|
    // eight reads of `keepalive` per job are enough for the thread to get through the queue
    ensures live >= 8 * |jobs| + 2 ==> !r.1
    decreases |jobs|
  {
    if live < 2 then ([Say(Disconnected)], true)
    else if |jobs| == 0 then ([], false)
    else
      var a := RunJob(jobs[0], cursor, os[0], live - 2);
      if a.end == Exited then
        var t := a.trace + [Say(Disconnected)];
        OccurrencesAppend(a.trace, [Say(Disconnected)], Say(Disconnected));
        OccurrencesAppend(a.trace, [Say(Disconnected)], Handled);
        OccurrencesAppend(a.trace, [Say(Disconnected)], FailHandled);
        OccurrencesAppend(a.trace, [Say(Disconnected)], Say(JobDropped));
        EndingsAppend(a.trace, [Say(Disconnected)]);
        SingleCounts(Say(Disconnected), Handled);
        (t, true)
      else
        var (rest, exited) := Session(jobs[1..], os[1..], a.cursor, a.live);
        OccurrencesAppend(a.trace, rest, Say(Disconnected));
        OccurrencesAppend(a.trace, rest, Handled);
        OccurrencesAppend(a.trace, rest, FailHandled);
        OccurrencesAppend(a.trace, rest, Say(JobDropped));
        assert exited ==> Last(a.trace + rest) == Last(rest);
        EndingsInOrder(jobs, a.trace, rest);
        (a.trace + rest, exited)
  }

  /**
   * The front job's closing event followed by the closing events of the
   * jobs behind it, in order, is a run of closing events in queue order.
   */
  lemma EndingsInOrder(jobs: seq<Job>, head: seq<Event>, rest: seq<Event>)
    requires |jobs| > 0 && |Endings(head)| == 1 && Fits(Endings(head)[0], jobs[0])
    requires |Endings(rest)| <= |jobs| - 1
    requires forall i :: 0 <= i < |Endings(rest)| ==> Fits(Endings(rest)[i], jobs[1..][i])
    ensures |Endings(head + rest)| == 1 + |Endings(rest)|
    ensures forall i :: 0 <= i < |Endings(head + rest)| ==> Fits(Endings(head + rest)[i], jobs[i])
  {
    EndingsAppend(head, rest);
    var e := Endings(head + rest);
    forall i | 0 <= i < |e| ensures Fits(e[i], jobs[i]) {
      if i > 0 {
        assert e[i] == Endings(rest)[i - 1];
        assert jobs[1..][i - 1] == jobs[i];
      }
    }
  }

  /**
   * With `keepalive` still true at both tests, the worker runs the front
   * job first, and the rest of the queue after it unless that job's run
   * ended the thread.
   */
  lemma SessionRunsFrontJobFirst(jobs: seq<Job>, os: seq<Oracle>, cursor: bool, live: nat)
    requires |os| == |jobs| && |jobs| > 0 && live >= 2
    ensures var r := Session(jobs, os, cursor, live);
      var a := RunJob(jobs[0], cursor, os[0], live - 2);
      && r.0[..|a.trace|] == a.trace
      && (a.end != Exited ==> r == (a.trace + Session(jobs[1..], os[1..], a.cursor, a.live).0, Session(jobs[1..], os[1..], a.cursor, a.live).1))
      && (a.end == Exited ==> r == (a.trace + [Say(Disconnected)], true))
  {
  }
}

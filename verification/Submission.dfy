/** Send limits: the check each submission repeats under its row lock. */
module SendLimits {
  import opened Common

  // Whose budget a job counts against: a mailbox, or a sending domain.
  datatype Scope = Mailbox(id: string) | Domain(name: string)

  datatype Job = Job(scope: Scope, created: int, recipients: nat)

  // A limit that is not positive is not enforced.
  datatype Limits = Limits(perHour: int, perDay: int, recipientsPerMessage: int)

  datatype Error = TooManyRecipients | RateLimited

  const HOUR: int := 3600 * 1_000_000_000
  const DAY: int := 24 * HOUR

  function Since(jobs: seq<Job>, scope: Scope, since: int): (r: nat) {
    if jobs == [] then 0
    else
      var last := jobs[|jobs| - 1];
      Since(jobs[..|jobs| - 1], scope, since) + if last.scope == scope
          && last.created >= since then last.recipients else 0
  }

  predicate Within(jobs: seq<Job>, scope: Scope, count: nat, since: int, limit: int) {
    limit > 0 ==> Since(jobs, scope, since) + count <= limit
  }

  predicate Admitted(jobs: seq<Job>, scope: Scope, count: nat, limits: Limits, hourAt: int, dayAt: int) {
    && (limits.recipientsPerMessage > 0 ==> count <= limits.recipientsPerMessage)
    && Within(jobs, scope, count, hourAt - HOUR, limits.perHour)
    && Within(jobs, scope, count, dayAt - DAY, limits.perDay)
  }

  /** Each job counts once, with its recipients, if it is of the scope and no older
      than the window; any other is forgotten. */
  lemma {:induction false} CountsExactly(before: seq<Job>, job: Job, later: seq<Job>, scope: Scope, since: int)
    ensures
      Since(before + [job] + later, scope, since)
      == Since(before + later, scope, since) + if job.scope == scope && job.created >= since then job.recipients else 0
    decreases |later|
  {
    if later == [] {
      assert (before + [job] + later)[..|before|] == before && before + later == before;
    } else {
      var front, last := later[..|later| - 1], later[|later| - 1];
      CountsExactly(before, job, front, scope, since);
      assert before + [job] + later == before + [job] + front + [last] && before + later == before + front + [last];
      assert (before + [job] + front + [last])[..|before| + 1 + |front|] == before + [job] + front;
      assert (before + front + [last])[..|before| + |front|] == before + front;
    }
  }

  lemma NoneCounted(scope: Scope, since: int)
    ensures Since([], scope, since) == 0
  {
  }

  method RecipientsSince(jobs: seq<Job>, scope: Scope, since: int) returns (count: nat)
    ensures count == Since(jobs, scope, since)
  {
    count := 0;
    for i := 0 to |jobs|
      invariant count == Since(jobs[..i], scope, since)
    {
      assert jobs[..i + 1][..i] == jobs[..i];
      if jobs[i].scope == scope && jobs[i].created >= since {
        count := count + jobs[i].recipients;
      }
    }
    assert jobs[..|jobs|] == jobs;
  }

  // The clock is read once for each limit that is enforced.
  method EnforceLimits(jobs: seq<Job>, scope: Scope, count: nat, limits: Limits, hourAt: int, dayAt: int)
    returns (r: Option<Error>)
    ensures r.None? <==> Admitted(jobs, scope, count, limits, hourAt, dayAt)
    ensures r == Some(TooManyRecipients) <==> 0 < limits.recipientsPerMessage < count
    ensures r.None? <==>
      && (limits.recipientsPerMessage > 0 ==> count <= limits.recipientsPerMessage)
      && (limits.perHour > 0 ==> Since(jobs, scope, hourAt - 3_600_000_000_000) + count <= limits.perHour)
      && (limits.perDay > 0 ==> Since(jobs, scope, dayAt - 86_400_000_000_000) + count <= limits.perDay)
  {
    if limits.recipientsPerMessage > 0 && count > limits.recipientsPerMessage {
      return Some(TooManyRecipients);
    }
    if limits.perHour > 0 {
      var sent := RecipientsSince(jobs, scope, hourAt - HOUR);
      if sent + count > limits.perHour {
        return Some(RateLimited);
      }
    }
    if limits.perDay > 0 {
      var sent := RecipientsSince(jobs, scope, dayAt - DAY);
      if sent + count > limits.perDay {
        return Some(RateLimited);
      }
    }
    return None;
  }
}

/** Any number of concurrent submissions. Those that wait for a lock, or only make
    the unlocked check, change nothing; a lock holder checks, inserts and commits. */
module SubmissionRuns {
  import opened Common
  import opened SendLimits

  datatype Phase = Locked | Checked(hourAt: int, dayAt: int) | Inserted(job: Job)

  datatype Tx = Tx(count: nat, phase: Phase)

  // Committed jobs in commit order, and the transaction holding each scope's lock.
  datatype System = System(jobs: seq<Job>, holders: map<Scope, Tx>)

  datatype Event =
    | Lock(scope: Scope, count: nat)
    | Check(scope: Scope, hourAt: int, dayAt: int)
    | Insert(scope: Scope, created: int)
    | Commit(scope: Scope)
    | Abort(scope: Scope)

  // Clocks need not agree between submissions: a job is only stamped no earlier
  // than its own transaction's readings.
  predicate Enabled(y: System, e: Event) {
    if e.Lock? then e.scope !in y.holders
    else
      && e.scope in y.holders
      && var phase := y.holders[e.scope].phase;
      match e
      case Check(_, _, _) => phase.Locked?
      case Insert(_, created) => phase.Checked? && phase.hourAt <= created && phase.dayAt <= created
      case Commit(_) => phase.Inserted?
      case _ => true
  }

  function Next(y: System, e: Event, limits: Scope -> Limits): System {
    if !Enabled(y, e) then y
    else
      match e
      case Lock(scope, count) => y.(holders := y.holders[scope := Tx(count, Locked)])
      case Check(scope, hourAt, dayAt) =>
        var tx := y.holders[scope];
        if Admitted(y.jobs, scope, tx.count, limits(scope), hourAt, dayAt)
        then y.(holders := y.holders[scope := tx.(phase := Checked(hourAt, dayAt))])
        else y.(holders := y.holders - {scope})
      case Insert(scope, created) =>
        var tx := y.holders[scope];
        y.(holders := y.holders[scope := tx.(phase := Inserted(Job(scope, created, tx.count)))])
      case Commit(scope) => System(y.jobs + [y.holders[scope].phase.job], y.holders - {scope})
      case Abort(scope) => y.(holders := y.holders - {scope})
  }

  function Exec(y: System, events: seq<Event>, limits: Scope -> Limits): System
    decreases |events|
  {
    if events == [] then y else Exec(Next(y, events[0], limits), events[1..], limits)
  }

  // The job fitted its budgets over the hour and the day up to its own creation.
  predicate Fits(jobs: seq<Job>, job: Job, limits: Limits) {
    Admitted(jobs, job.scope, job.recipients, limits, job.created, job.created)
  }

  ghost predicate Sound(y: System, limits: Scope -> Limits) {
    && (forall k :: 0 <= k < |y.jobs| ==> Fits(y.jobs[..k], y.jobs[k], limits(y.jobs[k].scope)))
    && (forall s :: s in y.holders ==> HolderFits(y.jobs, s, y.holders[s], limits(s)))
  }

  predicate HolderFits(jobs: seq<Job>, scope: Scope, tx: Tx, limits: Limits) {
    match tx.phase
    case Locked => true
    case Checked(hourAt, dayAt) => Admitted(jobs, scope, tx.count, limits, hourAt, dayAt)
    case Inserted(job) => job.scope == scope && Fits(jobs, job, limits)
  }

  lemma {:induction false} LaterCountsLess(jobs: seq<Job>, scope: Scope, early: int, late: int)
    requires early <= late
    ensures Since(jobs, scope, late) <= Since(jobs, scope, early)
    decreases |jobs|
  {
    if jobs != [] {
      LaterCountsLess(jobs[..|jobs| - 1], scope, early, late);
    }
  }

  lemma OtherScopeCounts(jobs: seq<Job>, job: Job, scope: Scope, since: int)
    requires job.scope != scope
    ensures Since(jobs + [job], scope, since) == Since(jobs, scope, since)
  {
    assert (jobs + [job])[..|jobs|] == jobs;
  }

  // Another scope's commit leaves a lock holder's check valid.
  lemma OthersCommit(jobs: seq<Job>, job: Job, scope: Scope, tx: Tx, limits: Limits)
    requires job.scope != scope && HolderFits(jobs, scope, tx, limits)
    ensures HolderFits(jobs + [job], scope, tx, limits)
  {
    forall since ensures Since(jobs + [job], scope, since) == Since(jobs, scope, since) {
      OtherScopeCounts(jobs, job, scope, since);
    }
  }

  lemma NextSound(y: System, e: Event, limits: Scope -> Limits)
    requires Sound(y, limits)
    ensures Sound(Next(y, e, limits), limits)
  {
    if e.Insert? && Enabled(y, e) {
      var phase := y.holders[e.scope].phase;
      LaterCountsLess(y.jobs, e.scope, phase.hourAt - HOUR, e.created - HOUR);
      LaterCountsLess(y.jobs, e.scope, phase.dayAt - DAY, e.created - DAY);
    }
    if e.Commit? && Enabled(y, e) {
      var job := y.holders[e.scope].phase.job;
      var z := Next(y, e, limits);
      forall s | s in z.holders ensures HolderFits(z.jobs, s, z.holders[s], limits(s)) {
        OthersCommit(y.jobs, job, s, z.holders[s], limits(s));
      }
      forall k | 0 <= k < |z.jobs| ensures Fits(z.jobs[..k], z.jobs[k], limits(z.jobs[k].scope)) {
        assert z.jobs[..k] == y.jobs[..k];
        assert y.jobs[..|y.jobs|] == y.jobs;
      }
    }
  }

  lemma {:induction false} ExecSound(y: System, events: seq<Event>, limits: Scope -> Limits)
    requires Sound(y, limits)
    ensures Sound(Exec(y, events, limits), limits)
    decreases |events|
  {
    if events != [] {
      NextSound(y, events[0], limits);
      ExecSound(Next(y, events[0], limits), events[1..], limits);
    }
  }

  // Recipients of the scope's jobs created from `from` to `to`, both included.
  function InWindow(jobs: seq<Job>, scope: Scope, from: int, to: int): (r: nat) {
    if jobs == [] then 0
    else
      var last := jobs[|jobs| - 1];
      InWindow(jobs[..|jobs| - 1], scope, from, to) + if last.scope == scope
          && from <= last.created <= to then last.recipients else 0
  }

  lemma {:induction false} WindowCounted(jobs: seq<Job>, scope: Scope, from: int, to: int, since: int)
    requires since <= from
    ensures InWindow(jobs, scope, from, to) <= Since(jobs, scope, since)
    decreases |jobs|
  {
    if jobs != [] {
      WindowCounted(jobs[..|jobs| - 1], scope, from, to, since);
    }
  }

  // The last job of a window counted every other one when it was admitted.
  lemma {:induction false} WindowBound(jobs: seq<Job>, scope: Scope, from: int, span: int, limit: int)
    requires limit > 0
    requires forall k :: 0 <= k < |jobs| && jobs[k].scope == scope ==>
      Within(jobs[..k], scope, jobs[k].recipients, jobs[k].created - span, limit)
    ensures InWindow(jobs, scope, from, from + span) <= limit
    decreases |jobs|
  {
    if jobs != [] {
      var n := |jobs| - 1;
      var last := jobs[n];
      if last.scope == scope && from <= last.created <= from + span {
        WindowCounted(jobs[..n], scope, from, from + span, last.created - span);
      } else {
        assert forall k :: 0 <= k < n ==> jobs[..n][k] == jobs[k] && jobs[..n][..k] == jobs[..k];
        WindowBound(jobs[..n], scope, from, span, limit);
      }
    }
  }

  /** After any interleaving, no hour and no day, wherever it starts, holds more
      recipients of one mailbox or domain than its limits allow. */
  lemma EveryWindow(events: seq<Event>, limits: Scope -> Limits, scope: Scope, from: int)
    ensures
      var jobs := Exec(System([], map[]), events, limits).jobs;
      && (limits(scope).perHour > 0 ==> InWindow(jobs, scope, from, from + HOUR) <= limits(scope).perHour)
      && (limits(scope).perDay > 0 ==> InWindow(jobs, scope, from, from + DAY) <= limits(scope).perDay)
      && (limits(scope).recipientsPerMessage > 0 ==>
        forall job :: job in jobs && job.scope == scope ==> job.recipients <= limits(scope).recipientsPerMessage)
  {
    ExecSound(System([], map[]), events, limits);
    var jobs := Exec(System([], map[]), events, limits).jobs;
    assert forall k :: 0 <= k < |jobs| ==> Fits(jobs[..k], jobs[k], limits(jobs[k].scope));
    if limits(scope).perHour > 0 {
      WindowBound(jobs, scope, from, HOUR, limits(scope).perHour);
    }
    if limits(scope).perDay > 0 {
      WindowBound(jobs, scope, from, DAY, limits(scope).perDay);
    }
  }

  // Nothing was created after the window's end.
  lemma {:induction false} WindowIsAll(jobs: seq<Job>, scope: Scope, from: int, to: int)
    requires forall job :: job in jobs && job.scope == scope ==> job.created <= to
    ensures InWindow(jobs, scope, from, to) == Since(jobs, scope, from)
    decreases |jobs|
  {
    if jobs != [] {
      var last := jobs[|jobs| - 1];
      assert last in jobs && forall job :: job in jobs[..|jobs| - 1] ==> job in jobs;
      WindowIsAll(jobs[..|jobs| - 1], scope, from, to);
    }
  }

  /** A submission that the hour and the day up to now have room for is admitted, and
      can be committed, whatever was sent before and by whomever. */
  lemma FittingIsAdmitted(y: System, scope: Scope, limits: Scope -> Limits, now: int)
    requires scope in y.holders && y.holders[scope].phase.Locked?
    requires forall job :: job in y.jobs && job.scope == scope ==> job.created <= now
    requires var count := y.holders[scope].count;
      && (limits(scope).recipientsPerMessage > 0 ==> count <= limits(scope).recipientsPerMessage)
      && (limits(scope).perHour > 0 ==> InWindow(y.jobs, scope, now - HOUR, now) + count <= limits(scope).perHour)
      && (limits(scope).perDay > 0 ==> InWindow(y.jobs, scope, now - DAY, now) + count <= limits(scope).perDay)
    ensures
      Exec(y, [Check(scope, now, now), Insert(scope, now), Commit(scope)], limits).jobs
      == y.jobs + [Job(scope, now, y.holders[scope].count)]
  {
    WindowIsAll(y.jobs, scope, now - HOUR, now);
    WindowIsAll(y.jobs, scope, now - DAY, now);
    var events := [Check(scope, now, now), Insert(scope, now), Commit(scope)];
    var checked := Next(y, events[0], limits);
    var inserted := Next(checked, events[1], limits);
    assert inserted.holders[scope].phase == Inserted(Job(scope, now, y.holders[scope].count));
    assert events[1..][1..] == [Commit(scope)] && events[1..][0] == events[1];
    assert Exec(inserted, [Commit(scope)], limits) == Exec(Next(inserted, Commit(scope), limits), [], limits);
  }
}

/** The outbound queue: claim, finish and stale-lease recovery of delivery jobs. */
module OutboundQueue {
  import opened Common

  datatype Status = Queued | Retry | Processing | Sent | Failed

  datatype Row = Row(
    status: Status, lockedBy: Option<string>, lockedUntil: Option<int>, attempts: nat,
    nextAttempt: Option<int>, createdAt: int)

  datatype Classification = Success | Temporary | Permanent

  datatype Policy = Policy(maxAttempts: int, delay: nat -> int)

  // A worker's own copy of what it claimed.
  datatype Ticket = Ticket(worker: string, attempts: nat)

  predicate Terminal(row: Row) {
    row.status.Sent? || row.status.Failed?
  }

  predicate Eligible(row: Row, now: int) {
    && !Terminal(row)
    && (row.nextAttempt.Some? ==> row.nextAttempt.value <= now)
    && (row.lockedUntil.Some? ==> row.lockedUntil.value <= now)
  }

  function ClaimRow(row: Row, worker: string, until: int): Row {
    row.(lockedBy := Some(worker), lockedUntil := Some(until), status := Processing,
         attempts := if row.status.Processing? then row.attempts + 1 else row.attempts)
  }

  function FinishRow(row: Row, claim: Ticket, outcome: Classification, policy: Policy, now: int): Row {
    var freed := row.(lockedBy := None, lockedUntil := None);
    match outcome
    case Success => freed.(status := Sent, nextAttempt := None)
    case Temporary =>
      if claim.attempts + 1 >= policy.maxAttempts then freed.(status := Failed, attempts := row.attempts + 1)
      else freed.(status := Retry, attempts := row.attempts + 1,
          nextAttempt := Some(now + policy.delay(claim.attempts)))
    case Permanent => freed.(status := Failed, attempts := row.attempts + 1)
  }

  predicate Stale(row: Row, now: int) {
    row.status.Processing? && row.lockedUntil.Some? && row.lockedUntil.value <= now
  }

  function RecoverRow(row: Row, now: int): Row {
    if Stale(row, now) then row.(status := Retry, attempts := row.attempts + 1, lockedBy := None,
        lockedUntil := None) else row
  }

  class Queue {
    var jobs: map<string, Row>
    var reported: seq<string>  // failures told to the sender, in order

    constructor ()
      ensures jobs == map[] && reported == []
    {
      jobs, reported := map[], [];
    }

    // The oldest eligible job, in one atomic update.
    method Claim(worker: string, now: int, until: int) returns (r: Option<(string, Ticket)>)
      modifies this`jobs
      ensures r.None? ==> jobs == old(jobs) && forall id :: id in jobs ==> !Eligible(jobs[id], now)
      ensures r.Some? ==>
        var id := r.value.0;
        && id in old(jobs) && Eligible(old(jobs)[id], now)
        && (forall other :: other in old(jobs) && Eligible(old(jobs)[other], now) ==>
            old(jobs)[id].createdAt <= old(jobs)[other].createdAt)
        && jobs == old(jobs)[id := ClaimRow(old(jobs)[id], worker, until)]
        && r.value.1 == Ticket(worker, jobs[id].attempts)
      ensures r.Some? ==>
        var before, after := old(jobs)[r.value.0], jobs[r.value.0];
        && before.status in {Queued, Retry, Processing}
        && (before.nextAttempt.Some? ==> before.nextAttempt.value <= now)
        && (before.lockedUntil.Some? ==> before.lockedUntil.value <= now)
        && after.status == Processing && after.lockedBy == Some(worker) && after.lockedUntil == Some(until)
        && after.attempts == (if before.status == Processing then before.attempts + 1 else before.attempts)
        && after.nextAttempt == before.nextAttempt && after.createdAt == before.createdAt
      ensures r.None? ==> forall id :: id in jobs ==>
        || jobs[id].status in {Sent, Failed}
        || (jobs[id].nextAttempt.Some? && jobs[id].nextAttempt.value > now)
        || (jobs[id].lockedUntil.Some? && jobs[id].lockedUntil.value > now)
    {
      var best: Option<string> := None;
      var todo := jobs.Keys;
      while todo != {}
        invariant todo <= jobs.Keys && jobs == old(jobs)
        invariant best.None? ==> forall id :: id in jobs.Keys - todo ==> !Eligible(jobs[id], now)
        invariant best.Some? ==> best.value in jobs && Eligible(jobs[best.value], now)
        invariant best.Some? ==>
          forall id :: id in jobs.Keys - todo && Eligible(jobs[id], now) ==>
              jobs[best.value].createdAt <= jobs[id].createdAt
        decreases todo
      {
        var id :| id in todo;
        todo := todo - {id};
        if Eligible(jobs[id], now) && (best.None? || jobs[id].createdAt < jobs[best.value].createdAt) {
          best := Some(id);
        }
      }
      if best.None? {
        return None;
      }
      jobs := jobs[best.value := ClaimRow(jobs[best.value], worker, until)];
      return Some((best.value, Ticket(worker, jobs[best.value].attempts)));
    }

    // Takes effect only while the row is locked under the worker's name.
    method Finish(id: string, claim: Ticket, outcome: Classification, policy: Policy, now: int) returns (found: bool)
      modifies this
      ensures found <==> id in old(jobs) && old(jobs)[id].lockedBy == Some(claim.worker)
      ensures !found ==> jobs == old(jobs) && reported == old(reported)
      ensures found ==>
        && jobs == old(jobs)[id := FinishRow(old(jobs)[id], claim, outcome, policy, now)]
        && reported == old(reported) + if jobs[id].status.Failed? then [id] else []
      ensures found ==>
        var before, after := old(jobs)[id], jobs[id];
        && after.lockedBy == None && after.lockedUntil == None && after.createdAt == before.createdAt
        && (outcome == Success ==>
              && after.status == Sent && after.nextAttempt == None && after.attempts == before.attempts
              && reported == old(reported))
        && (outcome == Permanent ==>
              && after.status == Failed && after.nextAttempt == before.nextAttempt
              && after.attempts == before.attempts + 1 && reported == old(reported) + [id])
        && (outcome == Temporary && claim.attempts + 1 >= policy.maxAttempts ==>
              && after.status == Failed && after.nextAttempt == before.nextAttempt
              && after.attempts == before.attempts + 1 && reported == old(reported) + [id])
        && (outcome == Temporary && claim.attempts + 1 < policy.maxAttempts ==>
              && after.status == Retry && after.nextAttempt == Some(now + policy.delay(claim.attempts))
              && after.attempts == before.attempts + 1 && reported == old(reported))
    {
      if id !in jobs || jobs[id].lockedBy != Some(claim.worker) {
        return false;
      }
      var row := jobs[id].(lockedBy := None, lockedUntil := None);
      var failed := false;
      match outcome {
        case Success =>
          row := row.(status := Sent, nextAttempt := None);
        case Temporary =>
          if claim.attempts + 1 >= policy.maxAttempts {
            row := row.(status := Failed);
            failed := true;
          } else {
            row := row.(status := Retry, nextAttempt := Some(now + policy.delay(claim.attempts)));
          }
          row := row.(attempts := row.attempts + 1);
        case Permanent =>
          row := row.(status := Failed, attempts := row.attempts + 1);
          failed := true;
      }
      jobs := jobs[id := row];
      if failed {
        reported := reported + [id];
      }
      return true;
    }

    method RecoverStaleLeases(now: int)
      modifies this`jobs
      ensures jobs.Keys == old(jobs).Keys && forall id :: id in jobs ==> jobs[id] == RecoverRow(old(jobs)[id], now)
      ensures forall id :: id in jobs ==>
        var before := old(jobs)[id];
        jobs[id] ==
          if before.status == Processing && before.lockedUntil.Some? && before.lockedUntil.value <= now
          then Row(Retry, None, None, before.attempts + 1, before.nextAttempt, before.createdAt) else before
    {
      jobs := map id | id in jobs ::
        if jobs[id].status == Processing && jobs[id].lockedUntil.Some? && jobs[id].lockedUntil.value <= now
        then jobs[id].(status := Retry, attempts := jobs[id].attempts + 1, lockedBy := None, lockedUntil := None)
        else jobs[id];
    }
  }
}

/** One job through every interleaving of claims, crashes, takeovers, recoveries
    and late finishes; several goroutines may share one worker id. */
module OutboundRuns {
  import opened Common
  import opened OutboundQueue

  datatype Event =
    | Take(worker: string, now: int, until: int)
    | Crash(claim: Ticket)
    | Done(claim: Ticket, outcome: Classification, now: int)
    | Recover(now: int)

  // The row, the claims still being worked on, and the history: the attempt
  // counts claims saw, how many finishes took effect, the claims' counts of those
  // that left the job open, terminal transitions and failure reports.
  datatype System = System(
    row: Row, claims: set<Ticket>, seen: seq<nat>,
    finishes: nat, reopened: set<nat>, terminal: nat, reports: nat)

  function Enqueued(createdAt: int): System {
    System(Row(Queued, None, None, 0, None, createdAt), {}, [], 0, {}, 0, 0)
  }

  // Events that find nothing to do change nothing.
  function Step(y: System, e: Event, policy: Policy): System {
    match e
    case Take(worker, now, until) =>
      if !Eligible(y.row, now) then y
      else
        var row := ClaimRow(y.row, worker, until);
        y.(row := row, claims := y.claims + {Ticket(worker, row.attempts)}, seen := y.seen + [row.attempts])
    case Crash(claim) => y.(claims := y.claims - {claim})
    case Done(claim, outcome, now) =>
      if claim !in y.claims then y
      else
        var z := y.(claims := y.claims - {claim});
        if y.row.lockedBy != Some(claim.worker) then z
        else
          var row := FinishRow(y.row, claim, outcome, policy, now);
          z.(row := row, finishes := y.finishes + 1,
             reopened := if Terminal(row) then y.reopened else y.reopened + {claim.attempts},
             terminal := if Terminal(row) then y.terminal + 1 else y.terminal,
             reports := if row.status.Failed? then y.reports + 1 else y.reports)
    case Recover(now) => y.(row := RecoverRow(y.row, now))
  }

  function Exec(y: System, events: seq<Event>, policy: Policy): System
    decreases |events|
  {
    if events == [] then y else Exec(Step(y, events[0], policy), events[1..], policy)
  }

  // What the next claim would see.
  function NextSeen(row: Row): nat {
    if row.status.Processing? then row.attempts + 1 else row.attempts
  }

  ghost predicate StrictlyIncreasing(s: seq<nat>) {
    forall i, j :: 0 <= i < j < |s| ==> s[i] < s[j]
  }

  ghost predicate Sound(y: System, policy: Policy) {
    && (y.row.status.Processing? <==> y.row.lockedBy.Some?) && (y.row.lockedBy.Some? <==> y.row.lockedUntil.Some?)
    && StrictlyIncreasing(y.seen)
    && (!Terminal(y.row) ==> forall n :: n in y.seen ==> n < NextSeen(y.row))
    && (forall c :: c in y.claims ==> c.attempts in y.seen && c.attempts !in y.reopened)
    && (forall c, d :: c in y.claims && d in y.claims && c.attempts == d.attempts ==> c == d)
    && (forall n :: n in y.reopened ==> n in y.seen && n + 1 < policy.maxAttempts)
    && y.finishes == |y.reopened| + y.terminal
    && y.terminal == (if Terminal(y.row) then 1 else 0)
    && y.reports == (if y.row.status.Failed? then 1 else 0)
  }

  // A claim sees more attempts than every earlier one.
  lemma TakeSound(y: System, worker: string, now: int, until: int, policy: Policy)
    requires Sound(y, policy) && Eligible(y.row, now)
    ensures Sound(Step(y, Take(worker, now, until), policy), policy)
  {
    var row := ClaimRow(y.row, worker, until);
    var z := Step(y, Take(worker, now, until), policy);
    assert row.attempts == NextSeen(y.row) && row.attempts < NextSeen(row);
    assert forall i :: 0 <= i < |y.seen| ==> y.seen[i] in y.seen;
    assert row.attempts !in y.seen;
    assert forall n :: n in z.seen <==> n in y.seen || n == row.attempts;
    assert forall c :: c in z.claims <==> c in y.claims || c == Ticket(worker, row.attempts);
  }

  // A finish that takes effect ends the job or reopens it, each claim once.
  lemma DoneSound(y: System, claim: Ticket, outcome: Classification, now: int, policy: Policy)
    requires Sound(y, policy) && claim in y.claims && y.row.lockedBy == Some(claim.worker)
    ensures Sound(Step(y, Done(claim, outcome, now), policy), policy)
  {
    hide StrictlyIncreasing;
    var row := FinishRow(y.row, claim, outcome, policy, now);
    var z := Step(y, Done(claim, outcome, now), policy);
    assert !Terminal(y.row);
    assert !Terminal(row) ==> NextSeen(row) == NextSeen(y.row);
    assert forall c :: c in z.claims ==> c in y.claims && c.attempts != claim.attempts;
  }

  lemma StepSound(y: System, e: Event, policy: Policy)
    requires Sound(y, policy)
    ensures Sound(Step(y, e, policy), policy)
  {
    if e.Take? && Eligible(y.row, e.now) {
      TakeSound(y, e.worker, e.now, e.until, policy);
    } else if e.Done? && e.claim in y.claims && y.row.lockedBy == Some(e.claim.worker) {
      DoneSound(y, e.claim, e.outcome, e.now, policy);
    } else {
      hide StrictlyIncreasing;
    }
  }

  lemma {:induction false} ExecSound(y: System, events: seq<Event>, policy: Policy)
    requires Sound(y, policy)
    ensures Sound(Exec(y, events, policy), policy)
    decreases |events|
  {
    if events != [] {
      StepSound(y, events[0], policy);
      ExecSound(Step(y, events[0], policy), events[1..], policy);
    }
  }

  lemma {:induction false} FewBelow(s: set<nat>, n: nat)
    requires forall k :: k in s ==> k < n
    ensures |s| <= n
  {
    if n > 0 {
      FewBelow(s - {n - 1}, n - 1);
    } else {
      assert forall k :: k !in s;
      assert s == {};
    }
  }

  // The i-th event is a finish that finds its job still its own.
  ghost predicate Effective(y: System, events: seq<Event>, i: nat, policy: Policy)
    requires i < |events|
  {
    && events[i].Done?
    && var z := Exec(y, events[..i], policy);
    events[i].claim in z.claims && z.row.lockedBy == Some(events[i].claim.worker)
  }

  lemma {:induction false} ExecLast(y: System, events: seq<Event>, policy: Policy)
    requires events != []
    ensures Exec(y, events, policy) == Step(Exec(y, events[..|events| - 1], policy), events[|events| - 1], policy)
    decreases |events|
  {
    hide Step;
    var n := |events| - 1;
    if n == 0 {
      assert Exec(Step(y, events[0], policy), events[1..], policy) == Step(y, events[0], policy);
    } else {
      ExecLast(Step(y, events[0], policy), events[1..], policy);
      assert events[..n][1..] == events[1..][..n - 1] && events[..n][0] == events[0];
    }
  }

  // The status of a job and the finish that gave it.
  ghost predicate Explained(y: System, events: seq<Event>, policy: Policy) {
    var row := Exec(y, events, policy).row;
    && (row.status == Sent ==>
          exists i :: 0 <= i < |events| && Effective(y, events, i, policy) && events[i].outcome == Success)
    && (row.status == Failed ==>
          exists i :: 0 <= i < |events| && Effective(y, events, i, policy) &&
            (events[i].outcome == Permanent
             || (events[i].outcome == Temporary && events[i].claim.attempts + 1 >= policy.maxAttempts)))
  }

  /** Over any events a job is Sent only if an effective finish had outcome Success,
      and Failed only if one had outcome Permanent, or Temporary with no attempt left. */
  lemma {:induction false} TerminalExplained(events: seq<Event>, policy: Policy, createdAt: int)
    ensures Explained(Enqueued(createdAt), events, policy)
    decreases |events|
  {
    var y := Enqueued(createdAt);
    if events != [] {
      var n := |events| - 1;
      TerminalExplained(events[..n], policy, createdAt);
      ExecLast(y, events, policy);
      EffectiveSooner(y, events, policy);
      var z := Exec(y, events[..n], policy);
      if Step(z, events[n], policy).row.status != z.row.status {
        assert Effective(y, events, n, policy) || events[n].Take? || events[n].Recover?;
      }
    }
  }

  lemma EffectiveSooner(y: System, events: seq<Event>, policy: Policy)
    requires events != []
    ensures forall i :: 0 <= i < |events| - 1 && Effective(y, events[..|events| - 1], i, policy) ==>
      Effective(y, events, i, policy) && events[..|events| - 1][i] == events[i]
  {
    forall i | 0 <= i < |events| - 1 ensures events[..|events| - 1][..i] == events[..i] {
    }
  }

  predicate Before(e: Event, time: int) {
    match e
    case Take(_, now, _) => now < time
    case Done(_, _, now) => now < time
    case Recover(now) => now < time
    case Crash(_) => true
  }

  ghost predicate AllBefore(events: seq<Event>, time: int) {
    forall e :: e in events ==> Before(e, time)
  }

  /** While a lease runs no other worker takes the job, nor is it recovered: only a
      finish of its holder changes the row. */
  lemma {:induction false} LeaseHolds(y: System, events: seq<Event>, policy: Policy, until: int)
    requires y.row.status == Processing && y.row.lockedUntil == Some(until) && AllBefore(events, until)
    requires forall e :: e in events && e.Done? ==> y.row.lockedBy != Some(e.claim.worker)
    ensures Exec(y, events, policy).row == y.row && Exec(y, events, policy).seen == y.seen
    decreases |events|
  {
    if events != [] {
      assert events[0] in events && forall e :: e in events[1..] ==> e in events;
      LeaseHolds(Step(y, events[0], policy), events[1..], policy, until);
    }
  }

  /** A job put off for a retry is not taken before its next attempt is due. */
  lemma {:induction false} RetryWaits(y: System, events: seq<Event>, policy: Policy, due: int)
    requires y.row.status == Retry && y.row.lockedBy == None && y.row.nextAttempt == Some(due) && AllBefore(events, due)
    ensures Exec(y, events, policy).row == y.row && Exec(y, events, policy).seen == y.seen
    decreases |events|
  {
    if events != [] {
      assert events[0] in events && forall e :: e in events[1..] ==> e in events;
      RetryWaits(Step(y, events[0], policy), events[1..], policy, due);
    }
  }

  /** Over any events at all: at most one terminal transition, at most one failure
      report, attempt counts strictly increasing from claim to claim, and no more
      effective finishes than the policy has attempts (one, if it has none). */
  lemma AtMostOnce(events: seq<Event>, policy: Policy, createdAt: int)
    ensures
      var y := Exec(Enqueued(createdAt), events, policy);
      && y.terminal <= 1 && y.reports == (if y.row.status == Failed then 1 else 0)
      && (y.terminal == 1 <==> y.row.status in {Sent, Failed})
      && StrictlyIncreasing(y.seen)
      && y.finishes <= Max(1, policy.maxAttempts)
  {
    var y := Exec(Enqueued(createdAt), events, policy);
    ExecSound(Enqueued(createdAt), events, policy);
    FewBelow(y.reopened, Max(0, policy.maxAttempts - 1));
  }

  /** A finished job stays finished. */
  lemma {:induction false} TerminalForever(y: System, events: seq<Event>, policy: Policy)
    requires Sound(y, policy) && Terminal(y.row)
    ensures Exec(y, events, policy).row == y.row && Exec(y, events, policy).reports == y.reports
    decreases |events|
  {
    if events != [] {
      StepSound(y, events[0], policy);
      TerminalForever(Step(y, events[0], policy), events[1..], policy);
    }
  }
}

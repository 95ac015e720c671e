/** The lease on an import or export job row, and the goroutine that renews it. */
module JobLease {
  import opened Common

  // Instants and durations are in nanoseconds.
  const SECOND: int := 1_000_000_000
  const LEASE: int := 600 * SECOND
  const RENEW_INTERVAL: int := 120 * SECOND
  const GIVE_UP: int := LEASE - 2 * RENEW_INTERVAL

  datatype Status = Queued | Processing | Completed | Failed

  datatype Row = Row(status: Status, lockedBy: Option<string>, lockedUntil: Option<int>)

  // What a renewal call reports: an error, or whether it matched the row.
  datatype Reply = Failure | Updated(matched: bool)

  predicate Closed(row: Row) {
    row.status.Completed? || row.status.Failed?
  }

  predicate Claimable(row: Row, at: int) {
    !Closed(row) && (row.lockedUntil.Some? ==> row.lockedUntil.value <= at)
  }

  predicate Stale(row: Row, at: int) {
    row.status.Processing? && row.lockedUntil.Some? && row.lockedUntil.value <= at
  }

  predicate Renewable(row: Row, owner: string) {
    row.status.Processing? && row.lockedBy == Some(owner)
  }

  function ClaimRow(owner: string, stamp: int): Row {
    Row(Processing, Some(owner), Some(stamp + LEASE))
  }

  function RenewRow(row: Row, owner: string, stamp: int): Row {
    if Renewable(row, owner) then row.(lockedUntil := Some(stamp + LEASE)) else row
  }

  function ReleaseRow(row: Row, owner: string): Row {
    if row.lockedBy == Some(owner) then Row(Queued, None, None) else row
  }

  function CloseRow(row: Row, owner: string, status: Status): Row {
    if row.lockedBy == Some(owner) then Row(status, None, None) else row
  }

  function RecoverRow(row: Row, at: int): Row {
    if Stale(row, at) then Row(Queued, None, None) else row
  }

  predicate GivesUp(reply: Reply, now: int, lastRenewed: int) {
    if reply.Failure? then now - lastRenewed >= GIVE_UP else !reply.matched
  }

  function LastRenewed(reply: Reply, now: int, lastRenewed: int): int {
    if reply == Updated(true) then now else lastRenewed
  }

  // One job's row; each method is one conditional UPDATE.
  class Job {
    var row: Row
    var events: seq<Status>  // terminal events emitted

    constructor ()
      ensures row == Row(Queued, None, None) && events == []
    {
      row, events := Row(Queued, None, None), [];
    }

    method Claim(owner: string, stamp: int, at: int) returns (claimed: bool)
      modifies this`row
      ensures claimed <==> Claimable(old(row), at)
      ensures row == if claimed then ClaimRow(owner, stamp) else old(row)
      ensures claimed <==>
        && old(row).status in {Queued, Processing}
        && (old(row).lockedUntil == None || old(row).lockedUntil.value <= at)
      ensures claimed ==> row == Row(Processing, Some(owner), Some(stamp + 600_000_000_000))
    {
      claimed := (row.status == Queued || row.status == Processing)
          && (row.lockedUntil.None? || row.lockedUntil.value <= at);
      if claimed {
        row := row.(lockedBy := Some(owner), lockedUntil := Some(stamp + LEASE), status := Processing);
      }
    }

    method Renew(owner: string, stamp: int) returns (matched: bool)
      modifies this`row
      ensures matched <==> Renewable(old(row), owner)
      ensures row == RenewRow(old(row), owner, stamp)
      ensures matched <==> old(row).status == Processing && old(row).lockedBy == Some(owner)
      ensures row == if matched then Row(Processing, Some(owner), Some(stamp + 600_000_000_000)) else old(row)
    {
      matched := row.status == Processing && row.lockedBy == Some(owner);
      if matched {
        row := row.(lockedUntil := Some(stamp + LEASE));
      }
    }

    method Release(owner: string)
      modifies this`row
      ensures row == ReleaseRow(old(row), owner)
      ensures row == if old(row).lockedBy == Some(owner) then Row(Queued, None, None) else old(row)
    {
      if row.lockedBy == Some(owner) {
        row := row.(status := Queued, lockedBy := None, lockedUntil := None);
      }
    }

    // Completes or fails the job; the event follows only an update that matched.
    method Close(owner: string, status: Status, error: bool)
      modifies this
      ensures row == CloseRow(old(row), owner, status)
      ensures row == if old(row).lockedBy == Some(owner) then Row(status, None, None) else old(row)
      ensures events == if old(row).lockedBy == Some(owner) && !error then old(events) + [status] else old(events)
    {
      var matched := row.lockedBy == Some(owner);
      if matched {
        row := row.(status := status, lockedBy := None, lockedUntil := None);
      }
      if error || !matched {
        return;
      }
      events := events + [status];
    }

    method Recover(at: int)
      modifies this`row
      ensures row == RecoverRow(old(row), at)
      ensures row ==
        if old(row).status == Processing && old(row).lockedUntil.Some? && old(row).lockedUntil.value <= at
        then Row(Queued, None, None) else old(row)
    {
      if row.status == Processing && row.lockedUntil.Some? && row.lockedUntil.value <= at {
        row := row.(status := Queued, lockedBy := None, lockedUntil := None);
      }
    }
  }

  // The renewal goroutine's state.
  class Renewer {
    var lastRenewed: int
    var cancelled: bool

    constructor (now: int)
      ensures lastRenewed == now && !cancelled
    {
      lastRenewed, cancelled := now, false;
    }

    method Returned(reply: Reply, now: int)
      modifies this
      ensures cancelled == (old(cancelled) || GivesUp(reply, now, old(lastRenewed)))
      ensures lastRenewed == LastRenewed(reply, now, old(lastRenewed))
      ensures reply == Updated(true) ==> cancelled == old(cancelled) && lastRenewed == now
      ensures reply != Updated(true) ==> lastRenewed == old(lastRenewed)
      ensures reply == Updated(false) ==> cancelled
      ensures reply == Failure ==>
        cancelled == (old(cancelled) || now - old(lastRenewed) >= 360_000_000_000)
    {
      match reply
      case Failure =>
        if now - lastRenewed >= GIVE_UP {
          cancelled := true;
        }
      case Updated(matched) =>
        if !matched {
          cancelled := true;
          return;
        }
        lastRenewed := now;
    }
  }
}

/** Any number of workers competing for one job, in time. Every call that is made
    returns within a bound `slow`, ticks fire on time and owner tokens are fresh. */
module LeaseRuns {
  import opened Common
  import opened JobLease

  datatype Phase = Starting | Idle | Calling(since: int, reply: Option<bool>)

  // stamp: the clock reading behind the lease the worker knows it has;
  // origin: the tick its ticker is counted from; missed: failed renewals since.
  datatype Worker = Worker(
    running: bool, phase: Phase, stamp: int, origin: int, missed: nat, lastRenewed: int, nextTick: int)

  datatype System = System(now: int, row: Row, workers: map<string, Worker>, closings: nat, events: nat)

  datatype Event =
    | Wait(time: nat)
    | Claim(owner: string, stamp: int, at: int)
    | Start(owner: string)
    | Tick(owner: string)
    | Apply(owner: string)
    | Return(owner: string, error: bool)
    | Cancel(owner: string)
    | Release(owner: string)
    | Close(owner: string, status: Status, error: bool)
    | Recover(at: int)

  function Created(now: int): System {
    System(now, Row(Queued, None, None), map[], 0, 0)
  }

  function Deadline(w: Worker, slow: int): int {
    match w.phase
    case Starting => w.stamp + slow
    case Idle => w.nextTick
    case Calling(since, _) => since + slow
  }

  predicate Enabled(y: System, e: Event, slow: int) {
    match e
    case Wait(time) =>
      forall o :: o in y.workers && y.workers[o].running ==> y.now + time <= Deadline(y.workers[o], slow)
    case Claim(owner, stamp, at) =>
      owner !in y.workers && y.now - slow <= stamp <= y.now && at <= y.now && Claimable(y.row, at)
    case Recover(at) => at <= y.now
    case _ =>
      && e.owner in y.workers
      && var w := y.workers[e.owner];
      match e
      case Start(_) => w.running && w.phase.Starting?
      case Tick(_) => w.running && w.phase.Idle? && y.now == w.nextTick
      case Apply(_) => w.phase.Calling? && w.phase.reply.None?
      case Return(_, error) => w.running && w.phase.Calling? && (w.phase.reply.None? ==> error)
      case Release(_) => !w.running
      case Close(_, status, _) => status.Completed? || status.Failed?
      case _ => true
  }

  function AfterReturn(w: Worker, reply: Reply, now: int): Worker
    requires w.phase.Calling?
  {
    if GivesUp(reply, now, w.lastRenewed) then w.(running := false)
    else if reply.Failure? then w.(phase := Idle, missed := w.missed + 1)
    else w.(phase := Idle, stamp := w.phase.since, origin := w.phase.since, missed := 0,
              lastRenewed := LastRenewed(reply, now, w.lastRenewed))
  }

  // Events that are not enabled change nothing.
  function Next(y: System, e: Event, slow: int): System {
    if !Enabled(y, e, slow) then y
    else
      match e
      case Wait(time) => y.(now := y.now + time)
      case Claim(owner, stamp, _) =>
        y.(row := ClaimRow(owner, stamp),
           workers := y.workers[owner := Worker(true, Starting, stamp, 0, 0, 0, 0)])
      case Start(owner) =>
        var w := y.workers[owner];
        y.(workers := y.workers[owner :=
          w.(phase := Idle, origin := y.now, missed := 0, lastRenewed := y.now, nextTick := y.now + RENEW_INTERVAL)])
      case Tick(owner) =>
        var w := y.workers[owner];
        y.(workers := y.workers[owner := w.(phase := Calling(y.now, None), nextTick := y.now + RENEW_INTERVAL)])
      case Apply(owner) =>
        var w := y.workers[owner];
        var matched := Renewable(y.row, owner);
        y.(row := RenewRow(y.row, owner, w.phase.since),
           workers := y.workers[owner := w.(phase := Calling(w.phase.since, Some(matched)))])
      case Return(owner, error) =>
        var w := y.workers[owner];
        y.(workers := y.workers[owner := AfterReturn(w, if error then Failure else Updated(w.phase.reply.value),
            y.now)])
      case Cancel(owner) => y.(workers := y.workers[owner := y.workers[owner].(running := false)])
      case Release(owner) => y.(row := ReleaseRow(y.row, owner))
      case Close(owner, status, error) =>
        var matched := y.row.lockedBy == Some(owner);
        y.(row := CloseRow(y.row, owner, status),
           workers := y.workers[owner := y.workers[owner].(running := false)],
           closings := if matched then y.closings + 1 else y.closings,
           events := if matched && !error then y.events + 1 else y.events)
      case Recover(at) => y.(row := RecoverRow(y.row, at))
  }

  function Exec(y: System, events: seq<Event>, slow: int): System
    decreases |events|
  {
    if events == [] then y else Exec(Next(y, events[0], slow), events[1..], slow)
  }

  // Where a started worker is in its renewal schedule: the origin is either its
  // start or the tick of its last acknowledged renewal.
  ghost predicate OnSchedule(w: Worker, now: int, slow: int) {
    && w.stamp <= w.origin
    && (w.lastRenewed == w.origin <= w.stamp + slow || w.stamp == w.origin <= w.lastRenewed <= w.origin + slow)
    && (w.missed > 0 ==> w.origin + w.missed * RENEW_INTERVAL - w.lastRenewed < GIVE_UP)
    && w.nextTick == w.origin + (w.missed + if w.phase.Calling? then 2 else 1) * RENEW_INTERVAL
    && w.lastRenewed <= now
    && (w.phase.Calling? ==> w.phase.since == w.nextTick - RENEW_INTERVAL <= now)
  }

  ghost predicate Timely(w: Worker, now: int, slow: int) {
    w.stamp <= now <= Deadline(w, slow) && (!w.phase.Starting? ==> OnSchedule(w, now, slow))
  }

  ghost predicate Holds(row: Row, owner: string, w: Worker) {
    && row.status.Processing? && row.lockedBy == Some(owner) && row.lockedUntil.Some?
    && w.stamp + LEASE <= row.lockedUntil.value
    && (w.phase.Calling? && w.phase.reply.Some? ==>
        w.phase.reply.value && w.phase.since + LEASE <= row.lockedUntil.value)
  }

  ghost predicate Sound(y: System, slow: int) {
    && (forall o :: o in y.workers && y.workers[o].running ==>
        Holds(y.row, o, y.workers[o]) && Timely(y.workers[o], y.now, slow))
    && (y.row.lockedBy.Some? <==> y.row.status.Processing?) && (y.row.lockedBy.Some? <==> y.row.lockedUntil.Some?)
    && y.closings == (if Closed(y.row) then 1 else 0)
    && y.events <= y.closings
  }

  /** A worker on schedule still has an unexpired lease. */
  lemma LeaseOutlivesWorker(row: Row, owner: string, w: Worker, now: int, slow: int)
    requires slow < RENEW_INTERVAL && Holds(row, owner, w) && Timely(w, now, slow)
    ensures now < row.lockedUntil.value
  {
    if !w.phase.Starting? && w.stamp == w.origin {
      assert w.missed * RENEW_INTERVAL < GIVE_UP + RENEW_INTERVAL;
      assert w.missed <= 3;
    }
  }

  lemma ReturnTimely(row: Row, owner: string, w: Worker, error: bool, now: int, slow: int)
    requires slow < RENEW_INTERVAL && Holds(row, owner, w) && Timely(w, now, slow)
    requires w.running && w.phase.Calling? && (w.phase.reply.None? ==> error)
    ensures
      var v := AfterReturn(w, if error then Failure else Updated(w.phase.reply.value), now);
      v.running ==> Holds(row, owner, v) && Timely(v, now, slow)
  {
  }

  lemma StartTimely(w: Worker, now: int, slow: int)
    requires 0 <= slow < RENEW_INTERVAL && w.phase.Starting? && Timely(w, now, slow)
    ensures Timely(w.(phase := Idle, origin := now, missed := 0, lastRenewed := now, nextTick := now + RENEW_INTERVAL),
        now, slow)
  {
  }

  lemma TickTimely(w: Worker, slow: int)
    requires 0 <= slow < RENEW_INTERVAL && w.phase.Idle? && Timely(w, w.nextTick, slow)
    ensures Timely(w.(phase := Calling(w.nextTick, None), nextTick := w.nextTick + RENEW_INTERVAL), w.nextTick, slow)
  {
  }

  lemma ApplyTimely(w: Worker, now: int, slow: int, matched: bool)
    requires slow < RENEW_INTERVAL && w.phase.Calling? && Timely(w, now, slow)
    ensures w.stamp <= w.phase.since && Timely(w.(phase := Calling(w.phase.since, Some(matched))), now, slow)
  {
  }

  // Events about one worker's renewals leave every other worker as it was.
  lemma RenewalSound(y: System, e: Event, slow: int)
    requires slow < RENEW_INTERVAL && Sound(y, slow) && Enabled(y, e, slow)
    requires e.Start? || e.Tick? || e.Apply? || e.Return?
    ensures Sound(Next(y, e, slow), slow)
  {
    var w := y.workers[e.owner];
    if w.running {
      assert 0 <= slow by {
        assert Timely(w, y.now, slow);
      }
      match e
      case Start(_) => StartTimely(w, y.now, slow);
      case Tick(_) => TickTimely(w, slow);
      case Apply(_) => ApplyTimely(w, y.now, slow, Renewable(y.row, e.owner));
      case Return(_, error) => ReturnTimely(y.row, e.owner, w, error, y.now, slow);
    }
    hide Timely, AfterReturn;
    var z := Next(y, e, slow);
    assert forall o :: o in z.workers && o != e.owner ==> z.workers[o] == y.workers[o];
  }

  lemma NextSound(y: System, e: Event, slow: int)
    requires slow < RENEW_INTERVAL && Sound(y, slow)
    ensures Sound(Next(y, e, slow), slow)
  {
    if Enabled(y, e, slow) {
      if e.Start? || e.Tick? || e.Apply? || e.Return? {
        RenewalSound(y, e, slow);
      } else {
        forall o | o in y.workers && y.workers[o].running ensures y.now < y.row.lockedUntil.value {
          LeaseOutlivesWorker(y.row, o, y.workers[o], y.now, slow);
        }
        if e.Wait? {
          assert Sound(Next(y, e, slow), slow);
        } else {
          hide OnSchedule;
        }
      }
    }
  }

  lemma {:induction false} ExecSound(y: System, events: seq<Event>, slow: int)
    requires slow < RENEW_INTERVAL && Sound(y, slow)
    ensures Sound(Exec(y, events, slow), slow)
    decreases |events|
  {
    if events != [] {
      NextSound(y, events[0], slow);
      ExecSound(Next(y, events[0], slow), events[1..], slow);
    }
  }

  // Every worker not yet cancelled holds an unexpired lease, and there is at most one.
  ghost predicate Exclusive(y: System) {
    && (forall o :: o in y.workers && y.workers[o].running ==>
        y.row.lockedBy == Some(o) && y.row.lockedUntil.Some? && y.now < y.row.lockedUntil.value)
    && (forall o, p :: o in y.workers && p in y.workers && y.workers[o].running && y.workers[p].running ==> o == p)
  }

  lemma PromptCallsExclude(events: seq<Event>, slow: int, now: int)
    requires slow < RENEW_INTERVAL
    ensures Exclusive(Exec(Created(now), events, slow))
  {
    var y := Exec(Created(now), events, slow);
    ExecSound(Created(now), events, slow);
    forall o | o in y.workers && y.workers[o].running ensures y.now < y.row.lockedUntil.value {
      LeaseOutlivesWorker(y.row, o, y.workers[o], y.now, slow);
    }
  }

  /** At most one terminal state and one terminal event, however slow calls are. */
  lemma {:induction false} ClosesOnce(y: System, events: seq<Event>, slow: int)
    requires (y.row.lockedBy.Some? <==> y.row.status.Processing?) && y.closings == (if Closed(y.row) then 1 else 0)
    requires y.events <= y.closings
    ensures var z := Exec(y, events, slow);
            z.events <= z.closings <= 1 && (Closed(y.row) ==> z.row == y.row && z.events == y.events)
    decreases |events|
  {
    if events != [] {
      ClosesOnce(Next(y, events[0], slow), events[1..], slow);
    }
  }

  // This close ended the job: its worker held the row.
  ghost predicate Ended(y: System, events: seq<Event>, slow: int, i: nat, status: Status)
    requires i < |events|
  {
    && events[i].Close? && events[i].status == status
    && Exec(y, events[..i], slow).row.lockedBy == Some(events[i].owner)
  }

  /** A job is completed only because the worker that held it closed it as completed,
      and failed only because that worker closed it as failed. */
  lemma {:induction false} EndedAsAsked(y: System, events: seq<Event>, slow: int)
    requires y.row.status in {Queued, Processing}
    requires (y.row.lockedBy.Some? <==> y.row.status.Processing?) && y.closings == 0 && y.events == 0
    ensures var status := Exec(y, events, slow).row.status;
      status in {Completed, Failed} ==> exists i :: 0 <= i < |events| && Ended(y, events, slow, i, status)
    decreases |events|
  {
    if events != [] {
      var z, last := Next(y, events[0], slow), Exec(y, events, slow).row.status;
      if Closed(z.row) {
        ClosesOnce(z, events[1..], slow);
        assert Exec(y, events[..0], slow) == y;
        assert Ended(y, events, slow, 0, last);
      } else {
        EndedAsAsked(z, events[1..], slow);
        if last in {Completed, Failed} {
          var i :| 0 <= i < |events| - 1 && Ended(z, events[1..], slow, i, last);
          assert events[..i + 1][1..] == events[1..][..i];
          assert Ended(y, events, slow, i + 1, last);
        }
      }
    }
  }

  lemma {:induction false} ExecAppend(y: System, first: seq<Event>, second: seq<Event>, slow: int)
    ensures Exec(y, first + second, slow) == Exec(Exec(y, first, slow), second, slow)
    decreases |first|
  {
    if first == [] {
      assert first + second == second;
    } else {
      assert (first + second)[1..] == first[1..] + second;
      ExecAppend(Next(y, first[0], slow), first[1..], second, slow);
    }
  }

  function Alone(now: int, until: int, w: Worker): System {
    System(now, Row(Processing, Some("a"), Some(until)), map["a" := w], 0, 0)
  }

  // A renewal that fails at once, early enough to try again at the next tick.
  lemma MissedTick(now: int, until: int, w: Worker, slow: int) returns (events: seq<Event>, v: Worker)
    requires w.running && w.phase.Idle? && now == w.nextTick && now - w.lastRenewed < GIVE_UP && 0 <= slow
    ensures v == w.(missed := w.missed + 1, nextTick := now + RENEW_INTERVAL)
    ensures Exec(Alone(now, until, w), events, slow) == Alone(now + RENEW_INTERVAL, until, v)
  {
    v := w.(missed := w.missed + 1, nextTick := now + RENEW_INTERVAL);
    events := [Tick("a"), Return("a", true), Wait(RENEW_INTERVAL)];
    var y1 := Next(Alone(now, until, w), events[0], slow);
    var y2 := Next(y1, events[1], slow);
    assert y2 == Alone(now, until, v);
    assert Next(y2, events[2], slow) == Alone(now + RENEW_INTERVAL, until, v);
    assert Exec(y2, events[2..], slow) == Exec(Next(y2, events[2], slow), [], slow);
    assert events[1..][0] == events[1] && events[1..][1..] == events[2..];
  }

  // The first renewal is called, applied, and out for a whole interval.
  lemma SlowCall(slow: int) returns (events: seq<Event>, w: Worker)
    requires RENEW_INTERVAL <= slow
    ensures w == Worker(true, Calling(RENEW_INTERVAL, None), 0, 0, 0, 0, 2 * RENEW_INTERVAL)
    ensures Exec(Created(0), events, slow) == Alone(RENEW_INTERVAL, LEASE, w)
  {
    w := Worker(true, Calling(RENEW_INTERVAL, None), 0, 0, 0, 0, 2 * RENEW_INTERVAL);
    var y := Next(Next(Created(0), Claim("a", 0, 0), slow), Start("a"), slow);
    assert y == Alone(0, LEASE, Worker(true, Idle, 0, 0, 0, 0, RENEW_INTERVAL));
    assert Next(Next(y, Wait(RENEW_INTERVAL), slow), Tick("a"), slow) == Alone(RENEW_INTERVAL, LEASE, w);
    hide Next;
    Two(Created(0), Claim("a", 0, 0), Start("a"), slow);
    Two(y, Wait(RENEW_INTERVAL), Tick("a"), slow);
    ExecAppend(Created(0), [Claim("a", 0, 0), Start("a")], [Wait(RENEW_INTERVAL), Tick("a")], slow);
    events := [Claim("a", 0, 0), Start("a")] + [Wait(RENEW_INTERVAL), Tick("a")];
  }

  // One acknowledged renewal whose call takes a whole interval.
  lemma SlowRenewal(slow: int) returns (events: seq<Event>, w: Worker)
    requires RENEW_INTERVAL <= slow
    ensures w == Worker(true, Idle, RENEW_INTERVAL, RENEW_INTERVAL, 0, 2 * RENEW_INTERVAL, 2 * RENEW_INTERVAL)
    ensures Exec(Created(0), events, slow) == Alone(2 * RENEW_INTERVAL, RENEW_INTERVAL + LEASE, w)
  {
    w := Worker(true, Idle, RENEW_INTERVAL, RENEW_INTERVAL, 0, 2 * RENEW_INTERVAL, 2 * RENEW_INTERVAL);
    var e0, called := SlowCall(slow);
    var y := Alone(RENEW_INTERVAL, LEASE, called);
    var z := Next(Next(y, Apply("a"), slow), Wait(RENEW_INTERVAL), slow);
    assert z == Alone(2 * RENEW_INTERVAL, RENEW_INTERVAL + LEASE,
        called.(phase := Calling(RENEW_INTERVAL, Some(true))));
    assert Next(z, Return("a", false), slow) == Alone(2 * RENEW_INTERVAL, RENEW_INTERVAL + LEASE, w);
    hide Next;
    Two(y, Apply("a"), Wait(RENEW_INTERVAL), slow);
    One(z, Return("a", false), slow);
    ExecAppend(Created(0), e0, [Apply("a"), Wait(RENEW_INTERVAL)], slow);
    ExecAppend(Created(0), e0 + [Apply("a"), Wait(RENEW_INTERVAL)], [Return("a", false)], slow);
    events := e0 + [Apply("a"), Wait(RENEW_INTERVAL)] + [Return("a", false)];
  }

  lemma One(y: System, a: Event, slow: int)
    ensures Exec(y, [a], slow) == Next(y, a, slow)
  {
    assert Exec(Next(y, a, slow), [a][1..], slow) == Next(y, a, slow);
  }

  lemma Two(y: System, a: Event, b: Event, slow: int)
    ensures Exec(y, [a, b], slow) == Next(Next(y, a, slow), b, slow)
  {
    assert [a, b][1..] == [b];
    One(Next(y, a, slow), b, slow);
  }

  // Three more misses, and a last call still out when the lease runs out.
  lemma SlowCallsOverlap(slow: int) returns (events: seq<Event>)
    requires RENEW_INTERVAL <= slow
    ensures !Exclusive(Exec(Created(0), events, slow))
  {
    var until := RENEW_INTERVAL + LEASE;
    var e0, w0 := SlowRenewal(slow);
    var e1, w1 := MissedTick(2 * RENEW_INTERVAL, until, w0, slow);
    var e2, w2 := MissedTick(3 * RENEW_INTERVAL, until, w1, slow);
    var e3, w3 := MissedTick(4 * RENEW_INTERVAL, until, w2, slow);
    ExecAppend(Created(0), e0, e1, slow);
    ExecAppend(Created(0), e0 + e1, e2, slow);
    ExecAppend(Created(0), e0 + e1 + e2, e3, slow);
    var y := Alone(5 * RENEW_INTERVAL, until, w3);
    var out := Next(Next(y, Tick("a"), slow), Wait(RENEW_INTERVAL), slow);
    assert out == Alone(until, until, w3.(phase := Calling(5 * RENEW_INTERVAL, None), nextTick := until));
    var z := Next(out, Claim("b", until, until), slow);
    assert z.workers["a"].running && z.workers["b"].running;
    hide Next;
    Two(y, Tick("a"), Wait(RENEW_INTERVAL), slow);
    One(out, Claim("b", until, until), slow);
    ExecAppend(Created(0), e0 + e1 + e2 + e3, [Tick("a"), Wait(RENEW_INTERVAL)], slow);
    ExecAppend(Created(0), e0 + e1 + e2 + e3 + [Tick("a"), Wait(RENEW_INTERVAL)], [Claim("b", until, until)], slow);
    events := e0 + e1 + e2 + e3 + [Tick("a"), Wait(RENEW_INTERVAL)] + [Claim("b", until, until)];
  }

  /** No two uncancelled workers ever run one job, and each still holds its lease,
      exactly when calls take less than one renewal interval of two minutes. */
  lemma ExclusiveExactly(slow: int)
    ensures (forall events, now :: Exclusive(Exec(Created(now), events, slow))) <==> slow < 120_000_000_000
  {
    if slow < RENEW_INTERVAL {
      forall events, now ensures Exclusive(Exec(Created(now), events, slow)) {
        PromptCallsExclude(events, slow, now);
      }
    } else {
      var events := SlowCallsOverlap(slow);
      assert !Exclusive(Exec(Created(0), events, slow));
    }
  }
}

/**
 Admission to the TypeSafe provider: a circuit breaker with generations, probes,
 an exponential cooldown, a one-minute rate window and a cap on requests in
 flight.  The client object changes its fields under a lock, so each call is one
 step; a run interleaves any number of requests that acquire and complete.
 */
module Breaker {
  import opened Common

  // Times and durations are in nanoseconds.
  const SECOND := 1_000_000_000
  const MINUTE := 60 * SECOND
  const COOLDOWN_CAP := 5 * MINUTE

  // Two configurations are the same when all their settings are; the settings
  // the breaker does not read are behind the name.
  datatype Config = Config(name: string, maxInFlight: int, maxPerMinute: int)

  datatype Lease = Lease(generation: nat, probe: bool)

  datatype Answer = Admitted | SkippedConfig | SkippedCooldown | SkippedNoCapacity | SkippedRateLimit

  // ErrorOther: timeout, transport, server, other HTTP, oversize or invalid response.
  datatype Status =
    | StatusOk | ErrorAuth | ErrorRequestRejected | ErrorConfig | ErrorCanceled | ErrorOverload | ErrorOther

  datatype State = State(
    cfg: Option<Config>, generation: nat, inFlight: int, windowStart: Option<int>, used: int,
    failures: int, backoff: int, cooldown: Option<int>, probe: bool, blocked: bool)

  const INITIAL := State(None, 0, 0, None, 0, 0, 0, None, false, false)

  function Configure(s: State, cfg: Config): State {
    if s.cfg == Some(cfg) then s
    else s.(cfg := Some(cfg), generation := s.generation + 1, failures := 0, backoff := 0, cooldown := None,
            probe := false, blocked := false)
  }

  function OpenWindow(s: State, now: int): State {
    if s.windowStart.None? || now - s.windowStart.value >= MINUTE then s.(windowStart := Some(now), used := 0) else s
  }

  datatype Acquisition = Acquisition(state: State, lease: Lease, answer: Answer)

  function AcquireOp(before: State, cfg: Config, now: int): Acquisition {
    var s := Configure(before, cfg);
    var lease := Lease(s.generation, false);
    if s.blocked then Acquisition(s, lease, SkippedConfig)
    else if s.cooldown.Some? && (now < s.cooldown.value || s.probe) then Acquisition(s, lease, SkippedCooldown)
    else if s.inFlight >= cfg.maxInFlight then Acquisition(s, lease, SkippedNoCapacity)
    else
      var t := OpenWindow(s, now);
      if t.used >= cfg.maxPerMinute then Acquisition(t, lease, SkippedRateLimit)
      else Acquisition(t.(probe := t.probe || t.cooldown.Some?, inFlight := t.inFlight + 1, used := t.used + 1),
                       lease.(probe := t.cooldown.Some?), Admitted)
  }

  function NextBackoff(backoff: int): int {
    Min(COOLDOWN_CAP, if backoff == 0 then SECOND else 2 * backoff)
  }

  // Back off longer each time; never bring an agreed cooldown forward.
  function CoolDown(s: State, retryAfter: int, now: int): State {
    var backoff := NextBackoff(s.backoff);
    var deadline := now + Max(backoff, retryAfter);
    s.(backoff := backoff, cooldown := Some(if s.cooldown.None? then deadline else Max(s.cooldown.value, deadline)))
  }

  function CompleteOp(before: State, lease: Lease, status: Status, retryAfter: int, now: int): State {
    var s := before.(inFlight := before.inFlight - 1);
    if lease.generation != s.generation then s
    else
      var t := if lease.probe then s.(probe := false) else s;
      match status
      case StatusOk =>
        if lease.probe then t.(cooldown := None, failures := 0, backoff := 0)
        else if t.cooldown.None? && !t.blocked then t.(failures := 0) else t
      case ErrorAuth => t.(blocked := true)
      case ErrorRequestRejected => t.(blocked := true)
      case ErrorConfig => t.(blocked := true)
      case ErrorCanceled => t
      case _ =>
        var u := t.(failures := t.failures + 1);
        if !status.ErrorOverload? && u.failures < 3 && !lease.probe then u else CoolDown(u, retryAfter, now)
  }

  // ----- Retry-After -----

  datatype RetryAfter = Seconds(n: int) | Date(when: int) | Unreadable

  method ParseRetryAfterAt(value: RetryAfter, now: int) returns (delay: int)
    ensures 0 <= delay <= COOLDOWN_CAP
    ensures value.Seconds? ==> delay == Max(0, Min(COOLDOWN_CAP, value.n * SECOND))
    ensures value.Date? ==> delay == Max(0, Min(COOLDOWN_CAP, value.when - now))
    ensures value.Unreadable? ==> delay == 0
  {
    match value
    case Seconds(n) =>
      if n <= 0 {
        return 0;
      }
      if n >= COOLDOWN_CAP / SECOND {
        return COOLDOWN_CAP;
      }
      return n * SECOND;
    case Date(when) =>
      delay := when - now;
      if delay <= 0 {
        return 0;
      }
      if delay > COOLDOWN_CAP {
        return COOLDOWN_CAP;
      }
    case Unreadable =>
      return 0;
  }

  class TypeSafeClient {
    var cfg: Option<Config>
    var generation: nat
    var inFlight: int
    var windowStart: Option<int>
    var used: int
    var failures: int
    var backoff: int
    var cooldown: Option<int>
    var probe: bool
    var blocked: bool

    function Model(): State
      reads this
    {
      State(cfg, generation, inFlight, windowStart, used, failures, backoff, cooldown, probe, blocked)
    }

    constructor ()
      ensures Model() == INITIAL
    {
      cfg, generation, inFlight, windowStart, used := None, 0, 0, None, 0;
      failures, backoff, cooldown, probe, blocked := 0, 0, None, false, false;
    }

    method Acquire(c: Config, now: int) returns (lease: Lease, answer: Answer)
      modifies this
      ensures Acquisition(Model(), lease, answer) == AcquireOp(old(Model()), c, now)
      ensures old(cfg) != Some(c) ==> generation == old(generation) + 1 && cooldown == None && !blocked && !probe
      ensures old(cfg) == Some(c) ==> generation == old(generation)
      ensures cfg == Some(c) && lease.generation == generation
      ensures answer == SkippedConfig <==> blocked
      ensures answer == SkippedCooldown <==>
        !blocked && cooldown.Some? && (now < cooldown.value || (old(cfg) == Some(c) && old(probe)))
      ensures answer == SkippedNoCapacity ==> old(inFlight) >= c.maxInFlight
      ensures answer == SkippedRateLimit ==> used >= c.maxPerMinute && now - windowStart.value < MINUTE
      ensures answer == Admitted ==>
        && old(inFlight) < c.maxInFlight && inFlight == old(inFlight) + 1 && used <= c.maxPerMinute
        && (lease.probe <==> cooldown.Some?) && (cooldown.Some? ==> probe)
      ensures answer != Admitted ==> inFlight == old(inFlight) && !lease.probe
    {
      if cfg != Some(c) {
        cfg := Some(c);
        generation := generation + 1;
        failures, backoff, cooldown, probe, blocked := 0, 0, None, false, false;
      }
      lease := Lease(generation, false);
      if blocked {
        return lease, SkippedConfig;
      }
      if cooldown.Some? && (now < cooldown.value || probe) {
        return lease, SkippedCooldown;
      }
      if inFlight >= c.maxInFlight {
        return lease, SkippedNoCapacity;
      }
      if windowStart.None? || now - windowStart.value >= MINUTE {
        windowStart, used := Some(now), 0;
      }
      if used >= c.maxPerMinute {
        return lease, SkippedRateLimit;
      }
      if cooldown.Some? {
        probe := true;
        lease := lease.(probe := true);
      }
      inFlight := inFlight + 1;
      used := used + 1;
      answer := Admitted;
    }

    method Complete(lease: Lease, status: Status, retryAfter: int, now: int)
      modifies this
      ensures Model() == CompleteOp(old(Model()), lease, status, retryAfter, now)
      ensures inFlight == old(inFlight) - 1 && generation == old(generation) && cfg == old(cfg)
      ensures lease.generation == generation && status in {ErrorAuth, ErrorRequestRejected, ErrorConfig} ==> blocked
      ensures lease.generation == generation && status == StatusOk && lease.probe ==>
        cooldown == None && failures == 0 && backoff == 0 && !probe
      ensures lease.generation == generation && status == ErrorCanceled ==>
        cooldown == old(cooldown) && failures == old(failures) && backoff == old(backoff) && blocked == old(blocked)
    {
      inFlight := inFlight - 1;
      if lease.generation != generation {
        return;
      }
      if lease.probe {
        probe := false;
      }
      match status {
        case StatusOk =>
          if lease.probe {
            cooldown, failures, backoff := None, 0, 0;
          } else if cooldown.None? && !blocked {
            failures := 0;
          }
          return;
        case ErrorAuth =>
          blocked := true;
          return;
        case ErrorRequestRejected =>
          blocked := true;
          return;
        case ErrorConfig =>
          blocked := true;
          return;
        case ErrorCanceled =>
          return;
        case _ =>
      }
      failures := failures + 1;
      if status != ErrorOverload && failures < 3 && !lease.probe {
        return;
      }
      ExtendCooldown(retryAfter, now);
    }

    method ExtendCooldown(retryAfter: int, now: int)
      modifies this`backoff, this`cooldown
      ensures Model() == CoolDown(old(Model()), retryAfter, now)
    {
      if backoff == 0 {
        backoff := SECOND;
      } else {
        backoff := backoff * 2;
      }
      if backoff > COOLDOWN_CAP {
        backoff := COOLDOWN_CAP;
      }
      var delay := backoff;
      if retryAfter > delay {
        delay := retryAfter;
      }
      var deadline := now + delay;
      if cooldown.None? || deadline > cooldown.value {
        cooldown := Some(deadline);
      }
    }
  }
}

/** The breaker over whole runs. */
module BreakerRuns {
  import opened Common
  import opened Breaker

  // One admission: when, in which window, and the how-manieth there.
  datatype Admission = Admission(at: int, window: int, ordinal: int)

  // The breaker, the leases out, what was admitted, the clock, the last completion.
  datatype System = System(
    state: State, leases: multiset<Lease>, log: seq<Admission>, now: int, lastDone: int)

  datatype Event =
    | Ask(cfg: Config, at: int)
    | Finish(lease: Lease, status: Status, retryAfter: int, at: int)

  ghost function Start(now: int): System {
    System(INITIAL, multiset{}, [], now, now)
  }

  ghost predicate Possible(y: System, e: Event) {
    && y.now <= e.at
    && match e
       case Ask(cfg, _) => cfg.maxInFlight >= 1 && cfg.maxPerMinute >= 1
       case Finish(lease, _, retryAfter, _) => lease in y.leases && 0 <= retryAfter <= COOLDOWN_CAP
  }

  ghost function Step(y: System, e: Event): System {
    match e
    case Ask(cfg, at) =>
      var a := AcquireOp(y.state, cfg, at);
      if a.answer.Admitted?
      then System(a.state, y.leases + multiset{a.lease},
                  y.log + [Admission(at, if a.state.windowStart.Some? then a.state.windowStart.value else at,
                      a.state.used)],
                  at, y.lastDone)
      else y.(state := a.state, now := at)
    case Finish(lease, status, retryAfter, at) =>
      y.(state := CompleteOp(y.state, lease, status, retryAfter, at), leases := y.leases - multiset{lease}, now := at,
          lastDone := at)
  }

  ghost predicate Legal(y: System, events: seq<Event>)
    decreases |events|
  {
    events != [] ==> Possible(y, events[0]) && Legal(Step(y, events[0]), events[1..])
  }

  ghost function Exec(y: System, events: seq<Event>): System
    decreases |events|
  {
    if events == [] then y else Exec(Step(y, events[0]), events[1..])
  }

  /** The breaker's state, read off the leases that are out. */
  ghost predicate Sound(y: System) {
    var s := y.state;
    && s.inFlight == |y.leases|
    && (forall l :: l in y.leases ==> l.generation <= s.generation)
    && y.leases[Lease(s.generation, true)] == (if s.probe then 1 else 0)
    && (s.probe ==> s.cooldown.Some?)
    && (s.backoff == 0 <==> s.cooldown.None?)
    && (s.backoff != 0 ==> SECOND <= s.backoff <= COOLDOWN_CAP)
    && (s.cooldown.None? ==> 0 <= s.failures <= 2)
    && (s.cooldown.Some? ==> s.failures >= 1 && s.cooldown.value <= y.lastDone + COOLDOWN_CAP)
    && y.lastDone <= y.now
    && (s.cfg.None? ==> s == INITIAL)
  }

  ghost predicate Follows(a: Admission, b: Admission) {
    && a.at <= b.at
    && if a.window == b.window then b.ordinal == a.ordinal + 1 else b.window >= a.window + MINUTE
  }

  /** The admissions, window by window. */
  ghost predicate LogSound(y: System) {
    && (forall i :: 0 <= i < |y.log| ==>
        y.log[i].window <= y.log[i].at < y.log[i].window + MINUTE && y.log[i].ordinal >= 1)
    && (forall i :: 0 <= i < |y.log| - 1 ==> Follows(y.log[i], y.log[i + 1]))
    && (y.log == [] ==> y.state.windowStart.None?)
    && (y.log != [] ==>
          var last := y.log[|y.log| - 1];
          y.state.windowStart == Some(last.window) && y.state.used == last.ordinal && last.at <= y.now)
  }

  ghost predicate LogWithin(y: System, limit: int) {
    forall i :: 0 <= i < |y.log| ==> y.log[i].ordinal <= limit
  }

  lemma ConfigureSound(y: System, cfg: Config)
    requires Sound(y)
    ensures Sound(y.(state := Configure(y.state, cfg)))
  {
    assert Lease(y.state.generation + 1, true) !in y.leases;
  }

  lemma AskSound(y: System, cfg: Config, at: int)
    requires Sound(y) && Possible(y, Ask(cfg, at))
    ensures Sound(Step(y, Ask(cfg, at)))
  {
    ConfigureSound(y, cfg);
    var a := AcquireOp(y.state, cfg, at);
    if a.answer.Admitted? {
      var more := y.leases + multiset{a.lease};
      assert |more| == |y.leases| + 1;
    }
  }

  lemma FinishSound(y: System, lease: Lease, status: Status, retryAfter: int, at: int)
    requires Sound(y) && Possible(y, Finish(lease, status, retryAfter, at))
    ensures Sound(Step(y, Finish(lease, status, retryAfter, at)))
  {
    var left := y.leases - multiset{lease};
    assert |left| == |y.leases| - 1;
  }

  lemma StepLogSound(y: System, e: Event)
    requires LogSound(y) && Possible(y, e)
    ensures LogSound(Step(y, e))
  {
    match e
    case Finish(lease, status, retryAfter, at) =>
    case Ask(cfg, at) =>
      var a := AcquireOp(y.state, cfg, at);
      var s := Configure(y.state, cfg);
      assert s.windowStart == y.state.windowStart && s.used == y.state.used;
      if a.answer.Admitted? {
        var t := OpenWindow(s, at);
        var last := Admission(at, t.windowStart.value, t.used + 1);
        assert Step(y, e).log == y.log + [last];
        if y.log != [] {
          assert Follows(y.log[|y.log| - 1], last);
        }
      }
  }

  lemma StepLogWithin(y: System, e: Event, limit: int)
    requires LogWithin(y, limit) && (e.Ask? ==> e.cfg.maxPerMinute <= limit)
    ensures LogWithin(Step(y, e), limit)
  {
  }

  ghost predicate LimitedBy(events: seq<Event>, limit: int) {
    forall e :: e in events && e.Ask? ==> e.cfg.maxPerMinute <= limit
  }

  /** Every reachable state is sound, whatever the configurations, the order of
      completions and their outcomes. */
  lemma {:induction false} AlwaysSound(y: System, events: seq<Event>)
    requires Sound(y) && LogSound(y) && Legal(y, events)
    ensures Sound(Exec(y, events)) && LogSound(Exec(y, events))
    decreases |events|
  {
    if events != [] {
      match events[0] {
        case Ask(cfg, at) => AskSound(y, cfg, at);
        case Finish(lease, status, retryAfter, at) => FinishSound(y, lease, status, retryAfter, at);
      }
      StepLogSound(y, events[0]);
      AlwaysSound(Step(y, events[0]), events[1..]);
    }
  }

  /** While a probe is out, nobody else of its generation gets in. */
  lemma ProbeIsAlone(y: System, cfg: Config, at: int)
    requires Sound(y) && Lease(y.state.generation, true) in y.leases
    ensures y.state.cfg == Some(cfg) ==> AcquireOp(y.state, cfg, at).answer in {SkippedConfig, SkippedCooldown}
  {
  }

  /** A completion from an older generation gives back its slot and nothing else. */
  lemma StaleCompletion(y: System, lease: Lease, status: Status, retryAfter: int, at: int)
    requires Sound(y) && lease in y.leases && lease.generation != y.state.generation
    ensures CompleteOp(y.state, lease, status, retryAfter, at) == y.state.(inFlight := |y.leases| - 1)
  {
  }

  ghost predicate OnlyConfig(events: seq<Event>, cfg: Config) {
    forall i :: 0 <= i < |events| && events[i].Ask? ==> events[i].cfg == cfg
  }

  /** Once blocked, nothing is admitted until the configuration changes. */
  lemma {:induction false} BlockedStaysBlocked(y: System, events: seq<Event>, cfg: Config)
    requires y.state.cfg == Some(cfg) && y.state.blocked && OnlyConfig(events, cfg)
    ensures Exec(y, events).state.blocked && Exec(y, events).log == y.log
    decreases |events|
  {
    if events != [] {
      BlockedStaysBlocked(Step(y, events[0]), events[1..], cfg);
    }
  }

  // All admissions from the n-th on are at or after a time.
  ghost predicate NoneBefore(log: seq<Admission>, n: nat, time: int) {
    forall i :: n <= i < |log| ==> log[i].at >= time
  }

  lemma {:induction false} LogGrows(y: System, events: seq<Event>)
    ensures y.log <= Exec(y, events).log
    decreases |events|
  {
    if events != [] {
      LogGrows(Step(y, events[0]), events[1..]);
    }
  }

  lemma {:induction false} LateAdmissions(y: System, events: seq<Event>, time: int)
    requires Legal(y, events) && y.now >= time
    ensures NoneBefore(Exec(y, events).log, |y.log|, time)
    decreases |events|
  {
    if events != [] {
      var z := Step(y, events[0]);
      LateAdmissions(z, events[1..], time);
      LogGrows(z, events[1..]);
    }
  }

  // The probe of the current generation is not reported to have succeeded.
  ghost predicate NoProbeSuccess(events: seq<Event>, generation: nat) {
    forall e :: e in events && e.Finish? && e.lease == Lease(generation, true) ==> e.status != StatusOk
  }

  lemma AskRefused(s: State, cfg: Config, at: int)
    requires s.cfg == Some(cfg) && s.cooldown.Some? && at < s.cooldown.value
    ensures AcquireOp(s, cfg, at).state == s && AcquireOp(s, cfg, at).answer in {SkippedConfig, SkippedCooldown}
  {
  }

  lemma FinishProlongs(s: State, lease: Lease, status: Status, retryAfter: int, at: int)
    requires s.cooldown.Some? && !(lease == Lease(s.generation, true) && status == StatusOk)
    ensures
      var t := CompleteOp(s, lease, status, retryAfter, at);
      && t.cfg == s.cfg && t.generation == s.generation && (t.probe ==> s.probe)
      && t.cooldown.Some? && t.cooldown.value >= s.cooldown.value
  {
  }

  lemma CooldownStep(y: System, e: Event, cfg: Config, until: int)
    requires Sound(y) && Possible(y, e) && y.state.cfg == Some(cfg) && (e.Ask? ==> e.cfg == cfg)
    requires y.state.cooldown.Some? && y.state.cooldown.value >= until && e.at < until
    requires !y.state.probe || NoProbeSuccess([e], y.state.generation)
    ensures
      var z := Step(y, e);
      && Sound(z) && z.log == y.log && z.state.cfg == y.state.cfg && z.state.generation == y.state.generation
      && z.state.cooldown.Some? && z.state.cooldown.value >= until && (z.state.probe ==> y.state.probe)
  {
    match e
    case Ask(c, at) =>
      AskSound(y, c, at);
      AskRefused(y.state, c, at);
      hide Sound, AcquireOp;
    case Finish(lease, status, retryAfter, at) =>
      FinishSound(y, lease, status, retryAfter, at);
      assert e in [e];
      assert lease == Lease(y.state.generation, true) ==> y.state.probe;
      FinishProlongs(y.state, lease, status, retryAfter, at);
      hide Sound, CompleteOp;
  }

  /** While a cooldown runs and no probe succeeds, no request of its configuration is
      admitted before the cooldown is over. */
  lemma {:induction false} CooldownHolds(y: System, events: seq<Event>, cfg: Config, until: int)
    requires Sound(y) && Legal(y, events) && y.state.cfg == Some(cfg) && OnlyConfig(events, cfg)
    requires y.state.cooldown.Some? && y.state.cooldown.value >= until
    requires !y.state.probe || NoProbeSuccess(events, y.state.generation)
    ensures NoneBefore(Exec(y, events).log, |y.log|, until)
    decreases |events|
  {
    hide Sound;
    if events != [] {
      var e := events[0];
      var z := Step(y, e);
      assert e in events && forall x :: x in events[1..] ==> x in events;
      assert Exec(y, events) == Exec(z, events[1..]) && Legal(z, events[1..]) && Possible(y, e);
      assert OnlyConfig(events[1..], cfg);
      LogGrows(y, events);
      if e.at >= until {
        LateAdmissions(z, events[1..], until);
        LogGrows(z, events[1..]);
      } else {
        CooldownStep(y, e, cfg, until);
        hide Step, Exec, Legal, Possible;
        CooldownHolds(z, events[1..], cfg, until);
      }
    }
  }

  // The completions that start or prolong a cooldown: an overload, a failed probe, a
  // third failure in a row.
  ghost predicate CoolsDown(y: System, lease: Lease, status: Status) {
    && lease.generation == y.state.generation
    && (status == ErrorOverload || (status == ErrorOther && (lease.probe || y.state.failures >= 2)))
  }

  /** After a completion of the current generation with an overload, a failed probe or
      a third failure in a row, no request of that configuration is admitted before
      that completion's time plus the larger of one second and its Retry-After, unless
      a probe that was already out succeeds. */
  lemma FailureKeepsOut(y: System, lease: Lease, status: Status, retryAfter: int, at: int, events: seq<Event>,
      cfg: Config)
    requires Sound(y) && y.state.cfg == Some(cfg) && OnlyConfig(events, cfg)
    requires Legal(y, [Finish(lease, status, retryAfter, at)] + events)
    requires lease.generation == y.state.generation
    requires status == ErrorOverload || (status == ErrorOther && (lease.probe || y.state.failures >= 2))
    requires lease.probe || Lease(y.state.generation, true) !in y.leases || NoProbeSuccess(events, y.state.generation)
    ensures
      var log := Exec(y, [Finish(lease, status, retryAfter, at)] + events).log;
      && y.log <= log
      && forall i :: |y.log| <= i < |log| ==> log[i].at >= at + 1_000_000_000 && log[i].at >= at + retryAfter
  {
    var e := Finish(lease, status, retryAfter, at);
    var z := Step(y, e);
    assert ([e] + events)[0] == e && ([e] + events)[1..] == events;
    FinishSound(y, lease, status, retryAfter, at);
    CooldownHolds(z, events, cfg, at + Max(SECOND, retryAfter));
    LogGrows(z, events);
  }

  /** If one was, its success lets the next request in at once. */
  lemma SucceedingProbeReopens(y: System, at: int, cfg: Config)
    requires Sound(y) && y.state.cfg == Some(cfg) && !y.state.blocked && Lease(y.state.generation, true) in y.leases
    requires |y.leases| <= cfg.maxInFlight && cfg.maxPerMinute >= 1
    requires y.state.windowStart.Some? && at - y.state.windowStart.value < MINUTE ==> y.state.used < cfg.maxPerMinute
    ensures
      var z := Step(y, Finish(Lease(y.state.generation, true), StatusOk, 0, at));
      && z.state.cooldown == None && z.state.failures == 0 && z.state.backoff == 0
      && AcquireOp(z.state, cfg, at).answer == Admitted
  {
    assert |y.leases - multiset{Lease(y.state.generation, true)}| == |y.leases| - 1;
  }

  /** Failures are counted one by one; fewer than three in a row, none of them a probe
      or an overload, start no cooldown; each cooldown doubles the backoff, from one
      second up to five minutes, and never ends sooner than one already agreed. */
  lemma FailuresAddUp(y: System, lease: Lease, status: Status, retryAfter: int, at: int)
    requires Sound(y) && lease in y.leases && lease.generation == y.state.generation
    requires status == ErrorOverload || status == ErrorOther
    ensures
      var s, t := y.state, Step(y, Finish(lease, status, retryAfter, at)).state;
      && t.failures == s.failures + 1 && t.blocked == s.blocked
      && (status == ErrorOther && !lease.probe && s.failures < 2 ==> t.cooldown == s.cooldown && t.backoff == s.backoff)
      && (CoolsDown(y, lease, status) ==>
            && t.backoff == (if s.backoff == 0 then 1_000_000_000 else Min(300_000_000_000, 2 * s.backoff))
            && t.cooldown.Some? && t.cooldown.value >= at + t.backoff && t.cooldown.value >= at + retryAfter
            && (s.cooldown.Some? ==> t.cooldown.value >= s.cooldown.value)
            && (t.cooldown.value == at + t.backoff || t.cooldown.value == at + retryAfter || t.cooldown == s.cooldown))
  {
  }

  /** A success without a cooldown forgets the failures before it. */
  lemma SuccessForgets(y: System, lease: Lease, at: int)
    requires lease in y.leases && lease.generation == y.state.generation && y.state.cooldown == None && !y.state.blocked
    ensures Step(y, Finish(lease, StatusOk, 0, at)).state.failures == 0
  {
  }

  /** A completion with an authentication, rejection or configuration error shuts out
      every later request of that configuration. */
  lemma ConfigErrorBlocks(y: System, lease: Lease, status: Status, retryAfter: int, at: int, events: seq<Event>,
      cfg: Config)
    requires Sound(y) && y.state.cfg == Some(cfg) && OnlyConfig(events, cfg)
    requires lease.generation == y.state.generation && status in {ErrorAuth, ErrorRequestRejected, ErrorConfig}
    ensures Exec(y, [Finish(lease, status, retryAfter, at)] + events).log == y.log
  {
    var e := Finish(lease, status, retryAfter, at);
    assert ([e] + events)[0] == e && ([e] + events)[1..] == events;
    BlockedStaysBlocked(Step(y, e), events, cfg);
  }

  /** No more requests are ever out than the largest limit in use. */
  lemma {:induction false} CapacityBound(y: System, events: seq<Event>, limit: nat)
    requires Sound(y) && Legal(y, events) && |y.leases| <= limit
    requires forall e :: e in events && e.Ask? ==> e.cfg.maxInFlight <= limit
    ensures |Exec(y, events).leases| <= limit
    decreases |events|
  {
    if events != [] {
      var e := events[0];
      assert e in events && forall x :: x in events[1..] ==> x in events;
      match e {
        case Ask(cfg, at) => AskSound(y, cfg, at);
        case Finish(lease, status, retryAfter, at) => FinishSound(y, lease, status, retryAfter, at);
      }
      assert e.Finish? ==> |y.leases - multiset{e.lease}| == |y.leases| - 1;
      CapacityBound(Step(y, e), events[1..], limit);
    }
  }

  /** An unblocked breaker with capacity, rate budget and no live probe lets a
      request in five minutes after the last completion at the latest. */
  lemma AdmitsAgain(y: System, cfg: Config, at: int)
    requires Sound(y) && y.state.cfg == Some(cfg) && !y.state.blocked && Lease(y.state.generation, true) !in y.leases
    requires |y.leases| < cfg.maxInFlight && cfg.maxPerMinute >= 1
    requires y.state.windowStart.Some? && at - y.state.windowStart.value < MINUTE ==> y.state.used < cfg.maxPerMinute
    requires at >= y.lastDone + COOLDOWN_CAP
    ensures AcquireOp(y.state, cfg, at).answer.Admitted?
  {
  }

  // Within one window the ordinals count up.
  lemma {:induction false} WindowCounts(log: seq<Admission>, i: nat, k: nat)
    requires forall j :: 0 <= j < |log| - 1 ==> Follows(log[j], log[j + 1])
    requires i + k < |log|
    ensures log[i].at <= log[i + k].at
    ensures log[i + k].window == log[i].window ==> log[i + k].ordinal == log[i].ordinal + k
    ensures log[i + k].window == log[i].window || log[i + k].window >= log[i].window + MINUTE
  {
    if k > 0 {
      WindowCounts(log, i, k - 1);
      assert Follows(log[i + k - 1], log[i + k]);
    }
  }

  /** With at most limit admissions a window, 2 * limit + 1 consecutive ones span
      more than a minute. */
  lemma AdmissionsSpread(y: System, limit: nat, i: nat, j: nat)
    requires LogSound(y) && LogWithin(y, limit) && limit >= 1
    requires i < j < |y.log| && j - i >= 2 * limit
    ensures y.log[j].at > y.log[i].at + MINUTE
  {
    var m := i + limit;
    WindowCounts(y.log, i, limit);
    WindowCounts(y.log, m, limit);
    WindowCounts(y.log, m + limit, j - m - limit);
    assert y.log[m].window >= y.log[i].window + MINUTE;
    assert y.log[m + limit].window >= y.log[m].window + MINUTE;
  }

  ghost predicate SpansWithin(log: seq<Admission>, most: int) {
    forall i, j :: 0 <= i <= j < |log| && log[j].at - log[i].at <= MINUTE ==> j - i + 1 <= most
  }

  /** No closed one-minute span holds more than twice the largest per-minute limit
      in use, whatever configurations come and go. */
  lemma {:induction false} RateBound(y: System, events: seq<Event>, limit: nat)
    requires LogSound(y) && LogWithin(y, limit) && Legal(y, events) && limit >= 1
    requires LimitedBy(events, limit)
    ensures SpansWithin(Exec(y, events).log, 2 * limit)
    decreases |events|
  {
    if events == [] {
      forall i, j | 0 <= i <= j < |y.log| && y.log[j].at - y.log[i].at <= MINUTE ensures j - i + 1 <= 2 * limit {
        if j - i >= 2 * limit {
          AdmissionsSpread(y, limit, i, j);
        }
      }
    } else {
      StepLogSound(y, events[0]);
      StepLogWithin(y, events[0], limit);
      RateBound(Step(y, events[0]), events[1..], limit);
    }
  }

  /** From a fresh client. */
  lemma FromTheStart(now: int, events: seq<Event>)
    requires Legal(Start(now), events)
    ensures Sound(Exec(Start(now), events)) && LogSound(Exec(Start(now), events))
  {
    AlwaysSound(Start(now), events);
  }
}

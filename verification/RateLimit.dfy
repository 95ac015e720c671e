/** The token bucket per key, with and without eviction of idle buckets. Times are in
    seconds; reals stand for floating-point numbers. */
module TokenBucket {
  import opened Common

  const SCAN_INTERVAL: real := 60.0
  const SCAN_SIZE: nat := 4096
  const IDLE: real := 600.0

  datatype Bucket = Bucket(tokens: real, last: real)

  datatype Config = Config(rate: real, burst: real)

  datatype State = State(buckets: map<string, Bucket>, lastScan: real)

  datatype Call = Call(key: string, now: real)

  function Least(a: real, b: real): real {
    if a <= b then a else b
  }

  function Kept(buckets: map<string, Bucket>, now: real): map<string, Bucket> {
    map key | key in buckets && !(now - buckets[key].last > IDLE) :: buckets[key]
  }

  function Sweep(s: State, now: real): State {
    if now - s.lastScan < SCAN_INTERVAL || |s.buckets| < SCAN_SIZE then s else State(Kept(s.buckets, now), now)
  }

  function Refill(c: Config, time: real): real {
    time * c.rate
  }

  // The tokens a key has at a time; a key without a bucket has them all.
  function Available(c: Config, s: State, key: string, now: real): real {
    if key in s.buckets then Least(c.burst, s.buckets[key].tokens + Refill(c, now - s.buckets[key].last)) else c.burst
  }

  function Allowed(c: Config, s: State, call: Call): bool {
    c.rate <= 0.0 || Available(c, s, call.key, call.now) >= 1.0
  }

  // One call; `evict` says whether the limiter sweeps.
  function Step(c: Config, evict: bool, s: State, call: Call): State {
    if c.rate <= 0.0 then s
    else
      var t := if evict then Sweep(s, call.now) else s;
      var tokens := Available(c, t, call.key, call.now);
      t.(buckets := t.buckets[call.key := Bucket(if tokens >= 1.0 then tokens - 1.0 else tokens, call.now)])
  }

  function Answer(c: Config, evict: bool, s: State, call: Call): bool {
    Allowed(c, if evict then Sweep(s, call.now) else s, call)
  }

  function Answers(c: Config, evict: bool, s: State, calls: seq<Call>): (r: seq<bool>)
    ensures |r| == |calls|
    decreases |calls|
  {
    if calls == [] then []
    else [Answer(c, evict, s, calls[0])] + Answers(c, evict, Step(c, evict, s, calls[0]), calls[1..])
  }

  // The clock does not go back.
  predicate Ordered(calls: seq<Call>) {
    forall i, j :: 0 <= i < j < |calls| ==> calls[i].now <= calls[j].now
  }

  predicate Sane(c: Config, s: State, now: real) {
    forall key :: key in s.buckets ==> 0.0 <= s.buckets[key].tokens <= c.burst && s.buckets[key].last <= now
  }

  lemma RefillGrows(c: Config, a: real, b: real)
    requires a <= b && c.rate > 0.0
    ensures Refill(c, a) <= Refill(c, b)
  {
    assert (b - a) * c.rate >= 0.0;
  }

  lemma RefillAdds(c: Config, a: real, b: real)
    ensures Refill(c, a + b) == Refill(c, a) + Refill(c, b) && Refill(c, 0.0) == 0.0
  {
  }

  lemma StepSane(c: Config, evict: bool, s: State, call: Call)
    requires c.rate > 0.0 && c.burst >= 1.0 && Sane(c, s, call.now)
    ensures Sane(c, Step(c, evict, s, call), call.now)
  {
    if call.key in s.buckets {
      hide Refill;
      RefillAdds(c, 0.0, 0.0);
      RefillGrows(c, 0.0, call.now - s.buckets[call.key].last);
    }
  }

  // What was evicted would be full by now.
  ghost predicate Mirrors(c: Config, s: State, ideal: State, now: real) {
    && (forall key :: key in s.buckets ==> key in ideal.buckets && ideal.buckets[key] == s.buckets[key])
    && (forall key :: key in ideal.buckets && key !in s.buckets ==> now - ideal.buckets[key].last > IDLE)
    && Sane(c, ideal, now)
  }

  lemma SameAvailable(c: Config, s: State, ideal: State, key: string, now: real)
    requires c.rate > 0.0 && Refill(c, IDLE) >= c.burst && Mirrors(c, s, ideal, now)
    ensures Available(c, s, key, now) == Available(c, ideal, key, now)
  {
    if key in ideal.buckets && key !in s.buckets {
      hide Refill;
      RefillGrows(c, IDLE, now - ideal.buckets[key].last);
    }
  }

  lemma StepMirrors(c: Config, s: State, ideal: State, call: Call, next: real)
    requires c.rate > 0.0 && c.burst >= 1.0 && Refill(c, IDLE) >= c.burst && call.now <= next
    requires Mirrors(c, s, ideal, call.now)
    ensures Answer(c, true, s, call) == Answer(c, false, ideal, call)
    ensures Mirrors(c, Step(c, true, s, call), Step(c, false, ideal, call), next)
  {
    var t := Sweep(s, call.now);
    assert Mirrors(c, t, ideal, call.now);
    SameAvailable(c, t, ideal, call.key, call.now);
    StepSane(c, false, ideal, call);
  }

  lemma {:induction false} MirroredAnswers(c: Config, s: State, ideal: State, calls: seq<Call>)
    requires c.rate > 0.0 && c.burst >= 1.0 && Refill(c, IDLE) >= c.burst && Ordered(calls)
    requires calls != [] ==> Mirrors(c, s, ideal, calls[0].now)
    ensures Answers(c, true, s, calls) == Answers(c, false, ideal, calls)
    decreases |calls|
  {
    hide Mirrors, Step, Answer;
    if calls != [] {
      StepMirrors(c, s, ideal, calls[0], if |calls| > 1 then calls[1].now else calls[0].now);
      MirroredAnswers(c, Step(c, true, s, calls[0]), Step(c, false, ideal, calls[0]), calls[1..]);
    }
  }

  function Fresh(now: real): State {
    State(map[], now)
  }

  /** If IDLE seconds refill a bucket, sweeping never changes an answer. */
  lemma EvictionUnseen(c: Config, calls: seq<Call>, start: real)
    requires c.burst >= 1.0 && Ordered(calls) && (c.rate > 0.0 ==> Refill(c, IDLE) >= c.burst)
    ensures Answers(c, true, Fresh(start), calls) == Answers(c, false, Fresh(start), calls)
  {
    if c.rate > 0.0 {
      MirroredAnswers(c, Fresh(start), Fresh(start), calls);
    } else {
      Unlimited(c, true, Fresh(start), calls);
      Unlimited(c, false, Fresh(start), calls);
    }
  }

  lemma {:induction false} Unlimited(c: Config, evict: bool, s: State, calls: seq<Call>)
    requires c.rate <= 0.0
    ensures forall i :: 0 <= i < |calls| ==> Answers(c, evict, s, calls)[i]
    decreases |calls|
  {
    if calls != [] {
      Unlimited(c, evict, s, calls[1..]);
    }
  }

  /** A key that waits until one token is refilled is let through, evicted or not. */
  lemma WaitingAdmits(c: Config, evict: bool, s: State, call: Call)
    requires c.rate > 0.0 && c.burst >= 1.0 && Sane(c, s, call.now)
    requires call.key in s.buckets ==> Refill(c, call.now - s.buckets[call.key].last) >= 1.0
    ensures Answer(c, evict, s, call)
  {
    hide Refill;
  }

  // Calls of a key that are answered yes.
  function Admitted(calls: seq<Call>, answers: seq<bool>, key: string): (n: nat)
    requires |calls| == |answers|
  {
    if calls == [] then 0
    else (if calls[0].key == key && answers[0] then 1 else 0) + Admitted(calls[1..], answers[1..], key)
  }

  function After(c: Config, evict: bool, s: State, calls: seq<Call>): State
    decreases |calls|
  {
    if calls == [] then s else After(c, evict, Step(c, evict, s, calls[0]), calls[1..])
  }

  // One call spends what it admits, and time refills no faster than the rate.
  lemma OneCall(c: Config, s: State, call: Call, key: string, now: real)
    requires c.rate > 0.0 && c.burst >= 1.0 && now <= call.now && Sane(c, s, now)
    ensures
      var spent := if call.key == key && Answer(c, false, s, call) then 1.0 else 0.0;
      spent + Available(c, Step(c, false, s, call), key, call.now) <= Available(c, s, key, now) + Refill(c,
          call.now - now)
  {
    hide Refill;
    RefillAdds(c, 0.0, 0.0);
    RefillGrows(c, 0.0, call.now - now);
    if key in s.buckets {
      RefillAdds(c, call.now - now, now - s.buckets[key].last);
      RefillGrows(c, 0.0, call.now - s.buckets[key].last);
    }
  }

  lemma TailWithin(calls: seq<Call>, end: real)
    requires calls != [] && Ordered(calls) && forall call :: call in calls ==> call.now <= end
    ensures Ordered(calls[1..]) && forall call :: call in calls[1..] ==> calls[0].now <= call.now <= end
  {
    forall call | call in calls[1..] ensures calls[0].now <= call.now {
      var i :| 0 <= i < |calls[1..]| && calls[1..][i] == call;
      assert calls[i + 1] == call;
    }
  }

  lemma {:induction false} Spend(c: Config, s: State, calls: seq<Call>, key: string, now: real, end: real)
    requires c.rate > 0.0 && c.burst >= 1.0 && Ordered(calls) && Sane(c, s, now)
    requires forall call :: call in calls ==> now <= call.now <= end
    requires now <= end
    ensures Admitted(calls, Answers(c, false, s, calls), key) as real <= Available(c, s, key, now) + Refill(c,
        end - now)
    decreases |calls|
  {
    hide Refill;
    if calls == [] {
      AvailableNotNegative(c, s, key, now);
      RefillAdds(c, 0.0, 0.0);
      RefillGrows(c, 0.0, end - now);
    } else {
      hide Step, Answer, Available, Sane, Ordered;
      var call := calls[0];
      assert call in calls;
      TailWithin(calls, end);
      SaneLater(c, s, now, call.now);
      StepSane(c, false, s, call);
      OneCall(c, s, call, key, now);
      Spend(c, Step(c, false, s, call), calls[1..], key, call.now, end);
      RefillAdds(c, end - call.now, call.now - now);
    }
  }

  lemma SaneLater(c: Config, s: State, now: real, later: real)
    requires Sane(c, s, now) && now <= later
    ensures Sane(c, s, later)
  {
  }

  lemma AvailableNotNegative(c: Config, s: State, key: string, now: real)
    requires c.rate > 0.0 && c.burst >= 1.0 && Sane(c, s, now)
    ensures 0.0 <= Available(c, s, key, now) <= c.burst
  {
    if key in s.buckets {
      hide Refill;
      RefillAdds(c, 0.0, 0.0);
      RefillGrows(c, 0.0, now - s.buckets[key].last);
    }
  }

  // The answers from the i-th call on are those from the state reached there.
  lemma {:induction false} AnswersFrom(c: Config, s: State, calls: seq<Call>, i: nat, now: real)
    requires c.rate > 0.0 && c.burst >= 1.0 && Ordered(calls) && i < |calls| && Sane(c, s, now) && now <= calls[0].now
    ensures Sane(c, After(c, false, s, calls[..i]), calls[i].now)
    ensures Answers(c, false, s, calls)[i..] == Answers(c, false, After(c, false, s, calls[..i]), calls[i..])
    decreases i
  {
    SaneLater(c, s, now, calls[0].now);
    if i > 0 {
      var t := Step(c, false, s, calls[0]);
      StepSane(c, false, s, calls[0]);
      hide Step, Answer, Sane;
      AnswersFrom(c, t, calls[1..], i - 1, calls[0].now);
      assert calls[..i][1..] == calls[1..][..i - 1] && calls[1..][i - 1..] == calls[i..];
    } else {
      assert calls[..0] == [] && calls[0..] == calls;
    }
  }

  lemma {:induction false} AnswersUpTo(c: Config, s: State, calls: seq<Call>, n: nat)
    requires n <= |calls|
    ensures Answers(c, false, s, calls)[..n] == Answers(c, false, s, calls[..n])
    decreases n
  {
    if n > 0 {
      hide Step, Answer;
      AnswersUpTo(c, Step(c, false, s, calls[0]), calls[1..], n - 1);
      assert calls[..n][1..] == calls[1..][..n - 1];
    }
  }

  lemma SliceAnswers(c: Config, calls: seq<Call>, start: real, i: nat, j: nat)
    requires c.rate > 0.0 && c.burst >= 1.0 && Ordered(calls) && i < j <= |calls|
    ensures
      var s := After(c, false, Fresh(start), calls[..i]);
      && Sane(c, s, calls[i].now)
      && Answers(c, false, Fresh(start), calls)[i..j] == Answers(c, false, s, calls[i..j])
  {
    assert Sane(c, Fresh(start), calls[0].now);
    hide Sane, Answers, After, Ordered;
    var all := Answers(c, false, Fresh(start), calls);
    AnswersFrom(c, Fresh(start), calls, i, calls[0].now);
    AnswersUpTo(c, After(c, false, Fresh(start), calls[..i]), calls[i..], j - i);
    assert calls[i..][..j - i] == calls[i..j] && all[i..][..j - i] == all[i..j];
  }

  lemma SliceOrdered(calls: seq<Call>, i: nat, j: nat)
    requires Ordered(calls) && i < j <= |calls|
    ensures Ordered(calls[i..j])
    ensures calls[i].now <= calls[j - 1].now && forall call :: call in calls[i..j] ==>
        calls[i].now <= call.now <= calls[j - 1].now
  {
    forall call | call in calls[i..j] ensures calls[i].now <= call.now <= calls[j - 1].now {
      var k :| 0 <= k < j - i && calls[i..j][k] == call;
      assert call == calls[i + k];
    }
  }

  /** In any run, the calls from the i-th to before the j-th let through no more of
      one key than a burst and what the time they span refills. */
  lemma SpanBound(c: Config, calls: seq<Call>, start: real, i: nat, j: nat, key: string)
    requires c.rate > 0.0 && c.burst >= 1.0 && Refill(c, IDLE) >= c.burst && Ordered(calls) && i < j <= |calls|
    ensures
      Admitted(calls[i..j], Answers(c, true, Fresh(start), calls)[i..j], key) as real
      <= c.burst + (calls[j - 1].now - calls[i].now) * c.rate
  {
    assert Refill(c, calls[j - 1].now - calls[i].now) == (calls[j - 1].now - calls[i].now) * c.rate;
    hide Refill, Sane, Available, Answers, After, Admitted, Ordered;
    var s, now := After(c, false, Fresh(start), calls[..i]), calls[i].now;
    EvictionUnseen(c, calls, start);
    SliceAnswers(c, calls, start, i, j);
    SliceOrdered(calls, i, j);
    Spend(c, s, calls[i..j], key, now, calls[j - 1].now);
    AvailableNotNegative(c, s, key, now);
  }

  lemma {:induction false} AfterSplit(c: Config, evict: bool, s: State, first: seq<Call>, second: seq<Call>)
    ensures After(c, evict, s, first + second) == After(c, evict, After(c, evict, s, first), second)
    decreases |first|
  {
    hide Step;
    if first == [] {
      assert first + second == second;
    } else {
      assert (first + second)[1..] == first[1..] + second;
      AfterSplit(c, evict, Step(c, evict, s, first[0]), first[1..], second);
    }
  }

  // Waiting adds to what a key has.
  lemma AvailableLater(c: Config, s: State, key: string, now: real, later: real)
    requires c.rate > 0.0 && c.burst >= 1.0 && Sane(c, s, now) && now <= later
    ensures Available(c, s, key, later) == Least(c.burst, Available(c, s, key, now) + Refill(c, later - now))
  {
    hide Refill;
    RefillAdds(c, 0.0, 0.0);
    RefillGrows(c, 0.0, later - now);
    if key in s.buckets {
      RefillAdds(c, later - now, now - s.buckets[key].last);
    }
  }

  /** A call that is let through takes one token of its key; a call that is refused
      takes none, and neither takes any of another key. */
  lemma TakesOne(c: Config, s: State, call: Call, key: string)
    requires c.rate > 0.0 && c.burst >= 1.0 && Sane(c, s, call.now)
    ensures
      Available(c, Step(c, false, s, call), key, call.now)
      == Available(c, s, key, call.now) - if call.key == key && Answer(c, false, s, call) then 1.0 else 0.0
  {
    hide Refill;
    RefillAdds(c, 0.0, 0.0);
    if call.key in s.buckets {
      RefillGrows(c, 0.0, call.now - s.buckets[call.key].last);
    }
  }

  lemma {:induction false} Earned(c: Config, s: State, calls: seq<Call>, key: string, now: real, end: real, x: real,
      spent: real)
    requires c.rate > 0.0 && c.burst >= 1.0 && Ordered(calls) && Sane(c, s, now) && now <= end && spent >= 0.0
    requires forall call :: call in calls ==> now <= call.now <= end
    requires Available(c, s, key, now) >= Least(c.burst, x) - spent
    ensures Available(c, After(c, false, s, calls), key, end)
      >= Least(c.burst, x + Refill(c, end - now)) - spent - Admitted(calls, Answers(c, false, s, calls), key) as real
    decreases |calls|
  {
    hide Refill;
    if calls == [] {
      AvailableLater(c, s, key, now, end);
      RefillAdds(c, 0.0, 0.0);
      RefillGrows(c, 0.0, end - now);
    } else {
      hide Step, Answer, Available, Sane, Ordered;
      var call := calls[0];
      assert call in calls;
      TailWithin(calls, end);
      AvailableLater(c, s, key, now, call.now);
      RefillAdds(c, 0.0, 0.0);
      RefillGrows(c, 0.0, call.now - now);
      SaneLater(c, s, now, call.now);
      StepSane(c, false, s, call);
      TakesOne(c, s, call, key);
      RefillAdds(c, end - call.now, call.now - now);
      var took := if call.key == key && Answer(c, false, s, call) then 1.0 else 0.0;
      Earned(c, Step(c, false, s, call), calls[1..], key, call.now, end, x + Refill(c, call.now - now), spent + took);
    }
  }

  lemma AnswerAt(c: Config, calls: seq<Call>, start: real, j: nat)
    requires c.rate > 0.0 && c.burst >= 1.0 && Ordered(calls) && j < |calls|
    ensures Answers(c, false, Fresh(start), calls)[j]
      <==> Available(c, After(c, false, Fresh(start), calls[..j]), calls[j].key, calls[j].now) >= 1.0
  {
    assert Sane(c, Fresh(start), calls[0].now);
    AnswersFrom(c, Fresh(start), calls, j, calls[0].now);
    hide After, Ordered, Sane, Available, Refill;
    var s := After(c, false, Fresh(start), calls[..j]);
    assert Answers(c, false, s, calls[j..])[0] == Answer(c, false, s, calls[j]);
    assert Answers(c, false, Fresh(start), calls)[j] == Answers(c, false, Fresh(start), calls)[j..][0];
  }

  // What a key has at the i-th call; before the first one it has a burst.
  lemma HasAt(c: Config, calls: seq<Call>, start: real, i: nat, j: nat, key: string)
    requires c.rate > 0.0 && c.burst >= 1.0 && Ordered(calls) && i <= j < |calls|
    requires Sane(c, After(c, false, Fresh(start), calls[..i]), calls[i].now)
    ensures calls[i].now <= calls[j].now && Ordered(calls[i..j])
    ensures forall call :: call in calls[i..j] ==> calls[i].now <= call.now <= calls[j].now
    ensures Available(c, After(c, false, Fresh(start), calls[..i]), key, calls[i].now)
      >= Least(c.burst, if i == 0 then c.burst else 0.0)
  {
    if i < j {
      SliceOrdered(calls, i, j);
    }
    assert i == 0 ==> calls[..i] == [];
    hide Ordered, Sane;
    AvailableNotNegative(c, After(c, false, Fresh(start), calls[..i]), key, calls[i].now);
  }

  lemma EarnedUnswept(c: Config, calls: seq<Call>, start: real, i: nat, j: nat)
    requires c.rate > 0.0 && c.burst >= 1.0 && Ordered(calls) && i <= j < |calls|
    requires
      Admitted(calls[i..j], Answers(c, false, Fresh(start), calls)[i..j], calls[j].key) as real + 1.0
      <= Least(c.burst, (if i == 0 then c.burst else 0.0) + Refill(c, calls[j].now - calls[i].now))
    ensures Answers(c, false, Fresh(start), calls)[j]
  {
    hide Refill, Sane, Available, Answers, After, Admitted, Ordered, Fresh, Least;
    var s := After(c, false, Fresh(start), calls[..i]);
    SliceFrom(c, calls, start, i, j);
    HasAt(c, calls, start, i, j, calls[j].key);
    Earned(c, s, calls[i..j], calls[j].key, calls[i].now, calls[j].now, if i == 0 then c.burst else 0.0, 0.0);
    assert calls[..i] + calls[i..j] == calls[..j];
    AfterSplit(c, false, Fresh(start), calls[..i], calls[i..j]);
    AnswerAt(c, calls, start, j);
  }

  /** In any run, a call is let through if, counted from any earlier call, its key has
      been let through less often than a burst and than the time since then refills;
      counted from the first call a burst is there from the start. */
  lemma EarnedAdmits(c: Config, calls: seq<Call>, start: real, i: nat, j: nat)
    requires c.rate > 0.0 && c.burst >= 1.0 && Refill(c, IDLE) >= c.burst && Ordered(calls) && i <= j < |calls|
    requires
      Admitted(calls[i..j], Answers(c, true, Fresh(start), calls)[i..j], calls[j].key) as real + 1.0
      <= Least(c.burst, (if i == 0 then c.burst else 0.0) + Refill(c, calls[j].now - calls[i].now))
    ensures Answers(c, true, Fresh(start), calls)[j]
  {
    hide *;
    EvictionUnseen(c, calls, start);
    EarnedUnswept(c, calls, start, i, j);
  }

  lemma SliceFrom(c: Config, calls: seq<Call>, start: real, i: nat, j: nat)
    requires c.rate > 0.0 && c.burst >= 1.0 && Ordered(calls) && i <= j < |calls|
    ensures
      var s := After(c, false, Fresh(start), calls[..i]);
      && Sane(c, s, calls[i].now)
      && Answers(c, false, Fresh(start), calls)[i..j] == Answers(c, false, s, calls[i..j])
  {
    if i < j {
      SliceAnswers(c, calls, start, i, j);
    } else {
      SliceAnswers(c, calls, start, i, i + 1);
    }
  }

  // ----- when sweeping is seen -----

  lemma {:induction false} AnswersSplit(c: Config, evict: bool, s: State, first: seq<Call>, second: seq<Call>)
    ensures Answers(c, evict, s, first + second)
         == Answers(c, evict, s, first) + Answers(c, evict, After(c, evict, s, first), second)
    decreases |first|
  {
    hide Answer, Step;
    if first == [] {
      assert first + second == second;
    } else {
      assert (first + second)[1..] == first[1..] + second;
      AnswersSplit(c, evict, Step(c, evict, s, first[0]), first[1..], second);
    }
  }

  function Repeat(key: string, now: real, n: nat): seq<Call> {
    if n == 0 then [] else [Call(key, now)] + Repeat(key, now, n - 1)
  }

  lemma {:induction false} RepeatAll(key: string, now: real, n: nat)
    ensures |Repeat(key, now, n)| == n && forall call :: call in Repeat(key, now, n) ==> call == Call(key, now)
  {
    if n > 0 {
      RepeatAll(key, now, n - 1);
    }
  }

  // n calls at once spend n of k whole tokens, with no sweep in sight.
  lemma {:induction false} RepeatSpends(c: Config, evict: bool, s: State, key: string, now: real, k: nat, n: nat)
    requires c.rate > 0.0 && now - s.lastScan < SCAN_INTERVAL && n <= k && k as real <= c.burst
    requires Available(c, s, key, now) == k as real
    ensures forall i :: 0 <= i < n ==> |Repeat(key, now, n)| == n && Answers(c, evict, s, Repeat(key, now, n))[i]
    ensures After(c, evict, s, Repeat(key, now, n))
         == if n == 0 then s else s.(buckets := s.buckets[key := Bucket((k - n) as real, now)])
    decreases n
  {
    hide Refill;
    RepeatAll(key, now, n);
    if n > 0 {
      var call := Call(key, now);
      var t := Step(c, evict, s, call);
      assert Answer(c, evict, s, call);
      assert t == s.(buckets := s.buckets[key := Bucket((k - 1) as real, now)]);
      RefillAdds(c, 0.0, 0.0);
      RepeatAll(key, now, n - 1);
      RepeatSpends(c, evict, t, key, now, k - 1, n - 1);
      assert Repeat(key, now, n)[1..] == Repeat(key, now, n - 1);
      assert t.buckets[key := Bucket((k - n) as real, now)] == s.buckets[key := Bucket((k - n) as real, now)];
    }
  }

  function Name(i: nat): string {
    seq(i + 1, _ => 'b')
  }

  // One call for each of m keys that nobody has used.
  function Strangers(i: nat, m: nat): seq<Call>
    decreases m
  {
    if m == 0 then [] else [Call(Name(i), 0.0)] + Strangers(i + 1, m - 1)
  }

  lemma {:induction false} StrangersNow(i: nat, m: nat)
    ensures forall call :: call in Strangers(i, m) ==> call.now == 0.0
    decreases m
  {
    if m > 0 {
      StrangersNow(i + 1, m - 1);
    }
  }

  ghost predicate NoStranger(s: State, i: nat) {
    forall j: nat :: j >= i ==> Name(j) !in s.buckets
  }

  // m buckets more, and the others untouched.
  ghost predicate Filled(s: State, t: State, m: nat) {
    && s.lastScan == 0.0 && t.lastScan == 0.0 && |t.buckets| == |s.buckets| + m
    && forall key :: key in s.buckets ==> key in t.buckets && t.buckets[key] == s.buckets[key]
  }

  lemma StrangerStep(c: Config, evict: bool, s: State, i: nat)
    requires c.rate > 0.0 && s.lastScan == 0.0 && NoStranger(s, i)
    ensures
      var t := Step(c, evict, s, Call(Name(i), 0.0));
      t == Step(c, false, s, Call(Name(i), 0.0)) && Filled(s, t, 1) && NoStranger(t, i + 1)
  {
    var t := Step(c, evict, s, Call(Name(i), 0.0));
    assert t.buckets.Keys == s.buckets.Keys + {Name(i)};
    assert |t.buckets| == |t.buckets.Keys| && |s.buckets| == |s.buckets.Keys|;
    forall j: nat | j >= i + 1 ensures Name(j) !in t.buckets {
      assert |Name(j)| == j + 1 && |Name(i)| == i + 1;
    }
  }

  lemma {:induction false} StrangersFill(c: Config, evict: bool, s: State, i: nat, m: nat)
    requires c.rate > 0.0 && s.lastScan == 0.0 && NoStranger(s, i)
    ensures
      var t := After(c, evict, s, Strangers(i, m));
      t == After(c, false, s, Strangers(i, m)) && Filled(s, t, m)
    decreases m
  {
    hide Step, NoStranger, Name;
    if m > 0 {
      var t := Step(c, evict, s, Call(Name(i), 0.0));
      StrangerStep(c, evict, s, i);
      StrangersFill(c, evict, t, i + 1, m - 1);
      assert Strangers(i, m)[0] == Call(Name(i), 0.0) && Strangers(i, m)[1..] == Strangers(i + 1, m - 1);
      hide After, Strangers;
      FilledMore(s, t, After(c, evict, t, Strangers(i + 1, m - 1)), m - 1);
    }
  }

  lemma FilledMore(s: State, t: State, u: State, m: nat)
    requires Filled(s, t, 1) && Filled(t, u, m)
    ensures Filled(s, u, m + 1)
  {
  }

  // A moment after IDLE at which the bucket is still not full.
  lemma StillFilling(c: Config) returns (t: real)
    requires c.rate > 0.0 && Refill(c, IDLE) < c.burst
    ensures t > IDLE && Refill(c, t) < c.burst
  {
    var rest := c.burst - Refill(c, IDLE);
    var d := rest / (2.0 * c.rate);
    assert d > 0.0;
    assert d * c.rate == rest / 2.0;
    t := IDLE + d;
    RefillAdds(c, IDLE, d);
  }

  lemma {:induction false} AllAdmitted(calls: seq<Call>, answers: seq<bool>, key: string)
    requires |calls| == |answers| && (forall i :: 0 <= i < |calls| ==> calls[i].key == key && answers[i])
    ensures Admitted(calls, answers, key) == |calls|
    decreases |calls|
  {
    if calls != [] {
      AllAdmitted(calls[1..], answers[1..], key);
    }
  }

  // Spent, then idle among enough strangers: swept, "a" has its burst again at t.
  function Prelude(n: nat): seq<Call> {
    Repeat("a", 0.0, n) + Strangers(0, SCAN_SIZE - 1)
  }

  lemma PreludeState(c: Config, evict: bool, n: nat)
    requires c.rate > 0.0 && n >= 1 && c.burst == n as real
    ensures
      var s := After(c, evict, Fresh(0.0), Prelude(n));
      && s == After(c, false, Fresh(0.0), Prelude(n)) && s.lastScan == 0.0 && |s.buckets| == SCAN_SIZE
      && "a" in s.buckets && s.buckets["a"] == Bucket(0.0, 0.0)
  {
    var spent := State(map["a" := Bucket(0.0, 0.0)], 0.0);
    RepeatSpends(c, evict, Fresh(0.0), "a", 0.0, n, n);
    RepeatSpends(c, false, Fresh(0.0), "a", 0.0, n, n);
    forall j: nat ensures Name(j) !in spent.buckets {
      assert Name(j)[0] == 'b';
    }
    hide Step;
    assert After(c, evict, Fresh(0.0), Repeat("a", 0.0, n)) == spent;
    StrangersFill(c, evict, spent, 0, SCAN_SIZE - 1);
    AfterSplit(c, evict, Fresh(0.0), Repeat("a", 0.0, n), Strangers(0, SCAN_SIZE - 1));
    AfterSplit(c, false, Fresh(0.0), Repeat("a", 0.0, n), Strangers(0, SCAN_SIZE - 1));
  }

  lemma SweptAdmits(c: Config, s: State, t: real, n: nat)
    requires c.rate > 0.0 && n >= 1 && c.burst == n as real && t > IDLE
    requires s.lastScan == 0.0 && |s.buckets| == SCAN_SIZE && "a" in s.buckets && s.buckets["a"] == Bucket(0.0, 0.0)
    ensures |Repeat("a", t, n)| == n && forall i :: 0 <= i < n ==> Answers(c, true, s, Repeat("a", t, n))[i]
  {
    var swept := Sweep(s, t);
    assert "a" !in swept.buckets && Sweep(swept, t) == swept;
    RepeatAll("a", t, n);
    RepeatSpends(c, true, swept, "a", t, n, n);
    var call := Call("a", t);
    assert Repeat("a", t, n)[0] == call;
    assert Answer(c, true, s, call) == Answer(c, true, swept, call)
        && Step(c, true, s, call) == Step(c, true, swept, call);
    assert Answers(c, true, s, Repeat("a", t, n)) == Answers(c, true, swept, Repeat("a", t, n)) by {
      hide Answer, Step;
    }
  }

  lemma UnsweptRefuses(c: Config, s: State, t: real, n: nat)
    requires c.rate > 0.0 && n >= 1 && c.burst == n as real && t > IDLE && Refill(c, t) < c.burst
    requires Sane(c, s, 0.0) && "a" in s.buckets && s.buckets["a"] == Bucket(0.0, 0.0)
    ensures |Repeat("a", t, n)| == n && exists i :: 0 <= i < n && !Answers(c, false, s, Repeat("a", t, n))[i]
  {
    var calls := Repeat("a", t, n);
    RepeatAll("a", t, n);
    var answers := Answers(c, false, s, calls);
    if forall i :: 0 <= i < n ==> answers[i] {
      assert forall i :: 0 <= i < n ==> calls[i] in calls;
      SaneLater(c, s, 0.0, t);
      Spend(c, s, calls, "a", t, t);
      AllAdmitted(calls, answers, "a");
      RefillAdds(c, 0.0, 0.0);
      assert false;
    }
  }

  lemma {:induction false} AfterSane(c: Config, s: State, calls: seq<Call>, now: real)
    requires c.rate > 0.0 && c.burst >= 1.0 && Sane(c, s, now) && forall call :: call in calls ==> call.now == now
    ensures Sane(c, After(c, false, s, calls), now)
    decreases |calls|
  {
    hide Step, Sane;
    if calls != [] {
      assert calls[0] in calls;
      StepSane(c, false, s, calls[0]);
      AfterSane(c, Step(c, false, s, calls[0]), calls[1..], now);
    }
  }

  lemma PreludeNow(n: nat)
    ensures forall call :: call in Prelude(n) ==> call.now == 0.0
  {
    RepeatAll("a", 0.0, n);
    StrangersNow(0, SCAN_SIZE - 1);
  }

  lemma EvictionSeen(c: Config, n: nat) returns (calls: seq<Call>)
    requires c.rate > 0.0 && n >= 1 && c.burst == n as real && Refill(c, IDLE) < c.burst
    ensures Ordered(calls) && Answers(c, true, Fresh(0.0), calls) != Answers(c, false, Fresh(0.0), calls)
  {
    var t := StillFilling(c);
    hide Refill, Prelude;
    var first, second := Prelude(n), Repeat("a", t, n);
    var s := After(c, false, Fresh(0.0), first);
    PreludeState(c, true, n);
    PreludeNow(n);
    assert Sane(c, Fresh(0.0), 0.0);
    hide Answers, After, Sane;
    AfterSane(c, Fresh(0.0), first, 0.0);
    SweptAdmits(c, s, t, n);
    UnsweptRefuses(c, s, t, n);
    RepeatAll("a", t, n);
    AnswersSplit(c, true, Fresh(0.0), first, second);
    AnswersSplit(c, false, Fresh(0.0), first, second);
    calls := first + second;
    forall i, j | 0 <= i < j < |calls| ensures calls[i].now <= calls[j].now {
      assert i < |first| ==> calls[i] in first;
      assert j < |first| ==> calls[j] in first;
      assert i >= |first| ==> calls[i] in second;
      assert j >= |first| ==> calls[j] in second;
    }
    var k :| 0 <= k < n && !Answers(c, false, s, second)[k];
    assert Answers(c, false, Fresh(0.0), calls)[|first| + k] == Answers(c, false, s, second)[k];
    assert Answers(c, true, Fresh(0.0), calls)[|first| + k] == Answers(c, true, s, second)[k];
  }

  // No ordered sequence of calls tells a limiter that sweeps from one that never does.
  ghost predicate Unseen(c: Config) {
    forall calls, start :: Ordered(calls) ==>
        Answers(c, true, Fresh(start), calls) == Answers(c, false, Fresh(start), calls)
  }

  /** Sweeping is unseen exactly when 600 seconds refill a whole burst. */
  lemma EvictionUnseenExactly(c: Config, n: nat)
    requires c.rate > 0.0 && n >= 1 && c.burst == n as real
    ensures Unseen(c) <==> 600.0 * c.rate >= c.burst
  {
    if Refill(c, IDLE) >= c.burst {
      forall calls, start | Ordered(calls)
        ensures Answers(c, true, Fresh(start), calls) == Answers(c, false, Fresh(start), calls)
      {
        EvictionUnseen(c, calls, start);
      }
    } else {
      var calls := EvictionSeen(c, n);
      assert !Unseen(c);
    }
  }
}

/** The limiter object. */
module RateLimit {
  import opened Common
  import opened TokenBucket

  class Limiter {
    const config: Config
    var buckets: map<string, Bucket>
    var lastScan: real

    constructor (rate: real, burst: int, now: real)
      ensures config == Config(rate, if burst <= 0 then 1.0 else burst as real)
      ensures Now() == Fresh(now)
    {
      config := Config(rate, if burst <= 0 then 1.0 else burst as real);
      buckets, lastScan := map[], now;
    }

    function Now(): State
      reads this
    {
      State(buckets, lastScan)
    }

    method Allow(key: string, now: real) returns (r: bool)
      modifies this
      ensures r == Answer(config, true, old(Now()), Call(key, now))
      ensures Now() == Step(config, true, old(Now()), Call(key, now))
    {
      if config.rate <= 0.0 {
        return true;
      }
      hide Refill;
      RefillAdds(config, 0.0, 0.0);
      SweepIdle(now);
      ghost var swept := buckets;
      if key !in buckets {
        buckets := buckets[key := Bucket(config.burst, now)];
      }
      var b := buckets[key];
      b := b.(tokens := Least(config.burst, b.tokens + Refill(config, now - b.last)), last := now);
      r := b.tokens >= 1.0;
      if r {
        b := b.(tokens := b.tokens - 1.0);
      }
      buckets := buckets[key := b];
      assert buckets == swept[key := b];
    }

    method SweepIdle(now: real)
      modifies this
      ensures Now() == Sweep(old(Now()), now)
    {
      if now - lastScan < SCAN_INTERVAL || |buckets| < SCAN_SIZE {
        return;
      }
      lastScan := now;
      var todo := buckets.Keys;
      while todo != {}
        invariant lastScan == now && todo <= old(buckets).Keys
        invariant forall k :: k in buckets <==> k in old(buckets) && (k in todo || !(now - old(buckets)[k].last > IDLE))
        invariant forall k :: k in buckets ==> buckets[k] == old(buckets)[k]
        decreases todo
      {
        var key :| key in todo;
        todo := todo - {key};
        if now - buckets[key].last > IDLE {
          buckets := buckets - {key};
        }
      }
      assert buckets == Kept(old(buckets), now);
    }
  }
}

/** The brute-force limiter of the login endpoint, with its occasional garbage collection. */
module LoginLimiter {

  /** Nanoseconds since Go's zero time, which is what unset time fields hold. */
  type Time = int

  datatype Rec = Rec(count: nat, windowStart: Time, lockedUntil: Time)

  datatype State = State(recs: map<string, Rec>, max: int, window: int, lastGc: Time)

  datatype Answer = Permit(ok: bool, remaining: int) | Recorded(justLocked: bool) | Cleared

  // ---- specification ------------------------------------------------------------------

  /** The record has no further effect at this or any later time. */
  predicate Stale(r: Rec, window: int, now: Time) {
    now > r.lockedUntil && now - r.windowStart > window
  }

  function Collected(s: State, now: Time): State {
    if now - s.lastGc < s.window then s
    else s.(lastGc := now, recs := map k | k in s.recs && !Stale(s.recs[k], s.window, now) :: s.recs[k])
  }

  function Verdict(s: State, key: string, now: Time): Answer {
    if key in s.recs && now < s.recs[key].lockedUntil
    then Permit(false, s.recs[key].lockedUntil - now)
    else Permit(true, 0)
  }

  function FailedRec(s: State, key: string, now: Time): Rec {
    var r := if key in s.recs && now - s.recs[key].windowStart <= s.window then s.recs[key] else Rec(0, now, 0);
    Rec(r.count + 1, r.windowStart, if r.count + 1 >= s.max then now + s.window else r.lockedUntil)
  }

  function Failed(s: State, key: string, now: Time): State {
    s.(recs := s.recs[key := FailedRec(s, key, now)])
  }

  function Succeeded(s: State, key: string): State {
    s.(recs := s.recs - {key})
  }

  // ---- the limiter --------------------------------------------------------------------

  class Limiter {
    var recs: map<string, Rec>
    const max: int
    const window: int
    var lastGc: Time

    ghost function Now(): State
      reads this
    {
      State(recs, max, window, lastGc)
    }

    constructor (max: int, window: int)
      ensures Now() == State(map[], max, window, 0)
    {
      this.max, this.window, recs, lastGc := max, window, map[], 0;
    }

    method Gc(now: Time)
      modifies this
      ensures Now() == Collected(old(Now()), now)
    {
      if now - lastGc < window {
        return;
      }
      lastGc := now;
      var todo := recs.Keys;
      while todo != {}
        invariant todo <= recs.Keys <= old(recs).Keys
        invariant forall k | k in recs :: recs[k] == old(recs)[k]
        invariant forall k | k in old(recs) && k !in todo :: k in recs <==> !Stale(old(recs)[k], window, now)
        invariant lastGc == now
        decreases todo
      {
        var k :| k in todo;
        todo := todo - {k};
        if now > recs[k].lockedUntil && now - recs[k].windowStart > window {
          recs := recs - {k};
        }
      }
    }

    method Allowed(key: string, now: Time) returns (answer: Answer)
      modifies this
      ensures Now() == Collected(old(Now()), now) && answer == Verdict(Now(), key, now)
    {
      Gc(now);
      if key !in recs {
        return Permit(true, 0);
      }
      if now < recs[key].lockedUntil {
        return Permit(false, recs[key].lockedUntil - now);
      }
      return Permit(true, 0);
    }

    method RecordFailure(key: string, now: Time) returns (answer: Answer)
      modifies this
      ensures Now() == Failed(old(Now()), key, now)
      ensures answer == Recorded(Now().recs[key].count == max)
    {
      var r := Rec(0, now, 0);
      if key in recs && now - recs[key].windowStart <= window {
        r := recs[key];
      }
      r := r.(count := r.count + 1);
      if r.count >= max {
        r := r.(lockedUntil := now + window);
      }
      recs := recs[key := r];
      return Recorded(r.count == max);
    }

    method RecordSuccess(key: string) returns (answer: Answer)
      modifies this
      ensures Now() == Succeeded(old(Now()), key) && answer == Cleared
    {
      recs := recs - {key};
      return Cleared;
    }
  }

  // ---- call sequences -----------------------------------------------------------------

  datatype Call = Allow(key: string, now: Time) | Fail(key: string, now: Time) | Succeed(key: string)

  /** One call on the limiter, with or without garbage collection. */
  function Step(s: State, call: Call, collect: bool): (State, Answer) {
    match call
    case Allow(key, now) =>
      var t := if collect then Collected(s, now) else s;
      (t, Verdict(t, key, now))
    case Fail(key, now) =>
      var t := Failed(s, key, now);
      (t, Recorded(t.recs[key].count == s.max))
    case Succeed(key) => (Succeeded(s, key), Cleared)
  }

  function Run(s: State, calls: seq<Call>, collect: bool): State
    decreases |calls|
  {
    if calls == [] then s
    else Step(Run(s, calls[..|calls| - 1], collect), calls[|calls| - 1], collect).0
  }

  function Answers(s: State, calls: seq<Call>, collect: bool): (r: seq<Answer>)
    ensures |r| == |calls|
    decreases |calls|
  {
    if calls == [] then []
    else
      var front := calls[..|calls| - 1];
      Answers(s, front, collect) + [Step(Run(s, front, collect), calls[|calls| - 1], collect).1]
  }

  /** The latest clock reading among the calls. */
  function Clock(calls: seq<Call>): Time
    decreases |calls|
  {
    if calls == [] then 0
    else
      var last := calls[|calls| - 1];
      if last.Succeed? then Clock(calls[..|calls| - 1]) else last.now
  }

  ghost predicate ClockMonotone(calls: seq<Call>)
    decreases |calls|
  {
    calls != [] ==>
      var front, last := calls[..|calls| - 1], calls[|calls| - 1];
      ClockMonotone(front) && (!last.Succeed? ==> last.now >= Clock(front))
  }

  // ---- garbage collection is unobservable ---------------------------------------------

  /** s is t without some records that are stale at the given time. */
  ghost predicate Trimmed(s: State, t: State, now: Time) {
    && s.max == t.max && s.window == t.window
    && (forall k | k in s.recs :: k in t.recs && s.recs[k] == t.recs[k])
    && forall k | k in t.recs && k !in s.recs :: Stale(t.recs[k], t.window, now)
  }

  lemma StepKeepsTrimmed(s: State, t: State, call: Call, now: Time)
    requires Trimmed(s, t, now) && (!call.Succeed? ==> call.now >= now)
    ensures Trimmed(Step(s, call, true).0, Step(t, call, false).0, if call.Succeed? then now else call.now)
    ensures Step(s, call, true).1 == Step(t, call, false).1
  {
  }

  lemma {:induction false} RunsStayTrimmed(s: State, calls: seq<Call>)
    requires ClockMonotone(calls)
    ensures Trimmed(Run(s, calls, true), Run(s, calls, false), Clock(calls))
    ensures Answers(s, calls, true) == Answers(s, calls, false)
    decreases |calls|
  {
    if calls != [] {
      var front, last := calls[..|calls| - 1], calls[|calls| - 1];
      RunsStayTrimmed(s, front);
      StepKeepsTrimmed(Run(s, front, true), Run(s, front, false), last, Clock(front));
    }
  }

  // ---- how many failures get through --------------------------------------------------

  /** There was a permission for key since its last failure. */
  predicate Armed(key: string, calls: seq<Call>, answers: seq<Answer>)
    requires |answers| == |calls|
    decreases |calls|
  {
    if calls == [] then false
    else
      var n := |calls| - 1;
      if calls[n] == Allow(key, Clock(calls)) && answers[n].Permit? && answers[n].ok then true
      else if calls[n].Fail? && calls[n].key == key then false
      else Armed(key, calls[..n], answers[..n])
  }

  /** The client of key asks before every attempt and never logs in successfully. */
  ghost predicate Guesses(key: string, calls: seq<Call>, answers: seq<Answer>)
    requires |answers| == |calls|
    decreases |calls|
  {
    calls != [] ==>
      var n := |calls| - 1;
      && Guesses(key, calls[..n], answers[..n])
      && calls[n] != Succeed(key)
      && (calls[n].Fail? && calls[n].key == key ==> Armed(key, calls[..n], answers[..n]))
  }

  function Failures(key: string, calls: seq<Call>): nat
    decreases |calls|
  {
    if calls == [] then 0
    else
      var last := calls[|calls| - 1];
      Failures(key, calls[..|calls| - 1]) + if last.Fail? && last.key == key then 1 else 0
  }

  /** The time of the first failure for key. */
  function FirstFailure(key: string, calls: seq<Call>): Time
    requires Failures(key, calls) > 0
    decreases |calls|
  {
    var front, last := calls[..|calls| - 1], calls[|calls| - 1];
    if Failures(key, front) > 0 then FirstFailure(key, front) else last.now
  }

  /** The record of a guessing client after q full windows: at most max + 1 failures a window,
      and each further one only after the lock of the previous one has run out. */
  ghost predicate Paced(r: Rec, max: int, window: int, first: Time, failures: nat, q: nat) {
    && 1 <= r.count <= max + 1
    && r.windowStart >= first + q * window
    && failures <= q * (max + 1) + r.count
    && (r.count == max ==> r.lockedUntil >= r.windowStart + window)
    && (r.count == max + 1 ==> r.lockedUntil >= r.windowStart + 2 * window)
  }

  lemma FailurePaced(s: State, key: string, now: Time, first: Time, failures: nat, q: nat) returns (p: nat)
    requires s.max >= 1 && s.window > 0
    requires key in s.recs && Paced(s.recs[key], s.max, s.window, first, failures, q)
    requires now >= s.recs[key].lockedUntil && now >= s.recs[key].windowStart
    ensures Paced(FailedRec(s, key, now), s.max, s.window, first, failures + 1, p)
  {
    var r := s.recs[key];
    if now - r.windowStart > s.window {
      p := q + 1;
      assert p * s.window == q * s.window + s.window;
      assert p * (s.max + 1) == q * (s.max + 1) + (s.max + 1);
    } else {
      p := q;
    }
  }

  lemma {:induction false} GuessingPaced(max: int, window: int, key: string, calls: seq<Call>) returns (q: nat)
    requires max >= 1 && window > 0 && ClockMonotone(calls)
    requires Guesses(key, calls, Answers(State(map[], max, window, 0), calls, false))
    ensures var s := Run(State(map[], max, window, 0), calls, false);
            var answers := Answers(State(map[], max, window, 0), calls, false);
            && s.max == max && s.window == window
            && (key in s.recs <==> Failures(key, calls) > 0)
            && (key in s.recs ==>
                  && Paced(s.recs[key], max, window, FirstFailure(key, calls), Failures(key, calls), q)
                  && s.recs[key].windowStart <= Clock(calls)
                  && (Armed(key, calls, answers) ==> s.recs[key].lockedUntil <= Clock(calls)))
    decreases |calls|
  {
    q := 0;
    if calls != [] {
      var start := State(map[], max, window, 0);
      var front, last := calls[..|calls| - 1], calls[|calls| - 1];
      assert Answers(start, calls, false)[..|front|] == Answers(start, front, false);
      q := GuessingPaced(max, window, key, front);
      var s := Run(start, front, false);
      if last.Fail? && last.key == key {
        if key in s.recs {
          q := FailurePaced(s, key, last.now, FirstFailure(key, front), Failures(key, front), q);
        } else {
          q := 0;
        }
      }
    }
  }

  lemma ScaledBound(a: nat, x: int, y: int)
    requires x <= y
    ensures a * x <= a * y
  {
  }

  lemma QuotientAndRest(elapsed: int, window: int)
    requires window > 0
    ensures window * (elapsed / window) + elapsed % window == elapsed
    ensures 0 <= elapsed % window < window
  {
  }

  lemma WindowsElapsed(q: nat, window: int, elapsed: int)
    requires window > 0 && q * window <= elapsed
    ensures q <= elapsed / window
  {
    var d := elapsed / window;
    QuotientAndRest(elapsed, window);
    assert window * (d + 1) == window * d + window;
    if q > d {
      ScaledBound(window, d + 1, q);
      assert false;
    }
  }

  /** The failures a guessing client can be granted in a stretch of time. */
  function Allowance(max: int, window: int, elapsed: int): int
    requires window > 0
  {
    (max + 1) * (elapsed / window + 1)
  }

  lemma PacedBound(r: Rec, max: int, window: int, first: Time, failures: nat, q: nat, elapsed: int)
    requires max >= 1 && window > 0 && Paced(r, max, window, first, failures, q)
    requires r.windowStart <= first + elapsed
    ensures 0 <= elapsed && failures <= Allowance(max, window, elapsed)
  {
    assert q * window >= 0;
    WindowsElapsed(q, window, elapsed);
    ScaledBound(max + 1, q + 1, elapsed / window + 1);
    assert (max + 1) * (q + 1) == q * (max + 1) + (max + 1);
  }

  /** Against the real limiter, a client that asks before every attempt gets at most
      (max + 1) * (T / window + 1) failures in within time T of its first one. */
  lemma FailuresBounded(max: int, window: int, key: string, calls: seq<Call>)
    requires max >= 1 && window > 0 && ClockMonotone(calls)
    requires Guesses(key, calls, Answers(State(map[], max, window, 0), calls, true))
    requires Failures(key, calls) > 0
    ensures var elapsed := Clock(calls) - FirstFailure(key, calls);
            0 <= elapsed && Failures(key, calls) <= Allowance(max, window, elapsed)
  {
    var start := State(map[], max, window, 0);
    RunsStayTrimmed(start, calls);
    var q := GuessingPaced(max, window, key, calls);
    hide Paced, Guesses, Armed, Allowance;
    var r := Run(start, calls, false).recs[key];
    var elapsed := Clock(calls) - FirstFailure(key, calls);
    PacedBound(r, max, window, FirstFailure(key, calls), Failures(key, calls), q, elapsed);
  }

  // ---- when the limiter locks ---------------------------------------------------------

  /** The time of the last failure for key. */
  function LastFailure(key: string, calls: seq<Call>): Time
    requires Failures(key, calls) > 0
    decreases |calls|
  {
    var front, last := calls[..|calls| - 1], calls[|calls| - 1];
    if last.Fail? && last.key == key then last.now else LastFailure(key, front)
  }

  /** The failures for key all fall into one window that starts with the first of them, with no
      success between, and what the limiter knew of key before is no part of it. */
  predicate OneBurst(s: State, key: string, calls: seq<Call>) {
    && Succeed(key) !in calls && Failures(key, calls) > 0
    && LastFailure(key, calls) - FirstFailure(key, calls) <= s.window
    && (key in s.recs ==> FirstFailure(key, calls) - s.recs[key].windowStart > s.window)
  }

  lemma {:induction false} NoFailures(s: State, key: string, calls: seq<Call>)
    requires Succeed(key) !in calls && Failures(key, calls) == 0
    ensures var t := Run(s, calls, false);
            && t.max == s.max && t.window == s.window
            && (key in t.recs <==> key in s.recs) && (key in s.recs ==> t.recs[key] == s.recs[key])
    decreases |calls|
  {
    if calls != [] {
      var front, last := calls[..|calls| - 1], calls[|calls| - 1];
      assert calls == front + [last];
      NoFailures(s, key, front);
    }
  }

  lemma {:induction false} BurstInOrder(key: string, calls: seq<Call>)
    requires ClockMonotone(calls) && Failures(key, calls) > 0
    ensures FirstFailure(key, calls) <= LastFailure(key, calls) <= Clock(calls)
    decreases |calls|
  {
    var front, last := calls[..|calls| - 1], calls[|calls| - 1];
    if Failures(key, front) > 0 {
      BurstInOrder(key, front);
    }
  }

  /** The record of a burst: how many failures, since when, and whether it locks. */
  lemma {:induction false} BurstRecorded(s: State, key: string, calls: seq<Call>)
    requires ClockMonotone(calls) && OneBurst(s, key, calls)
    ensures var t, n := Run(s, calls, false), Failures(key, calls);
            && t.max == s.max && t.window == s.window && key in t.recs
            && t.recs[key] == Rec(n, FirstFailure(key, calls),
                                  if n >= s.max then LastFailure(key, calls) + s.window else 0)
    decreases |calls|
  {
    var front, last := calls[..|calls| - 1], calls[|calls| - 1];
    assert calls == front + [last];
    if Failures(key, front) == 0 {
      NoFailures(s, key, front);
    } else {
      BurstInOrder(key, front);
      BurstRecorded(s, key, front);
    }
  }

  /** The limiter locks exactly from the max-th failure of a burst on, whatever other keys do, and
      until a window after the last one; before that it permits, and says when it locks. */
  lemma LocksExactly(s: State, key: string, calls: seq<Call>, now: Time)
    requires ClockMonotone(calls + [Allow(key, now)]) && OneBurst(s, key, calls)
    ensures var answers, until := Answers(s, calls + [Allow(key, now)], true), LastFailure(key, calls) + s.window;
            answers[|calls|] == if Failures(key, calls) >= s.max && now < until then Permit(false, until - now)
                                else Permit(true, 0)
    ensures calls[|calls| - 1].Fail? && calls[|calls| - 1].key == key ==>
              Answers(s, calls, true)[|calls| - 1] == Recorded(Failures(key, calls) == s.max)
  {
    var all := calls + [Allow(key, now)];
    assert all[..|all| - 1] == calls;
    ClockNotNegative(calls);
    RunsStayTrimmed(s, calls);
    RunsStayTrimmed(s, all);
    BurstRecorded(s, key, calls);
    hide OneBurst, ClockMonotone, Trimmed;
    var t := Run(s, calls, false);
    assert Answers(s, all, true)[|calls|] == Verdict(t, key, now);
  }

  /** A successful login wipes the slate: whatever happened before it, failures after it lock as if
      they were the first. */
  lemma SuccessForgives(s: State, key: string, before: seq<Call>, calls: seq<Call>, now: Time)
    requires ClockMonotone(calls + [Allow(key, now)]) && Succeed(key) !in calls && Failures(key, calls) > 0
    requires LastFailure(key, calls) - FirstFailure(key, calls) <= s.window
    ensures var t := Run(s, before + [Succeed(key)], true);
            Answers(t, calls + [Allow(key, now)], true)[|calls|]
            == if Failures(key, calls) >= s.max && now < LastFailure(key, calls) + s.window
               then Permit(false, LastFailure(key, calls) + s.window - now) else Permit(true, 0)
  {
    AfterSuccess(s, key, before);
    hide Run, Answers, ClockMonotone, Failures, FirstFailure, LastFailure;
    var t := Run(s, before + [Succeed(key)], true);
    assert OneBurst(t, key, calls);
    hide OneBurst;
    LocksExactly(t, key, calls, now);
  }

  lemma AfterSuccess(s: State, key: string, before: seq<Call>)
    ensures var t := Run(s, before + [Succeed(key)], true);
            key !in t.recs && t.max == s.max && t.window == s.window
  {
    assert (before + [Succeed(key)])[..|before|] == before;
    SettingsStay(s, before, true);
  }

  lemma {:induction false} SettingsStay(s: State, calls: seq<Call>, collect: bool)
    ensures Run(s, calls, collect).max == s.max && Run(s, calls, collect).window == s.window
    decreases |calls|
  {
    if calls != [] {
      SettingsStay(s, calls[..|calls| - 1], collect);
    }
  }

  lemma {:induction false} ClockNotNegative(calls: seq<Call>)
    requires ClockMonotone(calls)
    ensures Clock(calls) >= 0
    decreases |calls|
  {
    if calls != [] {
      ClockNotNegative(calls[..|calls| - 1]);
    }
  }

  /** The record was still of use when the garbage was last collected. */
  predicate OfUse(s: State, r: Rec) {
    r.lockedUntil >= s.lastGc || r.windowStart + s.window >= s.lastGc
  }

  lemma StepKeepsUse(s: State, call: Call, now: Time)
    requires s.window > 0 && (forall k | k in s.recs :: OfUse(s, s.recs[k]))
    requires s.lastGc <= now && (!call.Succeed? ==> call.now >= now)
    ensures var t := Step(s, call, true).0;
            && t.window == s.window && (forall k | k in t.recs :: OfUse(t, t.recs[k]))
            && t.lastGc <= (if call.Succeed? then now else call.now)
            && (call.Allow? ==> t.lastGc > call.now - s.window)
  {
  }

  /** Nothing lingers: with a clock that never goes back, each record the limiter holds was of use at
      the last collection, which after a question is less than a window ago. */
  lemma {:induction false} NothingLingers(max: int, window: int, calls: seq<Call>)
    requires window > 0 && ClockMonotone(calls)
    ensures var s := Run(State(map[], max, window, 0), calls, true);
            && s.window == window && (forall k | k in s.recs :: OfUse(s, s.recs[k]))
            && s.lastGc <= Clock(calls)
            && (calls != [] && calls[|calls| - 1].Allow? ==> s.lastGc > Clock(calls) - window)
    decreases |calls|
  {
    if calls != [] {
      var front, last := calls[..|calls| - 1], calls[|calls| - 1];
      NothingLingers(max, window, front);
      StepKeepsUse(Run(State(map[], max, window, 0), front, true), last, Clock(front));
      hide Step, OfUse;
    }
  }
}

/**
 The ComicVine token bucket.  Times and rates are real numbers: clock readings are arbitrary
 except that a reading taken later is not smaller, and a sleep lasts at least as long as asked.

 acquire records the time of the refill before it sleeps, so the time slept is credited a second
 time by the next refill.  The theorems give the bound the limiter really keeps, twice the
 configured rate, show that it is reached, and show that recording the time after the sleep
 (`refresh`) would give the configured rate.
 */
module RateLimiter {
  import opened Options

  datatype State = State(rate: real, tokens: real, last: real)

  /** One call, with what the clocks show during it. */
  datatype Event =
    | SetRate(rate: real)
    | Acquire(
        timeout: Option<real>,
        locked: bool,    // the lock was obtained in time
        now: real,       // the reading the refill uses
        spent: real,     // time of the call used up when the deadline is checked
        woke: real)      // when the sleep ends, if there is one

  datatype Outcome = Granted(at: real) | TimedOut | Fault | Silent

  function Min(a: real, b: real): real {
    if a <= b then a else b
  }

  /** What a rate yields between two times. */
  function Due(start: real, end: real, rate: real): real {
    (end - start) * rate
  }

  /** The state at the refill. */
  function Refill(s: State, now: real): State {
    s.(tokens := Min(1.0, s.tokens + Due(s.last, now, s.rate)), last := now)
  }

  function Wait(s: State): real
    requires s.rate != 0.0
  {
    (1.0 - s.tokens) / s.rate
  }

  /** One call; with `refresh` off it is what the code does. */
  function Step(s: State, e: Event, refresh: bool): (State, Outcome) {
    match e
    case SetRate(rate) => (s.(rate := rate), Silent)
    case Acquire(timeout, locked, now, spent, woke) =>
      if !locked then (s, TimedOut)
      else
        var t := Refill(s, now);
        if t.tokens >= 1.0 then (t.(tokens := t.tokens - 1.0), Granted(now))
        else if t.rate == 0.0 then (t, Fault)                                       // ZeroDivisionError
        else if timeout.Some? && Wait(t) > timeout.value - spent then (t, TimedOut)
        else if Wait(t) < 0.0 then (t.(tokens := 0.0), Fault)                        // time.sleep refuses
        else (t.(tokens := 0.0, last := if refresh then woke else now), Granted(woke))
  }

  /** The clock after a call. */
  function After(s: State, e: Event, clock: real, refresh: bool): real {
    match e
    case SetRate(_) => clock
    case Acquire(timeout, locked, now, spent, woke) =>
      if !locked then clock else if Step(s, e, refresh).1.Granted? then Step(s, e, refresh).1.at else now
  }

  /** The readings of a call are consistent with a clock that does not run backwards. */
  predicate Legal(s: State, e: Event, clock: real, top: real) {
    match e
    case SetRate(rate) => 0.0 <= rate <= top
    case Acquire(timeout, locked, now, spent, woke) =>
      locked ==> clock <= now && (Refill(s, now).rate != 0.0 ==> woke - now >= Wait(Refill(s, now)))
  }

  predicate LegalRun(s: State, events: seq<Event>, clock: real, top: real, refresh: bool)
    decreases |events|
  {
    events == [] ||
    (Legal(s, events[0], clock, top) &&
     LegalRun(Step(s, events[0], refresh).0, events[1..], After(s, events[0], clock, refresh), top, refresh))
  }

  function Run(s: State, events: seq<Event>, refresh: bool): State
    decreases |events|
  {
    if events == [] then s else Run(Step(s, events[0], refresh).0, events[1..], refresh)
  }

  function Clock(s: State, events: seq<Event>, clock: real, refresh: bool): real
    decreases |events|
  {
    if events == [] then clock
    else Clock(Step(s, events[0], refresh).0, events[1..], After(s, events[0], clock, refresh), refresh)
  }

  /** The times at which requests were let through. */
  function Grants(s: State, events: seq<Event>, refresh: bool): seq<real>
    decreases |events|
  {
    if events == [] then []
    else
      var (t, o) := Step(s, events[0], refresh);
      (if o.Granted? then [o.at] else []) + Grants(t, events[1..], refresh)
  }

  /** What holds between calls. */
  predicate Valid(s: State, clock: real, top: real) {
    0.0 <= s.rate <= top && 0.0 <= s.tokens <= 1.0 && s.last <= clock
  }

  /** The most tokens a refill at this time can find, whatever the rates since the last one. */
  function Available(s: State, clock: real, top: real): real {
    Min(1.0, s.tokens + Due(s.last, clock, top))
  }

  /** The tokens and what the time since the last refill yields, without the limit of one. */
  function Credit(s: State, clock: real, top: real): real {
    s.tokens + Due(s.last, clock, top)
  }

  /** A rate the limiter keeps: the time of a sleep is credited once or twice. */
  predicate Keeps(pace: real, top: real, refresh: bool) {
    0.0 <= top && pace >= if refresh then top else top + top
  }

  function Cost(o: Outcome): nat {
    if o.Granted? then 1 else 0
  }

  lemma DueSplit(a: real, b: real, c: real, rate: real)
    ensures Due(a, c, rate) == Due(a, b, rate) + Due(b, c, rate)
  {
  }

  lemma DueAtLeast(start: real, end: real, low: real, high: real)
    requires start <= end && low <= high
    ensures Due(start, end, low) <= Due(start, end, high)
  {
    Product(end - start, low, high);
  }

  lemma DuePositive(start: real, end: real, rate: real)
    requires start <= end && 0.0 <= rate
    ensures 0.0 <= Due(start, end, rate)
  {
    Product(end - start, 0.0, rate);
  }

  lemma Product(d: real, j: real, k: real)
    requires 0.0 <= d && j <= k
    ensures d * j <= d * k
  {
  }

  lemma RefillBound(s: State, now: real, clock: real, top: real)
    requires Valid(s, clock, top) && clock <= now
    ensures 0.0 <= Refill(s, now).tokens <= 1.0
    ensures Refill(s, now).tokens <= Available(s, clock, top) + Due(clock, now, top)
  {
    DuePositive(s.last, now, s.rate);
    DuePositive(clock, now, top);
    DueAtLeast(s.last, now, s.rate, top);
    DueSplit(s.last, clock, now, top);
  }

  lemma WaitBound(t: State, start: real, end: real, top: real)
    requires 0.0 < t.rate <= top && t.tokens <= 1.0 && end - start >= Wait(t)
    ensures start <= end && 1.0 - t.tokens <= Due(start, end, top)
  {
    WaitArithmetic(1.0 - t.tokens, t.rate, end - start, top);
  }

  lemma WaitArithmetic(missing: real, rate: real, slept: real, top: real)
    requires 0.0 < rate <= top && 0.0 <= missing && slept >= missing / rate
    ensures 0.0 <= slept && missing <= slept * top
  {
    var w := missing / rate;
    assert w * rate == missing;
    if w < 0.0 {
      Product(rate, w, 0.0);
    }
    Product(rate, w, slept);
    Product(slept, rate, top);
  }

  lemma PaceCovers(pace: real, top: real, refresh: bool, start: real, end: real)
    requires Keeps(pace, top, refresh) && start <= end
    ensures 0.0 <= Due(start, end, top) <= Due(start, end, pace)
    ensures !refresh ==> Due(start, end, top) + Due(start, end, top) <= Due(start, end, pace)
  {
    DuePositive(start, end, top);
    DueAtLeast(start, end, top, pace);
    if !refresh {
      DueAtLeast(start, end, top + top, pace);
      DueDouble(start, end, top);
    }
  }

  lemma DueDouble(start: real, end: real, rate: real)
    ensures Due(start, end, rate + rate) == Due(start, end, rate) + Due(start, end, rate)
  {
  }

  lemma DueNothing(time: real, rate: real)
    ensures Due(time, time, rate) == 0.0
  {
  }

  /** A call that does not sleep spends what the refill found. */
  lemma AwakeBound(s: State, now: real, t: State, cost: nat, clock: real, top: real, refresh: bool, pace: real)
    requires Valid(s, clock, top) && clock <= now && Keeps(pace, top, refresh)
    requires t.rate == s.rate && t.last == now && 0.0 <= t.tokens && cost as real + t.tokens == Refill(s, now).tokens
    ensures Valid(t, now, top)
    ensures cost as real + Credit(t, now, top) <= Available(s, clock, top) + Due(clock, now, pace)
  {
    RefillBound(s, now, clock, top);
    PaceCovers(pace, top, refresh, clock, now);
    DueNothing(now, top);
  }

  /** A sleeping call lets one request through and leaves no tokens. */
  lemma AsleepBound(s: State, now: real, woke: real, t: State, clock: real, top: real, refresh: bool, pace: real)
    requires Valid(s, clock, top) && clock <= now && s.rate > 0.0 && Keeps(pace, top, refresh)
    requires Refill(s, now).tokens < 1.0 && woke - now >= Wait(Refill(s, now))
    requires t == State(s.rate, 0.0, if refresh then woke else now)
    ensures Valid(t, woke, top) && now <= woke
    ensures 1.0 + Credit(t, woke, top) <= Available(s, clock, top) + Due(clock, woke, pace)
  {
    RefillBound(s, now, clock, top);
    WaitBound(Refill(s, now), now, woke, top);
    PaceCovers(pace, top, refresh, clock, now);
    PaceCovers(pace, top, refresh, now, woke);
    DueSplit(clock, now, woke, pace);
    DueNothing(woke, top);
  }

  /** Every call keeps Valid and pays for a grant out of the availability and the time that passes. */
  lemma StepBound(s: State, e: Event, clock: real, top: real, refresh: bool, pace: real)
    requires Keeps(pace, top, refresh) && Valid(s, clock, top) && Legal(s, e, clock, top)
    ensures var (t, o) := Step(s, e, refresh);
            var later := After(s, e, clock, refresh);
            && Valid(t, later, top) && clock <= later
            && Cost(o) as real + Available(t, later, top) <= Available(s, clock, top) + Due(clock, later, pace)
            && Cost(o) as real + Credit(t, later, top) <= Credit(s, clock, top) + Due(clock, later, pace)
  {
    var (t, o) := Step(s, e, refresh);
    PaceCovers(pace, top, refresh, clock, clock);
    if e.Acquire? && e.locked {
      var r := Refill(s, e.now);
      RefillBound(s, e.now, clock, top);
      if r.tokens < 1.0 && r.rate != 0.0 {
        WaitBound(r, e.now, e.now + Wait(r), top);
        if o.Granted? {
          AsleepBound(s, e.now, e.woke, t, clock, top, refresh, pace);
        } else {
          AwakeBound(s, e.now, t, 0, clock, top, refresh, pace);
        }
      } else {
        AwakeBound(s, e.now, t, Cost(o), clock, top, refresh, pace);
      }
    }
  }

  /**
   The rate the limiter keeps.  Over any run between two calls, with all rates at most `top`, the
   requests let through, plus what is available at the end, are at most what was available at the
   start plus twice the rate times the elapsed time; with the refreshed clock it is once.  The
   same holds of the credit, which is not limited to one token.
   */
  lemma {:induction false} RunBound(s: State, events: seq<Event>, clock: real, top: real, refresh: bool, pace: real)
    requires Keeps(pace, top, refresh) && Valid(s, clock, top) && LegalRun(s, events, clock, top, refresh)
    ensures var end := Clock(s, events, clock, refresh);
            && clock <= end && Valid(Run(s, events, refresh), end, top)
            && |Grants(s, events, refresh)| as real + Available(Run(s, events, refresh), end, top)
               <= Available(s, clock, top) + Due(clock, end, pace)
            && |Grants(s, events, refresh)| as real + Credit(Run(s, events, refresh), end, top)
               <= Credit(s, clock, top) + Due(clock, end, pace)
    decreases |events|
  {
    if events != [] {
      var t := Step(s, events[0], refresh).0;
      var later := After(s, events[0], clock, refresh);
      StepBound(s, events[0], clock, top, refresh, pace);
      RunBound(t, events[1..], later, top, refresh, pace);
      var end := Clock(s, events, clock, refresh);
      DueSplit(clock, later, end, pace);
    }
  }

  /** A limiter as constructed at time t0. */
  function Fresh(rate: real, t0: real): State {
    State(rate, 1.0, t0)
  }

  /**
   From construction on, the requests let through by time t, the tokens, and what the rate yields
   from the last refill to t, are together at most one more than twice the rate allows, and at
   most one more than the rate allows if the clock is read again after a sleep.
   */
  lemma BoundFromConstruction(rate: real, t0: real, events: seq<Event>, top: real, refresh: bool, pace: real)
    requires 0.0 <= rate <= top && LegalRun(Fresh(rate, t0), events, t0, top, refresh)
    requires pace == if refresh then top else 2.0 * top
    ensures var s := Run(Fresh(rate, t0), events, refresh);
            var t := Clock(Fresh(rate, t0), events, t0, refresh);
            && |Grants(Fresh(rate, t0), events, refresh)| as real + s.tokens + Due(s.last, t, top)
               <= 1.0 + Due(t0, t, pace)
            && 0.0 <= s.tokens <= 1.0 && 0.0 <= Due(s.last, t, top)
  {
    RunBound(Fresh(rate, t0), events, t0, top, refresh, pace);
    var s := Run(Fresh(rate, t0), events, refresh);
    var t := Clock(Fresh(rate, t0), events, t0, refresh);
    DuePositive(s.last, t, top);
    DueNothing(t0, top);
  }

  // ---------------------------------------------------------------- any window of time

  function CountUpTo(times: seq<real>, b: real): nat {
    if times == [] then 0 else (if times[0] <= b then 1 else 0) + CountUpTo(times[1..], b)
  }

  /** The requests let through in (a, b]. */
  function CountIn(times: seq<real>, a: real, b: real): nat {
    if times == [] then 0 else (if a < times[0] <= b then 1 else 0) + CountIn(times[1..], a, b)
  }

  lemma {:induction false} GrantsAfter(s: State, events: seq<Event>, clock: real, top: real, refresh: bool)
    requires Valid(s, clock, top) && LegalRun(s, events, clock, top, refresh)
    ensures forall g :: g in Grants(s, events, refresh) ==> clock <= g
    decreases |events|
  {
    if events != [] {
      StepBound(s, events[0], clock, top, refresh, top + top);
      GrantsAfter(Step(s, events[0], refresh).0, events[1..], After(s, events[0], clock, refresh), top, refresh);
    }
  }

  lemma {:induction false} NoneUpTo(times: seq<real>, b: real)
    requires forall g :: g in times ==> b < g
    ensures CountUpTo(times, b) == 0
  {
    if times != [] {
      assert times[0] in times && forall g :: g in times[1..] ==> g in times;
      NoneUpTo(times[1..], b);
    }
  }

  lemma GrantsStep(s: State, events: seq<Event>, refresh: bool, b: real)
    requires events != []
    ensures var (t, o) := Step(s, events[0], refresh);
            var rest := Grants(t, events[1..], refresh);
            && CountUpTo(Grants(s, events, refresh), b)
               == CountUpTo(rest, b) + (if o.Granted? && o.at <= b then 1 else 0)
            && forall a :: CountIn(Grants(s, events, refresh), a, b)
                           == CountIn(rest, a, b) + (if o.Granted? && a < o.at <= b then 1 else 0)
  {
    var (t, o) := Step(s, events[0], refresh);
    var rest := Grants(t, events[1..], refresh);
    assert [] + rest == rest;
    if o.Granted? {
      assert ([o.at] + rest)[1..] == rest;
    }
  }

  lemma {:induction false} PrefixBound(s: State, events: seq<Event>, clock: real, top: real, refresh: bool, pace: real,
                                       b: real)
    requires Keeps(pace, top, refresh) && Valid(s, clock, top) && LegalRun(s, events, clock, top, refresh) && clock <= b
    ensures CountUpTo(Grants(s, events, refresh), b) as real <= Available(s, clock, top) + Due(clock, b, pace)
    decreases |events|
  {
    DuePositive(s.last, clock, top);
    PaceCovers(pace, top, refresh, clock, b);
    if events != [] {
      var t := Step(s, events[0], refresh).0;
      var o := Step(s, events[0], refresh).1;
      var later := After(s, events[0], clock, refresh);
      var rest := Grants(t, events[1..], refresh);
      StepBound(s, events[0], clock, top, refresh, pace);
      GrantsStep(s, events, refresh, b);
      if later <= b {
        PrefixBound(t, events[1..], later, top, refresh, pace, b);
        DueSplit(clock, later, b, pace);
      } else {
        GrantsAfter(t, events[1..], later, top, refresh);
        NoneUpTo(rest, b);
      }
    }
  }

  lemma {:induction false} CountInUpTo(times: seq<real>, a: real, b: real)
    ensures CountIn(times, a, b) <= CountUpTo(times, b)
  {
    if times != [] {
      CountInUpTo(times[1..], a, b);
    }
  }

  /**
   In any window of time, wherever it starts, the limiter lets through at most two requests more
   than twice the rate allows: one that was sleeping when the window opened, and one burst.
   */
  lemma {:induction false} WindowBound(s: State, events: seq<Event>, clock: real, top: real, pace: real, a: real,
                                       b: real)
    requires Valid(s, clock, top) && LegalRun(s, events, clock, top, false) && a <= b
    requires pace == 2.0 * top
    ensures CountIn(Grants(s, events, false), a, b) as real <= 2.0 + Due(a, b, pace)
    decreases |events|
  {
    DuePositive(a, b, pace);
    if events != [] {
      var t := Step(s, events[0], false).0;
      var o := Step(s, events[0], false).1;
      var later := After(s, events[0], clock, false);
      var rest := Grants(t, events[1..], false);
      StepBound(s, events[0], clock, top, false, pace);
      GrantsStep(s, events, false, b);
      if o.Granted? && a < o.at <= b {
        PrefixBound(t, events[1..], later, top, false, pace, b);
        CountInUpTo(rest, a, b);
        DuePositive(a, later, pace);
        DueSplit(a, later, b, pace);
      } else {
        WindowBound(t, events[1..], later, top, pace, a, b);
      }
    }
  }

  // ---------------------------------------------------------------- the bound is reached

  /** A call without a deadline at the given time. */
  function Call(now: real, rate: real): Event
    requires rate > 0.0
  {
    Acquire(None, true, now, 0.0, now + 1.0 / rate)
  }

  /** n rounds of two calls: one that sleeps, and one right after it that need not. */
  function Rounds(n: nat, start: real, rate: real): seq<Event>
    requires rate > 0.0
  {
    if n == 0 then []
    else [Call(start, rate), Call(start + 1.0 / rate, rate)] + Rounds(n - 1, start + 1.0 / rate, rate)
  }

  lemma OneRound(rate: real, start: real, top: real)
    requires 0.0 < rate
    ensures var s := State(rate, 0.0, start);
            var later := start + 1.0 / rate;
            && Step(s, Call(start, rate), false) == (s, Granted(later))
            && Step(s, Call(later, rate), false) == (State(rate, 0.0, later), Granted(later))
            && Legal(s, Call(start, rate), start, top) && Legal(s, Call(later, rate), later, top)
  {
    var s := State(rate, 0.0, start);
    assert (start - s.last) * rate == 0.0;
    assert (start + 1.0 / rate - s.last) * rate == 1.0;
    assert Wait(s) == 1.0 / rate;
    assert Wait(State(rate, 1.0, start + 1.0 / rate)) == 0.0;
  }

  lemma {:induction false} RoundsGrantTwo(n: nat, start: real, rate: real)
    requires rate > 0.0
    ensures var s := State(rate, 0.0, start);
            && LegalRun(s, Rounds(n, start, rate), start, rate, false)
            && |Grants(s, Rounds(n, start, rate), false)| == 2 * n
            && Clock(s, Rounds(n, start, rate), start, false) == start + n as real / rate
  {
    if n > 0 {
      var s := State(rate, 0.0, start);
      var later := start + 1.0 / rate;
      var rest := Rounds(n - 1, later, rate);
      OneRound(rate, start, rate);
      RoundsGrantTwo(n - 1, later, rate);
      var events := Rounds(n, start, rate);
      assert events[1..] == [Call(later, rate)] + rest;
      assert events[1..][1..] == rest;
      assert (n - 1) as real / rate + 1.0 / rate == n as real / rate;
    }
  }

  /** From construction, 2n + 1 requests go through by time n / rate: the bound cannot be lowered. */
  lemma BoundIsReached(n: nat, rate: real, t0: real)
    requires rate > 0.0
    ensures var s := Fresh(rate, t0);
            var events := [Call(t0, rate)] + Rounds(n, t0, rate);
            var t := Clock(s, events, t0, false);
            && LegalRun(s, events, t0, rate, false)
            && t == t0 + n as real / rate
            && |Grants(s, events, false)| as real == 1.0 + Due(t0, t, 2.0 * rate)
  {
    var s := Fresh(rate, t0);
    var events := [Call(t0, rate)] + Rounds(n, t0, rate);
    FirstCall(rate, t0);
    RoundsGrantTwo(n, t0, rate);
    assert events[1..] == Rounds(n, t0, rate);
    assert n as real / rate * rate == n as real;
  }

  lemma FirstCall(rate: real, t0: real)
    requires rate > 0.0
    ensures Step(Fresh(rate, t0), Call(t0, rate), false) == (State(rate, 0.0, t0), Granted(t0))
    ensures Legal(Fresh(rate, t0), Call(t0, rate), t0, rate)
  {
    var s := Fresh(rate, t0);
    assert (t0 - s.last) * rate == 0.0;
    assert Refill(s, t0) == s;
    assert Wait(s) == 0.0;
  }

  lemma {:induction false} AllIn(times: seq<real>, a: real, b: real)
    requires forall g :: g in times ==> a < g <= b
    ensures CountIn(times, a, b) == |times|
  {
    if times != [] {
      assert times[0] in times && forall g :: g in times[1..] ==> g in times;
      AllIn(times[1..], a, b);
    }
  }

  /** The rounds let requests through from the end of the first sleep to that of the last. */
  lemma {:induction false} RoundsGrantWithin(n: nat, start: real, rate: real)
    requires rate > 0.0
    ensures forall g :: g in Grants(State(rate, 0.0, start), Rounds(n, start, rate), false) ==>
              start + 1.0 / rate <= g <= start + n as real / rate
  {
    if n > 0 {
      var s := State(rate, 0.0, start);
      var later := start + 1.0 / rate;
      var rest := Rounds(n - 1, later, rate);
      OneRound(rate, start, rate);
      RoundsGrantWithin(n - 1, later, rate);
      var events := Rounds(n, start, rate);
      assert events[1..] == [Call(later, rate)] + rest;
      assert events[1..][1..] == rest;
      assert Grants(s, events, false) == [later] + ([later] + Grants(State(rate, 0.0, later), rest, false));
      assert (n - 1) as real / rate + 1.0 / rate == n as real / rate;
      assert 0.0 < 1.0 / rate && 0.0 <= (n - 1) as real / rate;
    }
  }

  /**
   Nor can the bound of a window: one that opens a moment before the first sleep ends holds
   2n + 2 requests, which misses the bound by what that moment yields.
   */
  lemma WindowBoundIsReached(n: nat, rate: real, t0: real, moment: real)
    requires rate > 0.0 && 0.0 < moment <= 1.0 / rate
    ensures var s := Fresh(rate, t0);
            var events := [Call(t0, rate)] + Rounds(n + 1, t0, rate);
            var a, b := t0 + 1.0 / rate - moment, t0 + (n + 1) as real / rate;
            && LegalRun(s, events, t0, rate, false) && a <= b
            && CountIn(Grants(s, events, false), a, b) as real
               == 2.0 + Due(a, b, 2.0 * rate) - Due(0.0, moment, 2.0 * rate)
  {
    var s := Fresh(rate, t0);
    var events := [Call(t0, rate)] + Rounds(n + 1, t0, rate);
    var a, b := t0 + 1.0 / rate - moment, t0 + (n + 1) as real / rate;
    FirstCall(rate, t0);
    RoundsGrantTwo(n + 1, t0, rate);
    RoundsGrantWithin(n + 1, t0, rate);
    assert events[1..] == Rounds(n + 1, t0, rate);
    var rest := Grants(State(rate, 0.0, t0), Rounds(n + 1, t0, rate), false);
    assert Grants(s, events, false) == [t0] + rest;
    assert ([t0] + rest)[1..] == rest;
    AllIn(rest, a, b);
    WindowLength(n, rate, t0, moment);
  }

  lemma WindowLength(n: nat, rate: real, t0: real, moment: real)
    requires rate > 0.0 && 0.0 < moment
    ensures var a, b := t0 + 1.0 / rate - moment, t0 + (n + 1) as real / rate;
            a <= b && Due(a, b, 2.0 * rate) == 2.0 * n as real + Due(0.0, moment, 2.0 * rate)
  {
    var w := n as real / rate;
    var a, b := t0 + 1.0 / rate - moment, t0 + (n + 1) as real / rate;
    Quotients(n, rate);
    DueOfSum(a, b, w, moment, 2.0 * rate);
    DueTwice(w, n as real, rate);
  }

  lemma Quotients(n: nat, rate: real)
    requires rate > 0.0
    ensures (n + 1) as real / rate == n as real / rate + 1.0 / rate
    ensures n as real / rate >= 0.0 && n as real / rate * rate == n as real
  {
  }

  lemma DueOfSum(a: real, b: real, x: real, y: real, rate: real)
    requires b - a == x + y
    ensures Due(a, b, rate) == Due(0.0, x, rate) + Due(0.0, y, rate)
  {
    assert Due(a, b, rate) == (x + y) * rate;
  }

  lemma DueTwice(x: real, yield': real, rate: real)
    requires x * rate == yield'
    ensures Due(0.0, x, 2.0 * rate) == 2.0 * yield'
  {
    assert Due(0.0, x, 2.0 * rate) == x * (2.0 * rate);
  }

  // ---------------------------------------------------------------- what a call returns

  /** What the bucket lacks for one request at the given time; none when not positive. */
  function Missing(s: State, now: real): real {
    1.0 - s.tokens - Due(s.last, now, s.rate)
  }

  lemma TimeFor(missing: real, rate: real, left: real)
    requires rate > 0.0
    ensures missing / rate > left <==> missing > left * rate
  {
    var wait := missing / rate;
    assert wait * rate == missing;
    if wait > left {
      assert (wait - left) * rate > 0.0;
    } else {
      Product(rate, wait, left);
    }
  }

  /**
   The answer of a call for every reading of the clocks.  A full token is handed out at once and
   leaves none.  Otherwise the call gives up exactly when the time left before its deadline would
   not bring what is missing, and then keeps what the refill brought; else it sleeps, goes through
   and leaves no tokens.
   */
  lemma AcquireAnswers(s: State, timeout: Option<real>, now: real, spent: real, woke: real)
    requires s.rate > 0.0
    ensures var (t, o) := Step(s, Acquire(timeout, true, now, spent, woke), false);
            var missing := Missing(s, now);
            && t.rate == s.rate && t.last == now
            && (missing <= 0.0 ==> o == Granted(now) && t.tokens == 0.0)
            && (missing > 0.0 && timeout.Some? && missing > (timeout.value - spent) * s.rate ==>
                  o == TimedOut && t.tokens == 1.0 - missing)
            && (missing > 0.0 && (timeout.None? || missing <= (timeout.value - spent) * s.rate) ==>
                  o == Granted(woke) && t.tokens == 0.0)
  {
    var r := Refill(s, now);
    var missing := Missing(s, now);
    if missing > 0.0 {
      assert 1.0 - r.tokens == missing;
      TimeFor(missing, s.rate, 0.0);
      if timeout.Some? {
        TimeFor(missing, s.rate, timeout.value - spent);
      }
    }
  }

  /** At rate zero a call that would have to wait fails; without the lock nothing changes. */
  lemma AcquireFails(s: State, timeout: Option<real>, now: real, spent: real, woke: real)
    ensures Step(s, Acquire(timeout, false, now, spent, woke), false) == (s, TimedOut)
    ensures s.rate == 0.0 && s.tokens < 1.0 ==>
              Step(s, Acquire(timeout, true, now, spent, woke), false) == (s.(last := now), Fault)
  {
    if s.rate == 0.0 {
      assert Due(s.last, now, s.rate) == 0.0;
    }
  }

  /**
   No call is turned away for longer than one token takes: after any run, a call that gets the
   lock and has at least 1 / rate left before its deadline is let through.
   */
  lemma LetThroughInTime(s: State, events: seq<Event>, clock: real, top: real, timeout: Option<real>, now: real,
                         spent: real, woke: real)
    requires Valid(s, clock, top) && LegalRun(s, events, clock, top, false)
    requires Clock(s, events, clock, false) <= now && Run(s, events, false).rate > 0.0
    requires timeout.Some? ==> 1.0 / Run(s, events, false).rate <= timeout.value - spent
    ensures Step(Run(s, events, false), Acquire(timeout, true, now, spent, woke), false).1.Granted?
  {
    RunBound(s, events, clock, top, false, top + top);
    FullInTime(Run(s, events, false), timeout, now, spent, woke);
  }

  lemma FullInTime(s: State, timeout: Option<real>, now: real, spent: real, woke: real)
    requires 0.0 < s.rate && 0.0 <= s.tokens && s.last <= now
    requires timeout.Some? ==> 1.0 / s.rate <= timeout.value - spent
    ensures Step(s, Acquire(timeout, true, now, spent, woke), false).1.Granted?
  {
    AcquireAnswers(s, timeout, now, spent, woke);
    DuePositive(s.last, now, s.rate);
    if timeout.Some? {
      TimeFor(1.0, s.rate, timeout.value - spent);
    }
  }

  /** The changes of the rate in the given order. */
  function Changes(rates: seq<real>): (events: seq<Event>)
    ensures |events| == |rates|
  {
    if rates == [] then [] else [SetRate(rates[0])] + Changes(rates[1..])
  }

  /**
   However often the rate is changed between two calls, no tokens are lost or gained by it, and
   the next call is answered as if the last rate had held ever since the last refill.
   */
  lemma {:induction false} LastRateCounts(s: State, rates: seq<real>)
    requires rates != []
    ensures Run(s, Changes(rates), false) == State(rates[|rates| - 1], s.tokens, s.last)
    ensures forall now :: Missing(Run(s, Changes(rates), false), now)
                          == 1.0 - s.tokens - Due(s.last, now, rates[|rates| - 1])
    decreases |rates|
  {
    var events := Changes(rates);
    assert events[1..] == Changes(rates[1..]);
    if |rates| > 1 {
      LastRateCounts(s.(rate := rates[0]), rates[1..]);
    } else {
      assert Changes(rates[1..]) == [];
    }
  }

  // ---------------------------------------------------------------- the limiter object

  class ComicVineRateLimiter {
    var rate: real
    var tokens: real
    var lastUpdate: real

    constructor (callsPerSecond: real, now: real)
      ensures Snapshot() == Fresh(callsPerSecond, now)
    {
      rate, tokens, lastUpdate := callsPerSecond, 1.0, now;
    }

    function Snapshot(): State
      reads this
    {
      State(rate, tokens, lastUpdate)
    }

    method Acquire(timeout: Option<real>, locked: bool, now: real, spent: real, woke: real) returns (o: Outcome)
      modifies this
      ensures (Snapshot(), o) == Step(old(Snapshot()), Event.Acquire(timeout, locked, now, spent, woke), false)
    {
      if !locked {
        return TimedOut;
      }
      var elapsed := now - lastUpdate;
      ghost var refilled := Refill(Snapshot(), now);
      tokens := Min(1.0, tokens + elapsed * rate);
      lastUpdate := now;
      assert Snapshot() == refilled;
      if tokens >= 1.0 {
        tokens := tokens - 1.0;
        return Granted(now);
      }
      if rate == 0.0 {
        return Fault;
      }
      var wait := (1.0 - tokens) / rate;
      assert wait == Wait(refilled);
      if timeout.Some? && wait > timeout.value - spent {
        return TimedOut;
      }
      tokens := 0.0;
      if wait < 0.0 {
        return Fault;
      }
      return Granted(woke);
    }

    method SetRate(callsPerSecond: real)
      modifies this
      ensures Snapshot() == Step(old(Snapshot()), Event.SetRate(callsPerSecond), false).0
    {
      rate := callsPerSecond;
    }
  }
}

/** The retry engine: a generator that yields numbered attempts, paced by a sleep
    time or an interval and bounded by a count and a timeout. */
module Retry {
  import opened Prelude

  /** Wall-clock time, in exact seconds.  `tick` is the least time that a call into
      a remote service takes. */
  class Clock {
    var now: real
    const tick: real
    /** When each remote call began. */
    ghost var calls: seq<real>

    ghost predicate Valid() {
      tick > 0.0
    }

    constructor (now: real, tick: real)
      requires tick > 0.0
      ensures Valid() && this.now == now && this.tick == tick && calls == []
    {
      this.now := now;
      this.tick := tick;
      this.calls := [];
    }

    method Sleep(seconds: real)
      modifies this`now
      ensures now == old(now) + MaxReal(0.0, seconds)
    {
      now := now + MaxReal(0.0, seconds);
    }

    /** A remote call: takes an arbitrary time, but never less than `tick`. */
    method Work()
      requires Valid()
      modifies this
      ensures now >= old(now) + tick
      ensures CalledOnce(old(calls), calls, old(now))
    {
      calls := calls + [now];
      var duration: real := *;
      now := now + MaxReal(tick, duration);
    }
  }

  ghost predicate CalledOnce(before: seq<real>, after: seq<real>, at: real) {
    |after| == |before| + 1 && before <= after && after[|before|] == at
  }

  datatype Config = Config(count: Option<int>, timeout: Option<real>, sleepTime: Option<real>, interval: Option<real>)

  /** The parameters of one attempt; `elapsed` is measured when the attempt starts. */
  datatype Attempt = Attempt(number: nat, startTime: real, elapsed: real, config: Config) {
    function CountLeft(): Option<int> {
      match config.count
      case None => None
      case Some(count) => Some(MaxInt(0, count - number))
    }

    function TimeLeft(): Option<real> {
      match config.timeout
      case None => None
      case Some(timeout) => Some(MaxReal(0.0, timeout - elapsed))
    }

    function CheckLimits(): Option<LimitError> {
      if CountLeft() == Some(0) then Some(CountLimit)
      else if TimeLeft() == Some(0.0) then Some(TimeLimit)
      else None
    }

    predicate IsLast() {
      CheckLimits().Some?
    }
  }

  datatype LimitError = CountLimit | TimeLimit

  datatype NextResult = Yield(attempt: Attempt) | Raised(error: LimitError) | Stop

  // ---------------------------------------------------------------- building a Retry

  function ToSeconds(value: Option<real>): Option<real> {
    match value
    case None => None
    case Some(v) => Some(MaxReal(0.0, v))
  }

  /** Python's `x or y` on optional numbers: a zero counts as absent. */
  function OrCount(x: Option<int>, y: Option<int>): Option<int> {
    if x.None? || x.value == 0 then y else x
  }

  function OrSeconds(x: Option<real>, y: Option<real>): Option<real> {
    if x.None? || x.value == 0.0 then y else x
  }

  const NO_LIMITS := Config(None, None, None, None)

  function Either(first: Config, second: Config): Config {
    Config(OrCount(first.count, second.count), OrSeconds(first.timeout, second.timeout),
           OrSeconds(first.sleepTime, second.sleepTime), OrSeconds(first.interval, second.interval))
  }

  function MakeRetry(other: Option<Config>, given: Config, defaults: Config): Config {
    var mine := if other.Some? then Either(given, other.value) else given;
    var c := Either(mine, defaults);
    Config(c.count, ToSeconds(c.timeout), ToSeconds(c.sleepTime), ToSeconds(c.interval))
  }

  /** Each parameter is the given one if that is there and not zero, or else the other
      retry's, or else the default, and times are not negative. */
  lemma FirstGivenWins(other: Option<Config>, given: Config, defaults: Config)
    ensures var c := MakeRetry(other, given, defaults);
            && c.count == (if given.count.GetOr(0) != 0 then given.count
                           else if other.Some? && other.value.count.GetOr(0) != 0 then other.value.count
                           else defaults.count)
            && c.timeout == AtLeastZero(if given.timeout.GetOr(0.0) != 0.0 then given.timeout
                                        else if other.Some? && other.value.timeout.GetOr(0.0) != 0.0 then other.value.timeout
                                        else defaults.timeout)
            && c.sleepTime == AtLeastZero(if given.sleepTime.GetOr(0.0) != 0.0 then given.sleepTime
                                          else if other.Some? && other.value.sleepTime.GetOr(0.0) != 0.0 then other.value.sleepTime
                                          else defaults.sleepTime)
            && c.interval == AtLeastZero(if given.interval.GetOr(0.0) != 0.0 then given.interval
                                         else if other.Some? && other.value.interval.GetOr(0.0) != 0.0 then other.value.interval
                                         else defaults.interval)
  {
  }

  function AtLeastZero(seconds: Option<real>): Option<real> {
    if seconds.Some? && seconds.value < 0.0 then Some(0.0) else seconds
  }

  /** A wait that is handed the time left of an outer wait keeps to it exactly as long as
      there is some left.  A time limit that is already used up is dropped in favour of the
      default: the inner wait starts over with the whole default timeout. */
  lemma ExhaustedTimeoutFallsBack(outer: Attempt, defaults: Config)
    requires outer.config.timeout.Some? && defaults.timeout.Some? && defaults.timeout.value > 0.0
    ensures var inner := MakeRetry(None, NO_LIMITS.(timeout := outer.TimeLeft()), defaults);
            && (inner.timeout == outer.TimeLeft() <==> outer.elapsed < outer.config.timeout.value)
            && (outer.elapsed >= outer.config.timeout.value ==> outer.IsLast() && inner.timeout == defaults.timeout)
  {
  }

  // ---------------------------------------------------------------- one step of the generator

  /** The start of slot `n`: `n` intervals added up. */
  function Slot(n: nat, interval: real): real {
    if n == 0 then 0.0 else Slot(n - 1, interval) + interval
  }

  lemma {:induction false} SlotIsProduct(n: nat, interval: real)
    ensures Slot(n, interval) == n as real * interval
  {
    if n == 0 {
    } else {
      SlotIsProduct(n - 1, interval);
      calc {
        n as real * interval;
        ((n - 1) as real + 1.0) * interval;
        (n - 1) as real * interval + interval;
      }
    }
  }

  function SleepFor(a: Attempt, elapsed: real): (s: real)
    ensures s >= 0.0
  {
    match (a.config.sleepTime, a.config.interval)
    case (Some(s), _) => MaxReal(0.0, s)
    case (None, Some(i)) => MaxReal(0.0, Slot(a.number, i) - elapsed)
    case (None, None) => 0.0
  }

  predicate Sleeps(a: Attempt, elapsed: real) {
    var sleep := SleepFor(a, elapsed);
    sleep > 0.0 && (a.TimeLeft().None? || a.TimeLeft().value > sleep)
  }

  /** The attempt after `a`, when the body of `a` ends at `elapsed`. */
  function Following(a: Attempt, elapsed: real): Attempt {
    var start := if Sleeps(a, elapsed) then elapsed + SleepFor(a, elapsed) else elapsed;
    Attempt(a.number + 1, a.startTime, start, a.config)
  }

  /** In a loop that began at `start`, the attempt after the n-th one, which began at
      `previous`, does not begin before its slot, unless too little time was left then. */
  predicate NotEarly(c: Config, start: real, n: nat, previous: real, next: real) {
    c.interval.Some? && c.sleepTime.None? ==>
      var slot := start + Slot(n, c.interval.value);
      next >= slot || (c.timeout.Some? && c.timeout.value - (previous - start) <= slot - next)
  }

  lemma FollowingIsNotEarly(a: Attempt, end: real)
    requires end >= a.elapsed
    ensures NotEarly(a.config, a.startTime, a.number, a.startTime + a.elapsed, a.startTime + Following(a, end).elapsed)
  {
  }

  ghost predicate Limited(c: Config) {
    c.count.Some? || c.timeout.Some?
  }

  lemma TickIsOne(time: real, tick: real)
    requires tick > 0.0
    ensures (time - tick) / tick == time / tick - 1.0
    ensures time > 0.0 ==> time / tick > 0.0
  {
    var p, q := (time - tick) / tick, time / tick;
    assert p * tick == time - tick && q * tick == time;
    var gap := p - (q - 1.0);
    assert gap * tick == 0.0;
    assert gap > 0.0 ==> gap * tick > 0.0;
    assert gap < 0.0 ==> gap * tick < 0.0;
    assert q <= 0.0 ==> q * tick <= 0.0;
  }

  /** How often time can pass by ticks before it is used up. */
  ghost function Ticks(time: real, tick: real): nat
    requires tick > 0.0
    decreases if time > 0.0 then (time / tick).Floor + 1 else 0
  {
    if time <= 0.0 then 0
    else
      TickIsOne(time, tick);
      1 + Ticks(time - tick, tick)
  }

  lemma {:induction false} TicksAreMonotonic(x: real, y: real, tick: real)
    requires tick > 0.0 && x <= y
    ensures Ticks(x, tick) <= Ticks(y, tick)
    decreases Ticks(y, tick)
  {
    if x <= 0.0 {
    } else {
      TicksAreMonotonic(x - tick, y - tick, tick);
    }
  }

  /** Bounds the attempts still to come, when `attempts` were made and every body takes at
      least `tick`. */
  ghost function Left(c: Config, attempts: nat, elapsed: real, tick: real): nat
    requires tick > 0.0
  {
    if c.count.Some? then MaxInt(0, c.count.value - attempts)
    else if c.timeout.Some? then Ticks(c.timeout.value - elapsed, tick)
    else 0
  }

  /** An attempt that is not the last, and whose body takes at least `tick`, uses up some
      of what was left before it. */
  lemma LeftDecreases(a: Attempt, before: real, after: real, tick: real)
    requires tick > 0.0 && !a.IsLast() && Limited(a.config) && a.number > 0
    requires before <= a.elapsed && a.elapsed + tick <= after
    ensures Left(a.config, a.number, after, tick) < Left(a.config, a.number - 1, before, tick)
  {
    if a.config.count.None? {
      var t := a.config.timeout.value;
      TicksAreMonotonic(t - after, t - before - tick, tick);
    }
  }

  method SleepTime(a: Attempt, elapsed: real) returns (sleepTime: Option<real>)
    ensures SleepFor(a, elapsed) == if sleepTime.Some? then MaxReal(0.0, sleepTime.value) else 0.0
  {
    sleepTime := a.config.sleepTime;
    if sleepTime.None? && a.config.interval.Some? {
      SlotIsProduct(a.number, a.config.interval.value);
      sleepTime := Some(a.number as real * a.config.interval.value - elapsed);
    }
  }

  datatype GeneratorState = Fresh | Suspended(attempt: Attempt) | Finished

  /** `Retry.__iter__`: one call of `Next` is one resumption of the generator. */
  class RetryLoop {
    const config: Config
    const clock: Clock
    var state: GeneratorState

    ghost predicate Valid()
      reads this, clock
    {
      && clock.Valid()
      && (state.Suspended? ==>
            && state.attempt.config == config
            && state.attempt.startTime + state.attempt.elapsed <= clock.now)
    }

    ghost function Attempts(): nat
      reads this
    {
      if state.Suspended? then state.attempt.number else 0
    }

    /** When the first attempt started, or will start. */
    ghost function Start(): real
      reads this, clock
    {
      if state.Suspended? then state.attempt.startTime else clock.now
    }

    ghost function Remaining(): nat
      requires Valid()
      reads this, clock
    {
      Left(config, Attempts(), clock.now - Start(), clock.tick)
    }

    constructor (config: Config, clock: Clock)
      requires clock.Valid()
      ensures Valid() && this.config == config && this.clock == clock && state == Fresh
    {
      this.config := config;
      this.clock := clock;
      this.state := Fresh;
    }

    method Next() returns (r: NextResult)
      requires Valid()
      modifies this`state, clock`now
      ensures Valid()
      ensures old(state).Fresh? ==>
                r == Yield(Attempt(1, old(clock.now), 0.0, config)) && clock.now == old(clock.now)
      ensures old(state).Suspended? ==>
                var a := old(state).attempt;
                && (a.IsLast() <==> r.Raised?)
                && (r.Raised? ==> clock.now == old(clock.now)
                                  && r.error == if a.config.count.Some? && a.number >= a.config.count.value then CountLimit
                                                else TimeLimit)
                && (!r.Raised? ==>
                      && r == Yield(Following(a, old(clock.now) - a.startTime))
                      && clock.now == a.startTime + r.attempt.elapsed)
      ensures old(state).Suspended? && r.Yield? ==>
                var a := old(state).attempt;
                NotEarly(config, a.startTime, a.number, a.startTime + a.elapsed, clock.now)
      ensures old(state).Finished? <==> r.Stop?
      ensures r.Yield? ==> state == Suspended(r.attempt) && r.attempt.config == config
      ensures r.Yield? ==> clock.now == r.attempt.startTime + r.attempt.elapsed
      ensures !r.Yield? ==> state == Finished
      ensures old(clock.now) <= clock.now
    {
      match state {
        case Finished =>
          r := Stop;
        case Fresh =>
          var startTime := clock.now;
          r := Yield(Attempt(1, startTime, 0.0, config));
          state := Suspended(r.attempt);
        case Suspended(attempt) =>
          var limit := attempt.CheckLimits();
          if limit.Some? {
            state := Finished;
            return Raised(limit.value);
          }
          var elapsed := clock.now - attempt.startTime;
          ghost var resumed := elapsed;
          var sleepTime := SleepTime(attempt, elapsed);
          if sleepTime.Some? {
            var seconds := MaxReal(0.0, sleepTime.value);
            var timeLeft := attempt.TimeLeft();
            if seconds > 0.0 && (timeLeft.None? || timeLeft.value > seconds) {
              clock.Sleep(seconds);
              elapsed := clock.now - attempt.startTime;
            }
          }
          r := Yield(Attempt(attempt.number + 1, attempt.startTime, elapsed, config));
          assert r.attempt == Following(attempt, resumed);
          FollowingIsNotEarly(attempt, resumed);
          state := Suspended(r.attempt);
      }
    }
  }

  // ---------------------------------------------------------------- remote calls that are paced

  /** The calls from `from` on are those of attempts from the one numbered `first` on, one
      each; the ones before, if any, made no call and took no time. */
  ghost predicate Paced(c: Config, start: real, first: nat, calls: seq<real>, from: nat) {
    && 0 < first <= 2 && from <= |calls|
    && (from < |calls| ==> if first == 1 then calls[from] == start else NotEarly(c, start, 1, start, calls[from]))
    && forall i :: from < i < |calls| ==> NotEarly(c, start, first + i - 1 - from, calls[i - 1], calls[i])
  }

  /** The same in a loop that is where `state` says. */
  ghost predicate InPace(c: Config, start: real, first: nat, calls: seq<real>, from: nat, state: GeneratorState) {
    && Paced(c, start, first, calls, from)
    && match state
       case Fresh => |calls| == from
       case Suspended(a) =>
         && 0 < a.number == first - 1 + |calls| - from && a.startTime == start
         && a.startTime + a.elapsed == if |calls| > from then calls[|calls| - 1] else start
       case Finished => false
  }

  /** The next attempt, which makes one call, or none if it is the first one of two. */
  lemma PaceStep(c: Config, start: real, first: nat, calls: seq<real>, from: nat, state: GeneratorState, next: Attempt,
                 longer: seq<real>)
    requires InPace(c, start, first, calls, from, state) && next.startTime == start
    requires if state.Fresh? then next.number == 1 && next.elapsed == 0.0
             else
               var a := state.attempt;
               && next.number == a.number + 1
               && NotEarly(c, start, a.number, a.startTime + a.elapsed, next.startTime + next.elapsed)
    requires if state.Fresh? && first == 2 then longer == calls
             else CalledOnce(calls, longer, next.startTime + next.elapsed)
    ensures InPace(c, start, first, longer, from, Suspended(next))
  {
  }

  // ---------------------------------------------------------------- whole runs

  /** The attempt numbered `n + 1` of a run whose k-th body lasts `bodies[k]`. */
  function AttemptAt(c: Config, bodies: seq<real>, n: nat): (a: Attempt)
    requires n <= |bodies|
    ensures a.number == n + 1 && a.config == c && a.startTime == 0.0
  {
    if n == 0 then Attempt(1, 0.0, 0.0, c)
    else
      var previous := AttemptAt(c, bodies, n - 1);
      Following(previous, previous.elapsed + bodies[n - 1])
  }

  /** The run gets as far as attempt `n + 1`. */
  ghost predicate Reached(c: Config, bodies: seq<real>, n: nat)
    requires n <= |bodies|
  {
    forall k: nat :: k < n ==> !AttemptAt(c, bodies, k).IsLast()
  }

  /** There are exactly as many attempts as the limits allow: a count is not exceeded, and no
      attempt follows one that started when the timeout was over. */
  lemma {:induction false} ReachedIff(c: Config, bodies: seq<real>, n: nat)
    requires n <= |bodies| && Durations(bodies)
    ensures Reached(c, bodies, n) <==>
              || n == 0
              || (&& (c.count.Some? ==> n < c.count.value)
                  && (c.timeout.Some? ==> AttemptAt(c, bodies, n - 1).elapsed < c.timeout.value))
  {
    if n == 0 {
    } else {
      ReachedIff(c, bodies, n - 1);
      ReachedOneMore(c, bodies, n);
      LastIff(AttemptAt(c, bodies, n - 1));
      if n > 1 { NeverEarlier(c, bodies, n - 1); }
    }
  }

  lemma LastIff(a: Attempt)
    ensures a.IsLast() <==>
              || (a.config.count.Some? && a.number >= a.config.count.value)
              || (a.config.timeout.Some? && a.elapsed >= a.config.timeout.value)
  {
  }

  lemma ReachedOneMore(c: Config, bodies: seq<real>, n: nat)
    requires 0 < n <= |bodies|
    ensures Reached(c, bodies, n) <==> Reached(c, bodies, n - 1) && !AttemptAt(c, bodies, n - 1).IsLast()
  {
  }

  lemma NeverEarlier(c: Config, bodies: seq<real>, n: nat)
    requires 0 < n <= |bodies| && Durations(bodies)
    ensures AttemptAt(c, bodies, n).elapsed >= AttemptAt(c, bodies, n - 1).elapsed
  {
  }

  ghost predicate Durations(bodies: seq<real>) {
    forall k :: 0 <= k < |bodies| ==> bodies[k] >= 0.0
  }

  function Sum(s: seq<real>): real {
    if s == [] then 0.0 else Sum(s[..|s| - 1]) + s[|s| - 1]
  }

  /** When attempt `n` ends. */
  function EndAt(c: Config, bodies: seq<real>, n: nat): real
    requires 0 < n <= |bodies|
  {
    AttemptAt(c, bodies, n - 1).elapsed + bodies[n - 1]
  }

  /** There is a timeout, and too little of it was left when attempt `n` started for a sleep
      from its end until `until`. */
  predicate TooLittleLeft(c: Config, bodies: seq<real>, n: nat, until: real)
    requires 0 < n <= |bodies|
  {
    c.timeout.Some? && c.timeout.value - AttemptAt(c, bodies, n - 1).elapsed <= until - EndAt(c, bodies, n)
  }

  /** With an interval, the next attempt starts at the later of the end of the one before and
      its slot, or at the end if too little time was left for sleeping. */
  lemma StartsOnSlotOrLater(c: Config, bodies: seq<real>, n: nat)
    requires 0 < n <= |bodies| && c.sleepTime == None && c.interval.Some?
    ensures var end, slot := EndAt(c, bodies, n), Slot(n, c.interval.value);
            AttemptAt(c, bodies, n).elapsed == if end < slot && !TooLittleLeft(c, bodies, n, slot) then slot else end
  {
  }

  /** With a sleep time, it starts that much later than the one before ends, likewise. */
  lemma StartsAfterSleep(c: Config, bodies: seq<real>, n: nat)
    requires 0 < n <= |bodies| && c.sleepTime.Some?
    ensures var end := EndAt(c, bodies, n); var wake := end + c.sleepTime.value;
            AttemptAt(c, bodies, n).elapsed == if end < wake && !TooLittleLeft(c, bodies, n, wake) then wake else end
  {
  }

  lemma StartsAtEnd(c: Config, bodies: seq<real>, n: nat)
    requires 0 < n <= |bodies| && c.sleepTime == None && c.interval == None
    ensures AttemptAt(c, bodies, n).elapsed == EndAt(c, bodies, n)
  {
  }

  /** Within a timeout, too, bodies that fit in the interval start exactly on their slots. */
  lemma {:induction false} PacingWithinTimeout(c: Config, interval: real, bodies: seq<real>, n: nat)
    requires n <= |bodies| && Durations(bodies) && c.sleepTime == None && c.interval == Some(interval)
    requires c.timeout.Some? ==> Slot(n, interval) < c.timeout.value
    requires forall k :: 0 <= k < n ==> bodies[k] <= interval
    ensures AttemptAt(c, bodies, n).elapsed == Slot(n, interval)
  {
    if n == 0 {
    } else {
      assert interval >= bodies[0] >= 0.0;
      PacingWithinTimeout(c, interval, bodies, n - 1);
      StartsOnSlotOrLater(c, bodies, n);
    }
  }

  /** When attempt `n + 1` would start if attempt `j + 1` started exactly on its slot. */
  function OnSlot(interval: real, bodies: seq<real>, j: nat, n: nat): real
    requires j <= n <= |bodies|
  {
    Slot(j, interval) + Sum(bodies[j..n])
  }

  lemma OnSlotStep(interval: real, bodies: seq<real>, j: nat, n: nat)
    requires j < n <= |bodies|
    ensures OnSlot(interval, bodies, j, n) == OnSlot(interval, bodies, j, n - 1) + bodies[n - 1]
  {
    assert bodies[j..n][..n - j - 1] == bodies[j..n - 1];
  }

  lemma PacingStep(count: Option<int>, interval: real, bodies: seq<real>, n: nat)
    requires 0 < n <= |bodies|
    ensures var c := Config(count, None, None, Some(interval));
            AttemptAt(c, bodies, n).elapsed
            == MaxReal(AttemptAt(c, bodies, n - 1).elapsed + bodies[n - 1], Slot(n, interval))
  {
    var c := Config(count, None, None, Some(interval));
    var previous := AttemptAt(c, bodies, n - 1);
    assert AttemptAt(c, bodies, n) == Following(previous, previous.elapsed + bodies[n - 1]);
  }

  /** `start` is the maximum, over 0 <= j <= n, of j intervals plus the bodies of attempts
      j+1 to n. */
  ghost predicate IsMaxPlus(interval: real, bodies: seq<real>, n: nat, start: real)
    requires n <= |bodies|
  {
    && (exists j: nat :: j <= n && start == OnSlot(interval, bodies, j, n))
    && (forall j: nat :: j <= n ==> OnSlot(interval, bodies, j, n) <= start)
  }

  lemma MaxPlusStep(interval: real, bodies: seq<real>, n: nat, previous: real, start: real)
    requires 0 < n <= |bodies| && IsMaxPlus(interval, bodies, n - 1, previous)
    requires start == MaxReal(previous + bodies[n - 1], OnSlot(interval, bodies, n, n))
    ensures IsMaxPlus(interval, bodies, n, start)
  {
    forall j: nat | j <= n
      ensures OnSlot(interval, bodies, j, n) <= start
    {
      if j < n { OnSlotStep(interval, bodies, j, n); }
    }
    var j: nat :| j <= n - 1 && previous == OnSlot(interval, bodies, j, n - 1);
    OnSlotStep(interval, bodies, j, n);
    assert start == OnSlot(interval, bodies, j, n) || start == OnSlot(interval, bodies, n, n);
  }

  /** With an interval and no sleep time or timeout, attempt n+1 starts at exactly the
      maximum of `IsMaxPlus`. */
  lemma {:induction false} PacingLaw(count: Option<int>, interval: real, bodies: seq<real>, n: nat)
    requires n <= |bodies|
    ensures IsMaxPlus(interval, bodies, n, AttemptAt(Config(count, None, None, Some(interval)), bodies, n).elapsed)
  {
    var c := Config(count, None, None, Some(interval));
    assert bodies[n..n] == [];
    if n == 0 {
      assert AttemptAt(c, bodies, n).elapsed == OnSlot(interval, bodies, 0, 0);
    } else {
      PacingLaw(count, interval, bodies, n - 1);
      PacingStep(count, interval, bodies, n);
      MaxPlusStep(interval, bodies, n, AttemptAt(c, bodies, n - 1).elapsed, AttemptAt(c, bodies, n).elapsed);
    }
  }

  /** Pacing does not drift: bodies that fit in the interval start exactly on their slots. */
  lemma PacingNeverDrifts(count: Option<int>, interval: real, bodies: seq<real>, n: nat)
    requires n <= |bodies| && Durations(bodies)
    requires forall k :: 0 <= k < n ==> bodies[k] <= interval
    ensures AttemptAt(Config(count, None, None, Some(interval)), bodies, n).elapsed == Slot(n, interval)
  {
    PacingWithinTimeout(Config(count, None, None, Some(interval)), interval, bodies, n);
  }

  /** A timeout is overrun by less than the body of the attempt before. */
  lemma OverrunBound(c: Config, bodies: seq<real>, n: nat)
    requires 0 < n <= |bodies| && Durations(bodies) && c.timeout.Some?
    requires Reached(c, bodies, n)
    ensures AttemptAt(c, bodies, n).elapsed < c.timeout.value + bodies[n - 1]
  {
  }

  lemma {:induction false} ElapsedAtLeast(c: Config, bodies: seq<real>, n: nat, least: real)
    requires n <= |bodies| && (forall k :: 0 <= k < n ==> bodies[k] >= least)
    ensures AttemptAt(c, bodies, n).elapsed >= Slot(n, least)
  {
    if n == 0 {
    } else {
      ElapsedAtLeast(c, bodies, n - 1, least);
    }
  }

  lemma DivideLess(k: real, d: real, t: real)
    requires d > 0.0 && k * d < t
    ensures k < t / d
  {
  }

  /** Bodies of at least `least` seconds allow fewer than timeout/least + 2 attempts. */
  lemma AttemptsBoundedByTimeout(c: Config, bodies: seq<real>, n: nat, least: real)
    requires n <= |bodies| && least > 0.0 && (forall k :: 0 <= k < n ==> bodies[k] >= least)
    requires c.timeout.Some? && c.timeout.value >= 0.0 && Reached(c, bodies, n)
    ensures (n + 1) as real < c.timeout.value / least + 2.0
  {
    if n > 0 {
      assert !AttemptAt(c, bodies, n - 1).IsLast();
      ElapsedAtLeast(c, bodies, n - 1, least);
      SlotIsProduct(n - 1, least);
      DivideLess((n - 1) as real, least, c.timeout.value);
    }
  }

  lemma AttemptsBoundedByCount(c: Config, bodies: seq<real>, n: nat)
    requires n <= |bodies| && c.count.Some? && Reached(c, bodies, n)
    ensures n + 1 <= MaxInt(1, c.count.value)
  {
    if n > 0 {
      assert !AttemptAt(c, bodies, n - 1).IsLast();
    }
  }

  /** A timeout alone does not bound the attempts: when bodies take no time, the sleep that
      would reach the timeout is skipped, so the clock stays below it for ever. */
  lemma {:induction false} InstantBodiesNeverTimeOut(c: Config, bodies: seq<real>, n: nat)
    requires n <= |bodies| && (forall k :: 0 <= k < |bodies| ==> bodies[k] == 0.0)
    requires c.count.None? && c.timeout.Some? && c.timeout.value > 0.0
    ensures Reached(c, bodies, n) && AttemptAt(c, bodies, n).elapsed < c.timeout.value
  {
    if n == 0 {
    } else {
      InstantBodiesNeverTimeOut(c, bodies, n - 1);
    }
  }

  // ---------------------------------------------------------------- retry_on_exception

  /** What one call of the wrapped function does: return, raise one of the exceptions
      that are retried, or raise another one.  `complaint` is what the `on_exception`
      callback raises then, if there is one and it does. */
  datatype Call<+V, +X> = Returned(value: V) | Retried(error: X, complaint: Option<X>) | Propagated(error: X)

  /** Attempt `n + 1` of a run that starts at `origin`. */
  ghost function At(c: Config, bodies: seq<real>, n: nat, origin: real): Attempt
    requires n <= |bodies|
  {
    AttemptAt(c, bodies, n).(startTime := origin)
  }

  lemma ReachedMore(c: Config, bodies: seq<real>, n: nat)
    requires n < |bodies| && Reached(c, bodies, n) && !AttemptAt(c, bodies, n).IsLast()
    ensures Reached(c, bodies, n + 1)
  {
  }

  lemma LimitsAnywhere(c: Config, bodies: seq<real>, n: nat, origin: real)
    requires n <= |bodies|
    ensures At(c, bodies, n, origin).IsLast() <==> AttemptAt(c, bodies, n).IsLast()
  {
  }

  lemma ResumeAnywhere(c: Config, bodies: seq<real>, n: nat, origin: real)
    requires 0 < n <= |bodies|
    ensures At(c, bodies, n, origin)
            == Following(At(c, bodies, n - 1, origin), At(c, bodies, n - 1, origin).elapsed + bodies[n - 1])
  {
  }

  /** What ends the wrapper: None when it goes on with another attempt. */
  function Ending<V, X>(call: Call<V, X>, isLast: bool): Option<Outcome<V, X>> {
    match call
    case Returned(v) => Some(Ok(v))
    case Propagated(x) => Some(Raise(x))
    case Retried(x, complaint) =>
      if isLast then Some(Raise(x)) else if complaint.Some? then Some(Raise(complaint.value)) else None
  }

  /** One turn of the wrapper's loop. */
  method CallOnce<V, X>(loop: RetryLoop, call: Call<V, X>, body: real) returns (r: Option<Outcome<V, X>>, attempt: Attempt)
    requires loop.Valid() && body >= 0.0
    requires loop.state.Fresh? || (loop.state.Suspended? && !loop.state.attempt.IsLast())
    modifies loop`state, loop.clock
    ensures loop.Valid() && loop.state == Suspended(attempt)
    ensures attempt == match old(loop.state)
                       case Suspended(a) => Following(a, old(loop.clock.now) - a.startTime)
                       case _ => Attempt(1, old(loop.clock.now), 0.0, loop.config)
    ensures loop.clock.now == attempt.startTime + attempt.elapsed + body
    ensures r == Ending(call, attempt.IsLast())
  {
    var next := loop.Next();
    attempt := next.attempt;
    loop.clock.Sleep(body);
    match call {
      case Returned(v) => r := Some(Ok(v));
      case Propagated(x) => r := Some(Raise(x));
      case Retried(x, complaint) =>
        if attempt.IsLast() {
          r := Some(Raise(x));
        } else if complaint.Some? {
          r := Some(Raise(complaint.value));
        } else {
          r := None;
        }
    }
  }

  /** The wrapper made so many calls and goes on. */
  ghost predicate CalledSoFar(loop: RetryLoop, config: Config, bodies: seq<real>, calls: nat, origin: real)
    requires calls <= |bodies|
    reads loop, loop.clock
  {
    && loop.Valid() && loop.config == config
    && if calls == 0 then loop.state.Fresh? && loop.clock.now == origin
       else && loop.state == Suspended(At(config, bodies, calls - 1, origin))
            && loop.clock.now == origin + At(config, bodies, calls - 1, origin).elapsed + bodies[calls - 1]
  }

  method CallNext<V, X>(loop: RetryLoop, call: Call<V, X>, config: Config, bodies: seq<real>, calls: nat, ghost origin: real)
    returns (r: Option<Outcome<V, X>>)
    requires calls < |bodies| && bodies[calls] >= 0.0
    requires CalledSoFar(loop, config, bodies, calls, origin)
    requires calls > 0 ==> !AttemptAt(config, bodies, calls - 1).IsLast()
    modifies loop`state, loop.clock
    ensures r == Ending(call, AttemptAt(config, bodies, calls).IsLast())
    ensures CalledSoFar(loop, config, bodies, calls + 1, origin)
  {
    if calls > 0 {
      ResumeAnywhere(config, bodies, calls, origin);
      LimitsAnywhere(config, bodies, calls - 1, origin);
    }
    LimitsAnywhere(config, bodies, calls, origin);
    var attempt;
    r, attempt := CallOnce(loop, call, bodies[calls]);
    assert attempt == At(config, bodies, calls, origin);
  }

  /** The wrapper made by `retry_on_exception`, over a function and a callback that behave
      as `script` says: call k has the outcome `script[k]` and takes, with the callback,
      `bodies[k]` seconds.  The result is None when the wrapper is still retrying at the end
      of the script. */
  method RetryOnException<V, X>(config: Config, clock: Clock, script: seq<Call<V, X>>, bodies: seq<real>)
    returns (r: Option<Outcome<V, X>>, calls: nat)
    requires clock.Valid() && |bodies| == |script| && Durations(bodies)
    modifies clock
    ensures calls <= |script| && (r.None? ==> calls == |script|) && (r.Some? ==> calls > 0)
    ensures var before := calls - if r.Some? then 1 else 0;
            Reached(config, bodies, before) && forall k :: 0 <= k < before ==> script[k].Retried? && script[k].complaint.None?
    ensures r.Some? ==>
              match script[calls - 1]
              case Returned(v) => r.value == Ok(v)
              case Propagated(x) => r.value == Raise(x)
              case Retried(x, complaint) =>
                if AttemptAt(config, bodies, calls - 1).IsLast() then r.value == Raise(x)
                else complaint.Some? && r.value == Raise(complaint.value)
  {
    ghost var origin := clock.now;
    var loop := new RetryLoop(config, clock);
    calls := 0;
    r := None;
    while calls < |script|
      invariant calls <= |script| && r == None
      invariant fresh(loop) && loop.clock == clock && CalledSoFar(loop, config, bodies, calls, origin)
      invariant Reached(config, bodies, calls)
      invariant forall k :: 0 <= k < calls ==> script[k].Retried? && script[k].complaint.None?
    {
      r := CallNext(loop, script[calls], config, bodies, calls, origin);
      calls := calls + 1;
      if r.Some? { return; }
      ReachedMore(config, bodies, calls - 1);
    }
  }
}

/** Raising the quota limits of a project until they cover what is about to be created. */
module QuotaLimits {
  import opened Prelude
  import opened Retry

  datatype Quota = Quota(limit: int, used: int, reserved: int)

  type QuotaSet = map<string, Quota>

  type Limits = map<string, int>

  /** Nova and Neutron differ in when a limit counts as too low. */
  datatype Service = Nova | Neutron

  datatype Error = MissingQuota | LimitsError(actual: Limits, expected: Limits) | Foreign

  function RequiredLimit(q: Quota, needed: int): int {
    MaxInt(0, q.used) + MaxInt(0, q.reserved) + needed
  }

  /** The limit is to be raised; a negative limit means that there is none. */
  predicate Lacks(service: Service, q: Quota, needed: int) {
    && q.limit >= 0
    && (if service.Nova? then RequiredLimit(q, needed) >= q.limit else RequiredLimit(q, needed) > q.limit)
  }

  function Raised(service: Service, quotas: QuotaSet, required: Limits, extra: int): Limits {
    map name | name in required && name in quotas && Lacks(service, quotas[name], required[name])
      :: RequiredLimit(quotas[name], required[name]) + extra
  }

  /** A limit is written exactly if there is one and it is less than what is used, reserved
      and needed together, or just that much for Nova; what is written is that and the extra. */
  lemma RaisedExactly(service: Service, quotas: QuotaSet, required: Limits, extra: int, name: string)
    requires name in required && name in quotas
    ensures var q, raised := quotas[name], Raised(service, quotas, required, extra);
            var sum := MaxInt(0, q.used) + MaxInt(0, q.reserved) + required[name];
            && (name in raised <==> 0 <= q.limit && (q.limit < sum || (service.Nova? && q.limit == sum)))
            && (name in raised ==> raised[name] == sum + extra)
  {
  }

  /** Which limits are too low, and what they should be. */
  method GetQuotaLimitsIncrease(service: Service, quotas: QuotaSet, required: Limits, extra: int)
    returns (r: Outcome<(Limits, Limits), Error>)
    ensures r.Raise? <==> !(required.Keys <= quotas.Keys)
    ensures r.Raise? ==> r.error == MissingQuota
    ensures r.Ok? ==>
              && r.value.1 == Raised(service, quotas, required, extra)
              && r.value.0 == map name | name in r.value.1 :: quotas[name].limit
  {
    var actual: Limits, expected: Limits := map[], map[];
    var todo := required.Keys;
    while todo != {}
      invariant todo <= required.Keys && required.Keys - todo <= quotas.Keys
      invariant forall n :: n in expected <==>
                  n in required && n !in todo && Lacks(service, quotas[n], required[n])
      invariant forall n :: n in expected ==> expected[n] == RequiredLimit(quotas[n], required[n]) + extra
      invariant actual == map n | n in expected :: quotas[n].limit
      decreases todo
    {
      var name :| name in todo;
      if name !in quotas { return Raise(MissingQuota); }
      todo := todo - {name};
      var quota := quotas[name];
      if quota.limit >= 0 {
        var requiredLimit := MaxInt(0, quota.used) + MaxInt(0, quota.reserved) + required[name];
        var tooLow := if service == Nova then requiredLimit >= quota.limit else requiredLimit > quota.limit;
        if tooLow {
          actual := actual[name := quota.limit];
          expected := expected[name := requiredLimit + extra];
        }
      }
    }
    assert required.Keys <= quotas.Keys;
    assert expected == Raised(service, quotas, required, extra);
    r := Ok((actual, expected));
  }

  /** A call that reads the quotas or writes limits. */
  datatype Event = Read(answer: QuotaSet) | ReadFailed | Wrote(limits: Limits, failed: bool)

  predicate SameLimits(a: QuotaSet, b: QuotaSet) {
    a.Keys == b.Keys && forall n :: n in a ==> a[n].limit == b[n].limit
  }

  function WithLimits(quotas: QuotaSet, limits: Limits): QuotaSet {
    map n | n in quotas :: if n in limits then quotas[n].(limit := limits[n]) else quotas[n]
  }

  /** The quotas of one project.  Usage changes as it likes; limits are written by us only,
      and a write that does not raise takes effect. */
  class QuotaServer {
    const clock: Clock
    var quotas: QuotaSet
    var log: seq<Event>

    constructor (clock: Clock, quotas: QuotaSet)
      ensures this.clock == clock && this.quotas == quotas && log == []
    {
      this.clock := clock;
      this.quotas := quotas;
      this.log := [];
    }

    method Get() returns (r: Outcome<QuotaSet, Error>)
      requires clock.Valid()
      modifies this, clock
      ensures r.Ok? ==> r.value == quotas
      ensures r.Raise? ==> r.error == Foreign
      ensures log == old(log) + [if r.Ok? then Read(quotas) else ReadFailed]
      ensures SameLimits(quotas, old(quotas))
      ensures clock.now >= old(clock.now) + clock.tick
      ensures CalledOnce(old(clock.calls), clock.calls, old(clock.now))
    {
      clock.Work();
      var answer: QuotaSet := *;
      if SameLimits(answer, quotas) {
        quotas := answer;
      }
      var fails: bool := *;
      r := if fails then Raise(Foreign) else Ok(quotas);
      log := log + [if fails then ReadFailed else Read(quotas)];
    }

    method Set(limits: Limits) returns (raises: bool)
      requires clock.Valid()
      modifies this, clock
      ensures quotas == if raises then old(quotas) else WithLimits(old(quotas), limits)
      ensures log == old(log) + [Wrote(limits, raises)]
      ensures clock.now >= old(clock.now) + clock.tick
      ensures CalledOnce(old(clock.calls), clock.calls, old(clock.now))
    {
      clock.Work();
      raises := *;
      if !raises {
        quotas := WithLimits(quotas, limits);
      }
      log := log + [Wrote(limits, raises)];
    }
  }

  /** No limit was lowered, none was introduced, and only required ones changed. */
  ghost predicate OnlyRaised(before: QuotaSet, after: QuotaSet, required: Limits) {
    && before.Keys == after.Keys
    && forall n :: n in before ==>
         && after[n].limit >= before[n].limit
         && (before[n].limit < 0 || n !in required ==> after[n].limit == before[n].limit)
  }

  lemma WritesOnlyRaise(service: Service, quotas: QuotaSet, required: Limits, extra: nat)
    requires required.Keys <= quotas.Keys
    ensures OnlyRaised(quotas, WithLimits(quotas, Raised(service, quotas, required, extra)), required)
  {
  }

  lemma OnlyRaisedFrom(start: QuotaSet, now: QuotaSet, read: QuotaSet, next: QuotaSet, required: Limits)
    requires OnlyRaised(start, now, required) && SameLimits(read, now) && OnlyRaised(read, next, required)
    ensures OnlyRaised(start, next, required)
  {
  }

  function QuotaConfig(timeout: Option<real>, interval: Option<real>): Config {
    MakeRetry(None, NO_LIMITS.(timeout := timeout, interval := interval),
              NO_LIMITS.(timeout := Some(60.0), interval := Some(3.0)))
  }

  lemma QuotaLimitsOfLoop(timeout: Option<real>, interval: Option<real>)
    ensures var c := QuotaConfig(timeout, interval);
            && c.count == None && c.sleepTime == None
            && c.timeout == Some(if timeout.GetOr(0.0) != 0.0 then MaxReal(0.0, timeout.value) else 60.0)
            && c.interval == Some(if interval.GetOr(0.0) != 0.0 then MaxReal(0.0, interval.value) else 3.0)
  {
  }

  /** No required limit is too low. */
  ghost predicate Suffices(service: Service, quotas: QuotaSet, required: Limits) {
    required.Keys <= quotas.Keys && forall n :: n in required ==> !Lacks(service, quotas[n], required[n])
  }

  /** The quotas after the write of attempt `k`. */
  function Rewritten(service: Service, quotas: QuotaSet, required: Limits, k: nat): QuotaSet
    requires k > 0 && required.Keys <= quotas.Keys
  {
    WithLimits(quotas, Raised(service, quotas, required, 10 / k))
  }

  /** What a read is followed by after attempt `k`: the limits written then, unless that
      failed. */
  ghost predicate Follows(service: Service, required: Limits, read: QuotaSet, k: nat, failed: bool, next: QuotaSet) {
    && k > 0 && required.Keys <= read.Keys && !Suffices(service, read, required)
    && SameLimits(next, if failed then read else Rewritten(service, read, required, k))
  }

  lemma FollowsOnlyRaises(service: Service, required: Limits, read: QuotaSet, k: nat, failed: bool, next: QuotaSet)
    requires Follows(service, required, read, k, failed, next)
    ensures OnlyRaised(read, next, required)
  {
    WritesOnlyRaise(service, read, required, 10 / k);
  }

  /** What the loop's last read says about its result: all limits suffice, or some quota is
      missing, or the error tells which limits are too low.  Otherwise the read failed. */
  ghost predicate Ended(service: Service, required: Limits, quotas: QuotaSet, last: Event, r: Outcome<(), Error>) {
    match r
    case Ok(_) =>
      && last == Read(quotas)
      && forall n :: n in required ==>
           && n in quotas
           && var q := quotas[n];
              var sum := MaxInt(0, q.used) + MaxInt(0, q.reserved) + required[n];
              q.limit < 0 || sum < q.limit || (service.Neutron? && sum == q.limit)
    case Raise(MissingQuota) => last == Read(quotas) && !(required.Keys <= quotas.Keys)
    case Raise(LimitsError(actual, expected)) =>
      && last == Read(quotas) && required.Keys <= quotas.Keys
      && expected != map[] && actual.Keys == expected.Keys
      && forall n :: n in expected ==>
           && n in required && Lacks(service, quotas[n], required[n]) && actual[n] == quotas[n].limit
    case Raise(Foreign) => last == ReadFailed
  }

  /** Writes what is too low in what was just `read`; `again` when it did. */
  method RaiseLimits(service: Service, server: QuotaServer, required: Limits, attempt: Attempt, read: QuotaSet)
    returns (again: bool, r: Outcome<(), Error>, ghost failed: bool)
    requires server.clock.Valid() && read == server.quotas && attempt.number > 0
    modifies server, server.clock
    ensures again ==> !attempt.IsLast() && server.clock.now >= old(server.clock.now) + server.clock.tick
    ensures again ==> r.Ok? && Follows(service, required, read, attempt.number, failed, server.quotas)
    ensures again ==> server.log == old(server.log) + [Wrote(Raised(service, read, required, 10 / attempt.number), failed)]
    ensures !again ==> server.quotas == read && server.clock.now == old(server.clock.now) && server.log == old(server.log)
    ensures old(server.clock.calls) <= server.clock.calls
    ensures |server.clock.calls| == |old(server.clock.calls)| + if again then 1 else 0
    ensures !again ==> r != Raise(Foreign) && Ended(service, required, read, Read(read), r)
    ensures !again && r.Raise? && r.error.LimitsError? ==>
              attempt.IsLast() && r.error.expected == Raised(service, read, required, 10 / attempt.number)
  {
    failed := false;
    var increase := GetQuotaLimitsIncrease(service, read, required, 10 / attempt.number);
    if increase.Raise? { return false, Raise(increase.error), failed; }
    var (actual, expected) := increase.value;
    if expected == map[] {
      assert forall n :: n in required && Lacks(service, read[n], required[n]) ==> n in expected;
      return false, Ok(()), failed;
    }
    if attempt.IsLast() { return false, Raise(LimitsError(actual, expected)), failed; }
    assert exists n :: n in expected && n in required && Lacks(service, read[n], required[n]);
    var raises := server.Set(expected);
    again, r, failed := true, Ok(()), raises;
  }

  /** From `from` on every other call is a read, and begins at one of these times. */
  ghost predicate ReadsBegin(calls: seq<real>, from: nat, begins: seq<real>) {
    && from + 2 * |begins| <= |calls| + 1
    && forall k :: 0 <= k < |begins| ==> begins[k] == calls[from + 2 * k]
  }

  /** The reads of the loop are paced. */
  ghost predicate ReadsInPace(loop: RetryLoop, from: nat, begins: seq<real>)
    reads loop, loop.clock
  {
    ReadsBegin(loop.clock.calls, from, begins) && InPace(loop.config, loop.Start(), 1, begins, 0, loop.state)
  }

  lemma ReadsMore(calls: seq<real>, longer: seq<real>, from: nat, begins: seq<real>, more: seq<real>)
    requires ReadsBegin(calls, from, begins) && |calls| == from + 2 * |begins|
    requires calls < longer && CalledOnce(begins, more, longer[|calls|])
    ensures ReadsBegin(longer, from, more)
  {
  }

  /** One round of the loop below, `again` when it is to be followed by another one. */
  method QuotaRound(service: Service, server: QuotaServer, required: Limits, loop: RetryLoop, ghost from: nat,
                    ghost begins: seq<real>)
    returns (again: bool, r: Outcome<(), Error>, ghost read: QuotaSet, ghost failed: bool, ghost more: seq<real>)
    requires loop.Valid() && loop.clock == server.clock && loop.config.timeout.Some? && loop.config.count.None?
    requires loop.state.Fresh? || (loop.state.Suspended? && !loop.state.attempt.IsLast())
    requires ReadsInPace(loop, from, begins) && |server.clock.calls| == from + 2 * |begins|
    modifies loop`state, server, server.clock
    ensures ReadsInPace(loop, from, more) && (again ==> |server.clock.calls| == from + 2 * |more|)
    ensures loop.Valid() && loop.state.Suspended? && loop.Attempts() == old(loop.Attempts()) + 1
    ensures loop.Start() == old(loop.Start()) && old(server.clock.now) <= server.clock.now
    ensures again ==> !loop.state.attempt.IsLast() && loop.Remaining() < old(loop.Remaining())
    ensures again ==> r.Ok? && Follows(service, required, read, loop.Attempts(), failed, server.quotas)
    ensures again ==> Called(old(server.log), server.log, service, required, read, loop.Attempts(), failed)
    ensures again || r != Raise(Foreign) ==> SameLimits(read, old(server.quotas))
    ensures !again ==>
              exists last :: OneMore(old(server.log), server.log, last) && Ended(service, required, server.quotas, last, r)
    ensures !again && r != Raise(Foreign) ==> server.quotas == read
    ensures !again && r == Raise(Foreign) ==> SameLimits(server.quotas, old(server.quotas))
    ensures !again && r.Raise? && r.error.LimitsError? ==>
              && loop.state.attempt.IsLast()
              && r.error.expected == Raised(service, server.quotas, required, 10 / loop.Attempts())
  {
    ghost var elapsed := server.clock.now - loop.Start();
    ghost var state := loop.state;
    read, failed := map[], false;
    var next := loop.Next();
    var attempt := next.attempt;
    more := begins + [server.clock.now];
    PaceStep(loop.config, loop.Start(), 1, begins, 0, state, attempt, more);
    var got := server.Get();
    ReadsMore(old(server.clock.calls), server.clock.calls, from, begins, more);
    assert OneMore(old(server.log), server.log, if got.Ok? then Read(got.value) else ReadFailed);
    if got.Raise? { return false, Raise(got.error), read, failed, more; }
    read := got.value;
    assert SameLimits(read, old(server.quotas));
    again, r, failed := RaiseLimits(service, server, required, attempt, got.value);
    if again {
      LeftDecreases(attempt, elapsed, server.clock.now - attempt.startTime, server.clock.tick);
    }
  }

  /** The calls of attempt `k` when it is not the last one. */
  function Calls(service: Service, required: Limits, read: QuotaSet, k: nat, failed: bool): seq<Event>
    requires k > 0
  {
    [Read(read), Wrote(Raised(service, read, required, 10 / k), failed)]
  }

  ghost predicate OneMore(before: seq<Event>, after: seq<Event>, e: Event) {
    |after| == |before| + 1 && before <= after && after[|before|] == e
  }

  ghost predicate Grew(before: seq<Event>, after: seq<Event>, calls: seq<Event>) {
    && |after| == |before| + |calls| && before <= after
    && forall i :: 0 <= i < |calls| ==> after[|before| + i] == calls[i]
  }

  ghost predicate Called(before: seq<Event>, after: seq<Event>, service: Service, required: Limits,
                         read: QuotaSet, k: nat, failed: bool)
  {
    && k > 0 && |after| == |before| + 2 && before <= after
    && after[|before|] == Calls(service, required, read, k, failed)[0]
    && after[|before| + 1] == Calls(service, required, read, k, failed)[1]
  }

  function AllCalls(service: Service, required: Limits, seen: seq<QuotaSet>, failed: seq<bool>): seq<Event>
    requires |seen| >= |failed|
  {
    if failed == [] then []
    else
      var n := |failed| - 1;
      AllCalls(service, required, seen, failed[..n]) + Calls(service, required, seen[n], n + 1, failed[n])
  }

  lemma AllCallsGrow(service: Service, required: Limits, seen: seq<QuotaSet>, failed: seq<bool>, read: QuotaSet)
    requires |seen| >= |failed|
    ensures AllCalls(service, required, seen + [read], failed) == AllCalls(service, required, seen, failed)
  {
    if failed != [] {
      AllCallsGrow(service, required, seen, failed[..|failed| - 1], read);
    }
  }

  /** What the attempts of a run read: each read is followed by the next one. */
  ghost predicate IsTrace(service: Service, required: Limits, seen: seq<QuotaSet>, failed: seq<bool>) {
    && |failed| <= |seen| <= |failed| + 1
    && forall k :: 0 < k < |seen| ==> Follows(service, required, seen[k - 1], k, failed[k - 1], seen[k])
  }

  /** A run from `start` that read what is `seen` and has led to `now`. */
  ghost predicate OnTrace(service: Service, required: Limits, start: QuotaSet, seen: seq<QuotaSet>, failed: seq<bool>,
                          now: QuotaSet)
  {
    && IsTrace(service, required, seen, failed) && |seen| == |failed|
    && OnlyRaised(start, now, required)
    && if seen == [] then now == start
       else SameLimits(seen[0], start)
            && Follows(service, required, seen[|seen| - 1], |seen|, failed[|seen| - 1], now)
  }

  /** A run from `start` that goes on: it made the calls of its attempts so far. */
  ghost predicate RunGoing(service: Service, required: Limits, start: QuotaSet, before: seq<Event>,
                           seen: seq<QuotaSet>, failed: seq<bool>, quotas: QuotaSet, after: seq<Event>)
  {
    OnTrace(service, required, start, seen, failed, quotas) && Grew(before, after, AllCalls(service, required, seen, failed))
  }

  lemma TraceGrows(service: Service, required: Limits, start: QuotaSet, seen: seq<QuotaSet>, failed: seq<bool>,
                   now: QuotaSet, read: QuotaSet)
    requires OnTrace(service, required, start, seen, failed, now) && SameLimits(read, now)
    ensures IsTrace(service, required, seen + [read], failed) && SameLimits((seen + [read])[0], start)
  {
    if seen != [] {
      assert Follows(service, required, seen[|seen| - 1], |seen|, failed[|seen| - 1], read);
    }
  }

  lemma TraceMore(service: Service, required: Limits, start: QuotaSet, seen: seq<QuotaSet>, failed: seq<bool>,
                  now: QuotaSet, read: QuotaSet, fails: bool, next: QuotaSet)
    requires OnTrace(service, required, start, seen, failed, now) && SameLimits(read, now)
    requires Follows(service, required, read, |seen| + 1, fails, next)
    ensures OnTrace(service, required, start, seen + [read], failed + [fails], next)
  {
    TraceGrows(service, required, start, seen, failed, now, read);
    FollowsOnlyRaises(service, required, read, |seen| + 1, fails, next);
    OnlyRaisedFrom(start, now, read, next, required);
  }

  lemma CallsMore(service: Service, required: Limits, before: seq<Event>, seen: seq<QuotaSet>, failed: seq<bool>,
                  between: seq<Event>, read: QuotaSet, fails: bool, after: seq<Event>)
    requires |seen| == |failed| && Grew(before, between, AllCalls(service, required, seen, failed))
    requires Called(between, after, service, required, read, |seen| + 1, fails)
    ensures Grew(before, after, AllCalls(service, required, seen + [read], failed + [fails]))
  {
    AllCallsGrow(service, required, seen, failed, read);
    assert (failed + [fails])[..|failed|] == failed;
    GrewMore(before, between, after, AllCalls(service, required, seen, failed), Calls(service, required, read, |seen| + 1, fails));
  }

  lemma GrewMore(before: seq<Event>, between: seq<Event>, after: seq<Event>, calls: seq<Event>, more: seq<Event>)
    requires Grew(before, between, calls) && between <= after
    requires |more| == 2 && |after| == |between| + 2 && after[|between|] == more[0] && after[|between| + 1] == more[1]
    ensures Grew(before, after, calls + more)
  {
    forall i | 0 <= i < |calls + more|
      ensures after[|before| + i] == (calls + more)[i]
    {
      if i < |calls| { assert between[|before| + i] == calls[i]; }
    }
  }

  /** After another attempt that read and wrote. */
  lemma RunMore(service: Service, required: Limits, start: QuotaSet, before: seq<Event>, seen: seq<QuotaSet>,
                failed: seq<bool>, now: QuotaSet, between: seq<Event>, read: QuotaSet, fails: bool,
                next: QuotaSet, after: seq<Event>) returns (more: seq<QuotaSet>, moreFailed: seq<bool>)
    requires RunGoing(service, required, start, before, seen, failed, now, between) && SameLimits(read, now)
    requires Follows(service, required, read, |seen| + 1, fails, next)
    requires Called(between, after, service, required, read, |seen| + 1, fails)
    ensures RunGoing(service, required, start, before, more, moreFailed, next, after) && |more| == |seen| + 1
  {
    more, moreFailed := seen + [read], failed + [fails];
    TraceMore(service, required, start, seen, failed, now, read, fails, next);
    CallsMore(service, required, before, seen, failed, between, read, fails, after);
  }

  /** What the run leaves behind when it ends with `r`: the calls of its attempts, each of
      which read and wrote, and a last read. */
  ghost predicate RunEnded(service: Service, required: Limits, start: QuotaSet, before: seq<Event>,
                           seen: seq<QuotaSet>, failed: seq<bool>, quotas: QuotaSet, after: seq<Event>,
                           r: Outcome<(), Error>)
  {
    && OnlyRaised(start, quotas, required)
    && IsTrace(service, required, seen, failed) && (seen != [] ==> SameLimits(seen[0], start))
    && (r != Raise(Foreign) ==> seen != [] && seen[|seen| - 1] == quotas && |failed| < |seen|)
    && (r.Raise? && r.error.LimitsError? ==> r.error.expected == Raised(service, quotas, required, 10 / |seen|))
    && after != [] && Ended(service, required, quotas, after[|after| - 1], r)
    && Grew(before, after[..|after| - 1], AllCalls(service, required, seen, failed))
  }

  lemma RunEnds(service: Service, required: Limits, start: QuotaSet, before: seq<Event>, seen: seq<QuotaSet>,
                failed: seq<bool>, now: QuotaSet, between: seq<Event>, quotas: QuotaSet, after: seq<Event>, last: Event,
                r: Outcome<(), Error>) returns (all: seq<QuotaSet>)
    requires RunGoing(service, required, start, before, seen, failed, now, between) && SameLimits(quotas, now)
    requires OneMore(between, after, last) && Ended(service, required, quotas, last, r)
    requires r.Raise? && r.error.LimitsError? ==> r.error.expected == Raised(service, quotas, required, 10 / (|seen| + 1))
    ensures RunEnded(service, required, start, before, all, failed, quotas, after, r)
  {
    assert after[..|after| - 1] == between;
    if r == Raise(Foreign) {
      all := seen;
    } else {
      all := seen + [quotas];
      TraceGrows(service, required, start, seen, failed, now, quotas);
      AllCallsGrow(service, required, seen, failed, quotas);
    }
  }

  /** A round, and what it adds to the run. */
  method NextRound(service: Service, server: QuotaServer, required: Limits, loop: RetryLoop, ghost start: QuotaSet,
                   ghost before: seq<Event>, ghost from: nat, ghost seen: seq<QuotaSet>, ghost failed: seq<bool>,
                   ghost begins: seq<real>)
    returns (again: bool, r: Outcome<(), Error>, ghost seen': seq<QuotaSet>, ghost failed': seq<bool>,
             ghost begins': seq<real>)
    requires loop.Valid() && loop.clock == server.clock && loop.config.timeout.Some? && loop.config.count.None?
    requires loop.state.Fresh? || (loop.state.Suspended? && !loop.state.attempt.IsLast())
    requires RunGoing(service, required, start, before, seen, failed, server.quotas, server.log)
    requires |seen| == loop.Attempts()
    requires ReadsInPace(loop, from, begins) && |server.clock.calls| == from + 2 * |begins|
    modifies loop`state, server, server.clock
    ensures loop.Valid() && loop.state.Suspended? && loop.Start() == old(loop.Start())
    ensures old(server.clock.now) <= server.clock.now
    ensures again ==> !loop.state.attempt.IsLast() && loop.Remaining() < old(loop.Remaining())
    ensures ReadsInPace(loop, from, begins') && (again ==> |server.clock.calls| == from + 2 * |begins'|)
    ensures again ==> RunGoing(service, required, start, before, seen', failed', server.quotas, server.log)
    ensures again ==> |seen'| == loop.Attempts()
    ensures !again ==> RunEnded(service, required, start, before, seen', failed', server.quotas, server.log, r)
    ensures !again && r.Raise? && r.error.LimitsError? ==>
              server.clock.now - loop.Start() >= loop.config.timeout.value
  {
    ghost var now, log := server.quotas, server.log;
    ghost var read, fails;
    again, r, read, fails, begins' := QuotaRound(service, server, required, loop, from, begins);
    seen', failed' := seen, failed;
    if again {
      seen', failed' := RunMore(service, required, start, before, seen, failed, now, log, read, fails,
                                server.quotas, server.log);
    } else {
      ghost var last :| OneMore(log, server.log, last) && Ended(service, required, server.quotas, last, r);
      seen' := RunEnds(service, required, start, before, seen, failed, now, log, server.quotas, server.log, last, r);
    }
  }

  /** Reads the quotas, and raises those that are too low, until none is. */
  method RaiseUntilEnough(service: Service, server: QuotaServer, required: Limits, config: Config)
    returns (r: Outcome<(), Error>, ghost seen: seq<QuotaSet>, ghost failed: seq<bool>, ghost begins: seq<real>)
    requires server.clock.Valid() && config.timeout.Some? && config.count.None?
    modifies server, server.clock
    ensures RunEnded(service, required, old(server.quotas), old(server.log), seen, failed, server.quotas, server.log, r)
    ensures ReadsBegin(server.clock.calls, |old(server.clock.calls)|, begins)
    ensures Paced(config, old(server.clock.now), 1, begins, 0)
    ensures r.Raise? && r.error.LimitsError? ==> server.clock.now - old(server.clock.now) >= config.timeout.value
  {
    seen, failed, begins := [], [], [];
    ghost var start, before, from := server.quotas, server.log, |server.clock.calls|;
    var loop := new RetryLoop(config, server.clock);
    while true
      invariant loop.Valid() && fresh(loop) && loop.clock == server.clock && loop.config == config
      invariant loop.Start() == old(server.clock.now) <= server.clock.now
      invariant loop.state.Fresh? || (loop.state.Suspended? && !loop.state.attempt.IsLast())
      invariant RunGoing(service, required, start, before, seen, failed, server.quotas, server.log)
      invariant |seen| == loop.Attempts()
      invariant ReadsInPace(loop, from, begins) && |server.clock.calls| == from + 2 * |begins|
      decreases loop.Remaining()
    {
      var again;
      again, r, seen, failed, begins := NextRound(service, server, required, loop, start, before, from, seen, failed, begins);
      if !again { break; }
    }
  }

  /** Nothing is asked when nothing is required. */
  method EnsureQuotaLimits(service: Service, server: QuotaServer, required: Limits,
                           timeout: Option<real>, interval: Option<real>)
    returns (r: Outcome<(), Error>, ghost seen: seq<QuotaSet>, ghost failed: seq<bool>, ghost begins: seq<real>)
    requires server.clock.Valid()
    modifies server, server.clock
    ensures required == map[] ==> r.Ok? && server.quotas == old(server.quotas) && server.log == old(server.log)
    ensures required != map[] ==>
              RunEnded(service, required, old(server.quotas), old(server.log), seen, failed, server.quotas, server.log, r)
    ensures ReadsBegin(server.clock.calls, |old(server.clock.calls)|, begins)
    ensures Paced(QuotaConfig(timeout, interval), old(server.clock.now), 1, begins, 0)
    ensures r.Raise? && r.error.LimitsError? ==>
              server.clock.now - old(server.clock.now) >= QuotaConfig(timeout, interval).timeout.value
  {
    r, seen, failed, begins := Ok(()), [], [], [];
    if required != map[] {
      r, seen, failed, begins := RaiseUntilEnough(service, server, required, QuotaConfig(timeout, interval));
    }
  }

  /** How the limits of one project or user were ensured. */
  ghost predicate Ensured(service: Service, required: Limits, before: QuotaSet, after: QuotaSet, log: seq<Event>,
                          longer: seq<Event>, r: Outcome<(), Error>)
  {
    && OnlyRaised(before, after, required)
    && |longer| > |log| && Ended(service, required, after, longer[|longer| - 1], r)
  }

  method EnsureNova(server: QuotaServer, required: Limits, timeout: Option<real>, interval: Option<real>)
    returns (r: Outcome<(), Error>)
    requires server.clock.Valid() && required != map[]
    modifies server, server.clock
    ensures Ensured(Nova, required, old(server.quotas), server.quotas, old(server.log), server.log, r)
  {
    ghost var seen, failed, begins;
    r, seen, failed, begins := EnsureQuotaLimits(Nova, server, required, timeout, interval);
  }

  /** Nova's limits of a user are ensured after those of the user's project. */
  method EnsureNovaQuotaLimits(project: QuotaServer, user: Option<QuotaServer>, required: Limits,
                               timeout: Option<real>, interval: Option<real>)
    returns (r: Outcome<(), Error>)
    requires project.clock.Valid() && (user.Some? ==> user.value.clock == project.clock && user.value != project)
    modifies project, project.clock, if user.Some? then {user.value} else {}
    ensures required == map[] ==> r.Ok? && project.log == old(project.log) && project.quotas == old(project.quotas)
    ensures required != map[] && user.None? ==>
              Ensured(Nova, required, old(project.quotas), project.quotas, old(project.log), project.log, r)
    ensures required != map[] && user.Some? ==>
              exists first ::
                && Ensured(Nova, required, old(project.quotas), project.quotas, old(project.log), project.log, first)
                && if first.Ok? then
                     Ensured(Nova, required, old(user.value.quotas), user.value.quotas, old(user.value.log), user.value.log, r)
                   else r == first && user.value.log == old(user.value.log) && user.value.quotas == old(user.value.quotas)
    ensures required == map[] && user.Some? ==>
              user.value.log == old(user.value.log) && user.value.quotas == old(user.value.quotas)
  {
    if required == map[] { return Ok(()); }
    if user.Some? {
      r := EnsureNova(project, required, None, None);
      ghost var first := r;
      assert Ensured(Nova, required, old(project.quotas), project.quotas, old(project.log), project.log, first);
      if r.Ok? {
        r := EnsureNova(user.value, required, timeout, interval);
      }
      assert Ensured(Nova, required, old(project.quotas), project.quotas, old(project.log), project.log, first);
    } else {
      r := EnsureNova(project, required, timeout, interval);
    }
  }

  // ---------------------------------------------------------------- does a write suffice?

  /** The quota after a write at attempt `k` of the limit for the usage read then. */
  function Written(q: Quota, needed: int, k: nat): Quota
    requires k > 0
  {
    q.(limit := RequiredLimit(q, needed) + 10 / k)
  }

  /** A write at attempt k ends the loop exactly while usage has grown by at most 10//k for
      Neutron, but by less than 10//k for Nova. */
  lemma WriteSuffices(service: Service, q: Quota, needed: int, k: nat, used: int, reserved: int)
    requires k > 0 && RequiredLimit(q, needed) >= 0
    ensures var later := Written(q, needed, k).(used := used, reserved := reserved);
            var growth := RequiredLimit(later, needed) - RequiredLimit(q, needed);
            !Lacks(service, later, needed) <==> (if service.Nova? then growth < 10 / k else growth <= 10 / k)
  {
  }

  datatype Usage = Usage(used: int, reserved: int)

  /** The limit that attempt `n + 1` reads when the attempts read the usage `usage[0]`,
      `usage[1]`, ..., and all their writes take effect. */
  function LimitAt(service: Service, needed: int, start: int, usage: seq<Usage>, n: nat): int
    requires n <= |usage|
  {
    if n == 0 then start
    else
      var q := Quota(LimitAt(service, needed, start, usage, n - 1), usage[n - 1].used, usage[n - 1].reserved);
      if Lacks(service, q, needed) then Written(q, needed, n).limit else q.limit
  }

  /** What attempt `n` reads. */
  function ReadAt(service: Service, needed: int, start: int, usage: seq<Usage>, n: nat): Quota
    requires 0 < n <= |usage|
  {
    Quota(LimitAt(service, needed, start, usage, n - 1), usage[n - 1].used, usage[n - 1].reserved)
  }

  predicate LacksAt(service: Service, needed: int, start: int, usage: seq<Usage>, n: nat)
    requires 0 < n <= |usage|
  {
    Lacks(service, ReadAt(service, needed, start, usage, n), needed)
  }

  /** While usage does not change, Neutron lacks nothing after a write.  Nor does Nova if the
      write was made at one of the first ten attempts; a later write leaves nothing to spare,
      so every later attempt finds the limit too low again and the loop can only fail. */
  lemma {:induction false} SteadyUsage(service: Service, needed: int, start: int, usage: seq<Usage>, n: nat, m: nat)
    requires 0 < n < m <= |usage| && LacksAt(service, needed, start, usage, n)
    requires forall i :: n - 1 <= i < m ==> usage[i] == usage[n - 1]
    ensures LacksAt(service, needed, start, usage, m) <==> service.Nova? && n > 10
    ensures LacksAt(service, needed, start, usage, m) ==>
              LimitAt(service, needed, start, usage, m) == RequiredLimit(ReadAt(service, needed, start, usage, n), needed)
  {
    assert if n <= 10 then 10 / n > 0 else 10 / n == 0;
    assert n > 10 ==> 10 / m == 0;
    if m == n + 1 {
    } else {
      SteadyUsage(service, needed, start, usage, n, m - 1);
      if service.Nova? && n > 10 {
        assert 10 / (m - 1) == 0;
      } else {
        NothingLacking(service, needed, start, usage, m - 1);
      }
    }
  }

  /** An attempt that lacks nothing leaves the limit as it is. */
  lemma NothingLacking(service: Service, needed: int, start: int, usage: seq<Usage>, n: nat)
    requires 0 < n <= |usage| && !LacksAt(service, needed, start, usage, n)
    ensures LimitAt(service, needed, start, usage, n) == LimitAt(service, needed, start, usage, n - 1)
  {
  }

  /** After the tenth attempt Nova's writes set the limit to exactly what is required. */
  lemma LateWritesLeaveNothing(needed: int, start: int, usage: seq<Usage>, n: nat, m: nat)
    requires 10 < n <= m <= |usage| && LacksAt(Nova, needed, start, usage, n)
    requires forall i :: n - 1 <= i < m ==> usage[i] == usage[n - 1]
    ensures LimitAt(Nova, needed, start, usage, m) == RequiredLimit(ReadAt(Nova, needed, start, usage, n), needed)
  {
    if m == n {
      assert 10 / n == 0;
    } else {
      SteadyUsage(Nova, needed, start, usage, n, m);
    }
  }

  // ---------------------------------------------------------------- the same in a run of the loop

  /** All writes of the run took effect. */
  ghost predicate AllWritten(service: Service, required: Limits, seen: seq<QuotaSet>, failed: seq<bool>) {
    IsTrace(service, required, seen, failed) && forall k :: 0 <= k < |failed| ==> !failed[k]
  }

  function UsageOf(seen: seq<QuotaSet>, name: string): (usage: seq<Usage>)
    requires forall k :: 0 <= k < |seen| ==> name in seen[k]
    ensures |usage| == |seen|
  {
    seq(|seen|, k requires 0 <= k < |seen| => Usage(seen[k][name].used, seen[k][name].reserved))
  }

  /** The attempts of a run read what `ReadAt` says. */
  lemma {:induction false} RunReads(service: Service, required: Limits, seen: seq<QuotaSet>, failed: seq<bool>, name: string, n: nat)
    requires AllWritten(service, required, seen, failed) && name in required && 0 < n <= |seen|
    requires forall k :: 0 <= k < |seen| ==> name in seen[k]
    ensures seen[n - 1][name] == ReadAt(service, required[name], seen[0][name].limit, UsageOf(seen, name), n)
  {
    if n == 1 {
    } else {
      RunReads(service, required, seen, failed, name, n - 1);
      assert Follows(service, required, seen[n - 2], n - 1, failed[n - 2], seen[n - 1]);
    }
  }

  /** In a run whose writes all take effect, a limit that was too low at attempt n and whose
      usage does not change since is too low at a later one exactly for Nova and n > 10; the
      run does not end normally then. */
  lemma SteadyRun(service: Service, required: Limits, seen: seq<QuotaSet>, failed: seq<bool>, name: string,
                  n: nat, m: nat)
    requires AllWritten(service, required, seen, failed) && name in required && 0 < n < m <= |seen|
    requires forall k :: 0 <= k < |seen| ==> name in seen[k]
    requires Lacks(service, seen[n - 1][name], required[name])
    requires var usage := UsageOf(seen, name); forall i :: n - 1 <= i < m ==> usage[i] == usage[n - 1]
    ensures Lacks(service, seen[m - 1][name], required[name]) <==> service.Nova? && n > 10
    ensures service.Nova? && n > 10 ==> !Suffices(service, seen[m - 1], required)
  {
    RunReads(service, required, seen, failed, name, n);
    RunReads(service, required, seen, failed, name, m);
    SteadyUsage(service, required[name], seen[0][name].limit, UsageOf(seen, name), n, m);
  }
}

/** The Heat stack fixture: polling a stack's status, deleting it, and creating it again
    and again until one is being created. */
module HeatStack {
  import opened Prelude
  import opened Retry
  import opened HeatProtocol
  import opened HeatRuns

  /** The Heat client: every answer is arbitrary, every call is logged and takes time. */
  class HeatClient {
    const clock: Clock
    ghost const origin: Option<Stack>
    var log: seq<Event>

    ghost predicate Valid()
      reads this, clock
    {
      clock.Valid() && Legal(origin, log)
    }

    ghost function Books(): Ledger
      reads this
    {
      Replay(origin, log)
    }

    constructor (clock: Clock, ghost cached: Option<Stack>)
      requires clock.Valid()
      ensures Valid() && this.clock == clock && origin == cached && log == []
    {
      this.clock := clock;
      this.origin := cached;
      this.log := [];
    }

    method Call(e: Event)
      requires Valid() && Allowed(Books(), e)
      modifies this`log, clock
      ensures Valid() && OneMore(old(log), log, e) && Books() == Book(old(Books()), e)
      ensures clock.now >= old(clock.now) + clock.tick
      ensures CalledOnce(old(clock.calls), clock.calls, old(clock.now))
    {
      clock.Work();
      log := log + [e];
      assert log[..|log| - 1] == old(log);
    }

    method Get() returns (r: Outcome<Option<Stack>, Error>)
      requires Valid()
      modifies this`log, clock
      ensures r.Raise? ==> r.error == Foreign
      ensures var e := if r.Ok? then Got(r.value) else GetFailed;
              Valid() && OneMore(old(log), log, e) && Books() == Book(old(Books()), e)
      ensures clock.now >= old(clock.now) + clock.tick
      ensures CalledOnce(old(clock.calls), clock.calls, old(clock.now))
    {
      var answer: Option<Stack> := *;
      var fails: bool := *;
      r := if fails then Raise(Foreign) else Ok(answer);
      Call(if fails then GetFailed else Got(answer));
    }

    method Create() returns (r: Outcome<Option<StackId>, Error>)
      requires Valid() && Books().readiness.Ready?
      modifies this`log, clock
      ensures r.Raise? ==> r.error == Foreign
      ensures var e := if r.Raise? then CreateFailed else if r.value.Some? then Created(r.value.value) else CreateConflict;
              Valid() && OneMore(old(log), log, e) && Books() == Book(old(Books()), e)
      ensures clock.now >= old(clock.now) + clock.tick
    {
      var id: Option<StackId> := *;
      var fails: bool := *;
      r := if fails then Raise(Foreign) else Ok(id);
      Call(if fails then CreateFailed else if id.Some? then Created(id.value) else CreateConflict);
    }

    /** Template parameters, quota limits and external resources, just before creating. */
    method Prepare() returns (r: Outcome<(), Error>)
      requires Valid()
      modifies this`log, clock
      ensures r.Raise? ==> r.error == QuotaLimits || r.error == Foreign
      ensures var e := if r.Ok? then Prepared else PrepareFailed;
              Valid() && OneMore(old(log), log, e) && Books() == Book(old(Books()), e)
      ensures clock.now >= old(clock.now) + clock.tick
    {
      var fails: bool := *;
      var lacksQuota: bool := *;
      r := if !fails then Ok(()) else if lacksQuota then Raise(QuotaLimits) else Raise(Foreign);
      Call(if fails then PrepareFailed else Prepared);
    }

    /** A stack that is not found counts as deleted. */
    method Delete(target: Target) returns (r: Outcome<(), Error>)
      requires Valid() && Allowed(Books(), DeleteAsked(target, false))
      modifies this`log, clock
      ensures r.Raise? ==> r.error == Foreign
      ensures Valid() && OneMore(old(log), log, DeleteAsked(target, r.Raise?))
              && Books() == Book(old(Books()), DeleteAsked(target, r.Raise?))
      ensures clock.now >= old(clock.now) + clock.tick
    {
      var fails: bool := *;
      r := if fails then Raise(Foreign) else Ok(());
      Call(DeleteAsked(target, fails));
    }
  }

  // ---------------------------------------------------------------- judging a status

  function CheckStackStatus(stack: Stack, expected: set<Status>): (r: Outcome<Status, Error>)
    ensures r.Ok? <==> stack.status in expected
    ensures r.Ok? ==> r.value == stack.status
    ensures r.Raise? ==> r.error.IsInvalidFixture() && !r.error.QuotaLimits? && r.error.observed == stack.status
    ensures r.Raise? ==>
              && (r.error.CreationFailed? <==>
                    stack.status == Status(CREATE, FAILED) && exists s :: s in expected && s.action == CREATE && s.phase in {IN_PROGRESS, COMPLETE})
              && (r.error.DeletionFailed? <==>
                    stack.status == Status(DELETE, FAILED) && exists s :: s in expected && s.action == DELETE && s.phase in {IN_PROGRESS, COMPLETE})
  {
    var status := stack.status;
    if status in expected then Ok(status)
    else if status == CREATE_FAILED && (CREATE_IN_PROGRESS in expected || CREATE_COMPLETE in expected) then
      Raise(CreationFailed(status))
    else if status == DELETE_FAILED && (DELETE_IN_PROGRESS in expected || DELETE_COMPLETE in expected) then
      Raise(DeletionFailed(status))
    else Raise(InvalidStatus(status))
  }

  /** A stack that is not there counts as deleted. */
  function StatusOf(observed: Option<Stack>): Status {
    match observed
    case None => DELETE_COMPLETE
    case Some(stack) => stack.status
  }

  /** A status worth waiting on. */
  predicate Pending(observed: Option<Stack>, expected: set<Status>) {
    StatusOf(observed) !in expected && StatusOf(observed).phase.IN_PROGRESS?
  }

  ghost predicate AllPending(observations: seq<Option<Stack>>, expected: set<Status>) {
    forall o :: o in observations ==> Pending(o, expected)
  }

  function Verdict(observed: Option<Stack>, expected: set<Status>, check: bool): (r: Outcome<Option<Stack>, Error>)
    ensures r.Ok? ==> r.value == observed
    ensures check ==> (r.Ok? <==> StatusOf(observed) in expected)
    ensures !check ==> r.Ok?
    ensures r.Raise? ==> if observed.None? then r.error.StackNotFound? else r.error.IsInvalidFixture()
  {
    if !check then Ok(observed)
    else
      match observed
      case None => if DELETE_COMPLETE !in expected then Raise(StackNotFound) else Ok(None)
      case Some(stack) =>
        match CheckStackStatus(stack, expected)
        case Raise(e) => Raise(e)
        case Ok(_) => Ok(observed)
  }

  /** What a wait looks at: the cached stack first, if there is one to use, then the
      answers of its look-ups. */
  ghost function Observations(cached: bool, stack: Option<Stack>, looks: seq<Option<Stack>>): seq<Option<Stack>> {
    if cached && stack.Some? then [stack] + looks else looks
  }

  /** The log grew by these look-ups, then one that failed if `failed`, and no other call. */
  ghost predicate Looked(before: seq<Event>, after: seq<Event>, looks: seq<Option<Stack>>, failed: bool) {
    && |after| == |before| + |looks| + (if failed then 1 else 0)
    && before <= after
    && (forall i :: 0 <= i < |looks| ==> after[|before| + i] == Got(looks[i]))
    && (failed ==> after[|after| - 1] == GetFailed)
  }

  /** The wait made these look-ups and ended with `r`: with a look-up that failed, or on the
      last observation; all that it saw before was worth waiting on. */
  ghost predicate Polled(before: seq<Event>, after: seq<Event>, cached: bool, stack: Option<Stack>,
                         looks: seq<Option<Stack>>, r: Outcome<Option<Stack>, Error>, expected: set<Status>)
  {
    && Looked(before, after, looks, r.Raise?)
    && var observations := Observations(cached, stack, looks);
       match r
       case Raise(error) => error == Foreign && AllPending(observations, expected)
       case Ok(last) =>
         && observations != [] && last == observations[|observations| - 1]
         && AllPending(observations[..|observations| - 1], expected)
  }

  /** The wait goes on, and looks at the cached stack next if `first`. */
  ghost predicate Polling(before: seq<Event>, after: seq<Event>, cached: bool, first: bool, stack: Option<Stack>,
                          looks: seq<Option<Stack>>, expected: set<Status>)
  {
    && Looked(before, after, looks, false)
    && if first then cached && looks == [] else AllPending(Observations(cached, stack, looks), expected)
  }

  lemma LookedMore(before: seq<Event>, asked: seq<Event>, after: seq<Event>, looks: seq<Option<Stack>>, o: Option<Stack>)
    requires Looked(before, asked, looks, false) && OneMore(asked, after, Got(o))
    ensures Looked(before, after, looks + [o], false)
  {
  }

  lemma ObservedMore(cached: bool, stack: Option<Stack>, looks: seq<Option<Stack>>, o: Option<Stack>)
    ensures var observations := Observations(cached, stack, looks + [o]);
            && observations != [] && observations[|observations| - 1] == o
            && observations[..|observations| - 1] == Observations(cached, stack, looks)
            && observations == Observations(cached, stack, looks) + [o]
  {
  }

  /** One more observation either ends the wait or is worth waiting on. */
  lemma PollMore(before: seq<Event>, asked: seq<Event>, after: seq<Event>, cached: bool, first: bool,
                 stack: Option<Stack>, looks: seq<Option<Stack>>, r: Outcome<Option<Stack>, Error>, expected: set<Status>)
      returns (more: seq<Option<Stack>>)
    requires Polling(before, asked, cached, first, stack, looks, expected)
    requires r.Raise? ==> r.error == Foreign
    requires if first && stack.Some? then r == Ok(stack) && after == asked
             else OneMore(asked, after, if r.Ok? then Got(r.value) else GetFailed)
    ensures after == asked ==> more == looks
    ensures Polled(before, after, cached, stack, more, r, expected)
    ensures r.Ok? && Pending(r.value, expected) ==> Polling(before, after, cached, false, stack, more, expected)
  {
    more := looks;
    if !(first && stack.Some?) && r.Ok? {
      more := looks + [r.value];
      LookedMore(before, asked, after, looks, r.value);
      ObservedMore(cached, stack, looks, r.value);
    }
  }

  /** The log grew by look-ups only. */
  ghost predicate OnlyLooks(before: seq<Event>, after: seq<Event>) {
    before <= after && forall i :: |before| <= i < |after| ==> after[i].Got? || after[i].GetFailed?
  }

  lemma LookedOnlyLooks(before: seq<Event>, after: seq<Event>, looks: seq<Option<Stack>>, failed: bool)
    requires Looked(before, after, looks, failed)
    ensures OnlyLooks(before, after)
  {
    forall i | |before| <= i < |after|
      ensures after[i].Got? || after[i].GetFailed?
    {
      var k := i - |before|;
      if k < |looks| { assert after[|before| + k] == Got(looks[k]); }
    }
  }

  /** Only look-ups separate the two ledgers. */
  ghost predicate SameAccounts(l: Ledger, m: Ledger) {
    l == m.(cache := l.cache, seen := l.seen, readiness := l.readiness)
  }

  ghost predicate AtMostOneMore(before: set<StackId>, after: set<StackId>) {
    after <= before || exists id :: after <= before + {id}
  }

  /** What one attempt leaves behind: at most one create call, and an id that it returned
      is the id of the returned stack, or has been asked to be deleted, or the attempt ended
      in an exception other than `InvalidFixtureError`. */
  ghost predicate Settled(before: Ledger, after: Ledger, r: Outcome<Stack, Error>) {
    && after.nameDeletes == before.nameDeletes
    && before.creates <= after.creates <= before.creates + 1
    && (r.Ok? ==> after.seen == Some(r.value) && r.value.status in EXPECTED_CREATED_STATUS
                  && after.orphans <= before.orphans + {r.value.id})
    && (r.Raise? && r.error.IsInvalidFixture() ==> after.orphans <= before.orphans)
    && AtMostOneMore(before.orphans, after.orphans)
  }

  /** What all attempts leave behind: at most one create call each, and a deletion by name
      between them; an id that was created is that of the returned stack or has been asked to
      be deleted, unless another kind of exception leaves. */
  ghost predicate Accounted(before: Ledger, after: Ledger, attempts: nat, r: Outcome<Stack, Error>) {
    && before.creates <= after.creates <= before.creates + attempts
    && (attempts > 0 ==> || after.nameDeletes == before.nameDeletes + attempts - 1
                         || (r == Raise(Foreign) && after.nameDeletes == before.nameDeletes + attempts))
    && (r.Ok? ==> after.seen == Some(r.value) && r.value.status in EXPECTED_CREATED_STATUS
                  && after.orphans <= before.orphans + {r.value.id})
    && (r.Raise? && r.error.IsInvalidFixture() ==> after.orphans <= before.orphans)
    && AtMostOneMore(before.orphans, after.orphans)
  }

  /** What a round leaves behind: another round follows after a deletion by name. */
  ghost predicate RoundSettled(before: Ledger, after: Ledger, again: bool, r: Outcome<Stack, Error>) {
    && before.creates <= after.creates <= before.creates + 1
    && if again then after.orphans <= before.orphans && after.nameDeletes == before.nameDeletes + 1
       else
         && Settled(before, after.(nameDeletes := before.nameDeletes), r)
         && (|| after.nameDeletes == before.nameDeletes
             || (r == Raise(Foreign) && after.nameDeletes == before.nameDeletes + 1))
  }

  const EXPECTED_CREATED_STATUS := {CREATE_IN_PROGRESS, CREATE_COMPLETE}

  const FIRST_EXPECTED := {CREATE_COMPLETE, CREATE_FAILED, CREATE_IN_PROGRESS, DELETE_COMPLETE, DELETE_FAILED}

  // ---------------------------------------------------------------- waits in the log

  lemma LookedAt(before: seq<Event>, after: seq<Event>, looks: seq<Option<Stack>>, failed: bool, i: nat)
    requires Looked(before, after, looks, failed) && |before| <= i < |before| + |looks|
    ensures after[i] == Got(looks[i - |before|])
  {
  }

  lemma PendingIsBusy(observations: seq<Option<Stack>>, expected: set<Status>, i: nat)
    requires AllPending(observations, expected) && i < |observations|
    ensures expected == EXPECTED_CREATED_STATUS || expected == FIRST_EXPECTED ==> Busy(observations[i])
    ensures expected == {DELETE_COMPLETE} ==> observations[i].Some?
  {
    assert observations[i] in observations;
  }

  /** The waits of an attempt are those that its log is described by. */
  lemma LookedIsWaited(stack: Option<Stack>, before: seq<Event>, after: seq<Event>, looks: seq<Option<Stack>>,
                       expected: set<Status>)
    requires expected == EXPECTED_CREATED_STATUS || expected == FIRST_EXPECTED
    requires Looked(before, after, looks, false)
    requires var observations := Observations(true, stack, looks);
             observations != [] && AllPending(observations[..|observations| - 1], expected)
    ensures Waited(stack, after, |before|, |after|)
    ensures var observations := Observations(true, stack, looks);
            Observed(stack, after, |before|, |after|) == observations[|observations| - 1]
  {
    var observations := Observations(true, stack, looks);
    var seen := observations[..|observations| - 1];
    var skipped := if stack.Some? then 1 else 0;
    forall i | |before| <= i < |after|
      ensures after[i].Got? && (i < |after| - 1 ==> Busy(after[i].answer))
    {
      LookedAt(before, after, looks, false, i);
      if i < |after| - 1 { PendingIsBusy(seen, expected, i - |before| + skipped); }
    }
    if stack.Some? && looks != [] { PendingIsBusy(seen, expected, 0); }
  }

  lemma LookedIsFailed(stack: Option<Stack>, before: seq<Event>, after: seq<Event>, looks: seq<Option<Stack>>,
                       expected: set<Status>)
    requires expected == EXPECTED_CREATED_STATUS || expected == FIRST_EXPECTED
    requires Looked(before, after, looks, true) && AllPending(Observations(true, stack, looks), expected)
    ensures WaitFailed(stack, after, |before|, |after|)
  {
    var observations := Observations(true, stack, looks);
    var skipped := if stack.Some? then 1 else 0;
    forall i | |before| <= i < |after| - 1
      ensures after[i].Got? && Busy(after[i].answer)
    {
      LookedAt(before, after, looks, true, i);
      PendingIsBusy(observations, expected, i - |before| + skipped);
    }
    if stack.Some? { PendingIsBusy(observations, expected, 0); }
  }

  /** While a wait for the deletion goes on, there is a stack. */
  lemma LookedIsThere(cached: bool, stack: Option<Stack>, before: seq<Event>, after: seq<Event>,
                      looks: seq<Option<Stack>>, failed: bool)
    requires Looked(before, after, looks, failed)
    requires if failed then AllPending(Observations(cached, stack, looks), {DELETE_COMPLETE})
             else var observations := Observations(cached, stack, looks);
                  observations != [] && AllPending(observations[..|observations| - 1], {DELETE_COMPLETE})
    ensures if failed then StillThere(after, |before|, |after| - 1)
            else var observations := Observations(cached, stack, looks);
                 if observations[|observations| - 1].Some? then StillThere(after, |before|, |after|)
                 else GoneAt(after, |before|, |after|)
  {
    var observations := Observations(cached, stack, looks);
    var skipped := if cached && stack.Some? then 1 else 0;
    var seen := if failed then observations else observations[..|observations| - 1];
    forall i | |before| <= i < |before| + |seen| - skipped
      ensures after[i].Got? && after[i].answer.Some?
    {
      LookedAt(before, after, looks, failed, i);
      PendingIsBusy(seen, {DELETE_COMPLETE}, i - |before| + skipped);
    }
    if !failed && looks != [] { LookedAt(before, after, looks, failed, |after| - 1); }
  }

  lemma LastAnswerIsCached(origin: Option<Stack>, log: seq<Event>)
    ensures log != [] && log[|log| - 1].Got? ==> Replay(origin, log).cache == log[|log| - 1].answer
  {
  }

  lemma WaitedStays(cached: Option<Stack>, log: seq<Event>, longer: seq<Event>, from: nat)
    requires log <= longer && Waited(cached, log, from, |log|)
    ensures Waited(cached, longer, from, |log|)
    ensures Observed(cached, longer, from, |log|) == Observed(cached, log, from, |log|)
  {
  }

  lemma ClearedStays(stack: Stack, log: seq<Event>, longer: seq<Event>, from: nat)
    requires log <= longer && Cleared(stack, log, from, |log|, Ok(()))
    ensures Cleared(stack, longer, from, |log|, Ok(()))
  {
  }

  lemma WatchedLonger(before: seq<Event>, after: seq<Event>, from: nat, r: Outcome<Option<Stack>, Error>)
    requires before <= after && StillThere(before, from, |before|) && Watched(after, |before|, |after|, r)
    ensures Watched(after, from, |after|, r)
  {
  }

  class HeatStackFixture {
    const client: HeatClient
    const retryCount: int
    const retryTimeout: real
    const waitTimeout: real
    const waitInterval: real
    var stack: Option<Stack>

    /** The cached stack is what the log of calls says it is; waits and retries are limited. */
    ghost predicate Valid()
      reads this, client, client.clock
    {
      && client.Valid()
      && stack == client.Books().cache
      && (stack.Some? ==> client.Books().seen == stack)
      && waitTimeout > 0.0
      && (retryCount != 0 || retryTimeout > 0.0)
    }

    constructor (client: HeatClient, retryCount: int, retryTimeout: real, waitTimeout: real, waitInterval: real)
      requires client.Valid() && waitTimeout > 0.0 && (retryCount != 0 || retryTimeout > 0.0)
      requires client.Books().cache == None
      ensures Valid() && this.client == client && stack == None
      ensures this.retryCount == retryCount && this.retryTimeout == retryTimeout
      ensures this.waitTimeout == waitTimeout && this.waitInterval == waitInterval
    {
      this.client := client;
      this.retryCount := retryCount;
      this.retryTimeout := retryTimeout;
      this.waitTimeout := waitTimeout;
      this.waitInterval := waitInterval;
      this.stack := None;
    }

    method GetStack() returns (r: Outcome<Option<Stack>, Error>)
      requires Valid()
      modifies this`stack, client`log, client.clock
      ensures Valid()
      ensures r.Ok? ==> stack == r.value
      ensures r.Raise? ==> r.error == Foreign && stack == old(stack)
      ensures var e := if r.Ok? then Got(r.value) else GetFailed;
              OneMore(old(client.log), client.log, e) && client.Books() == Book(old(client.Books()), e)
      ensures client.clock.now >= old(client.clock.now) + client.clock.tick
      ensures CalledOnce(old(client.clock.calls), client.clock.calls, old(client.clock.now))
    {
      r := client.Get();
      if r.Ok? {
        stack := r.value;
      }
    }

    /** The fixture's `stack_id`: the cached stack's id, or else the stack's name. */
    function OwnTarget(): Target
      reads this
    {
      match stack
      case Some(cached) => ById(cached.id)
      case None => ByName
    }

    /** Forgets the cached stack, then deletes by the given id, or else by name. */
    method DeleteStack(id: Option<StackId>) returns (r: Outcome<(), Error>)
      requires Valid() && (id.Some? ==> Allowed(client.Books(), DeleteAsked(ById(id.value), false)))
      modifies this`stack, client`log, client.clock
      ensures Valid() && stack == None
      ensures r.Raise? ==> r.error == Foreign
      ensures var e := DeleteAsked(if id.Some? then ById(id.value) else ByName, r.Raise?);
              OneMore(old(client.log), client.log, e) && client.Books() == Book(old(client.Books()), e)
      ensures client.clock.now >= old(client.clock.now) + client.clock.tick
    {
      stack := None;
      var target := if id.Some? then ById(id.value) else OwnTarget();
      r := client.Delete(target);
    }

    function WaitConfig(timeout: Option<real>, interval: Option<real>): Config {
      MakeRetry(None, NO_LIMITS.(timeout := timeout, interval := interval),
                NO_LIMITS.(timeout := Some(waitTimeout), interval := Some(waitInterval)))
    }

    /** A wait takes the limits that it is given, or else the fixture's, and has no count. */
    lemma WaitLimits(timeout: Option<real>, interval: Option<real>)
      requires waitTimeout > 0.0
      ensures var c := WaitConfig(timeout, interval);
              && c.count == None && c.sleepTime == None
              && c.timeout == Some(if timeout.GetOr(0.0) != 0.0 then MaxReal(0.0, timeout.value) else waitTimeout)
              && c.interval == Some(MaxReal(0.0, if interval.GetOr(0.0) != 0.0 then interval.value else waitInterval))
    {
    }

    /** Attempts have the fixture's limits, or else those of the given retry, and no interval
        other than the given one's. */
    lemma CreateLimits(retry: Option<Config>)
      ensures var c := CreateConfig(retry);
              && (retryCount != 0 ==> c.count == Some(retryCount))
              && (retryCount == 0 ==> c.count == if retry.Some? && retry.value.count != Some(0) then retry.value.count else None)
              && (retryTimeout > 0.0 ==> c.timeout == Some(retryTimeout))
              && (c.interval.GetOr(0.0) > 0.0 ==> retry.Some? && c.interval == retry.value.interval)
    {
    }

    /** One look at the stack: the cached one if it may be used, or else a fresh one. */
    method Observe(useCached: bool) returns (r: Outcome<Option<Stack>, Error>)
      requires Valid()
      modifies this`stack, client`log, client.clock
      ensures Valid() && SameAccounts(client.Books(), old(client.Books()))
      ensures r.Ok? ==> stack == r.value
      ensures r.Raise? ==> r.error == Foreign && stack == old(stack)
      ensures if useCached && old(stack).Some? then
                r == Ok(old(stack)) && client.log == old(client.log) && client.clock.now == old(client.clock.now)
                && client.clock.calls == old(client.clock.calls)
              else
                && OneMore(old(client.log), client.log, if r.Ok? then Got(r.value) else GetFailed)
                && (r.Ok? ==> client.Books().seen == r.value)
                && (r == Ok(None) ==> client.Books().readiness.Absent?)
                && client.clock.now >= old(client.clock.now) + client.clock.tick
                && CalledOnce(old(client.clock.calls), client.clock.calls, old(client.clock.now))
    {
      if useCached && stack.Some? {
        r := Ok(stack);
      } else {
        r := GetStack();
      }
    }

    /** One attempt of a poll: resume the retry loop, then look. */
    method Look(loop: RetryLoop, useCached: bool, ghost first: nat, ghost from: nat)
      returns (attempt: Attempt, r: Outcome<Option<Stack>, Error>)
      requires Valid() && loop.Valid() && loop.clock == client.clock && Limited(loop.config)
      requires loop.state.Fresh? || (loop.state.Suspended? && !loop.state.attempt.IsLast())
      requires InPace(loop.config, loop.Start(), first, client.clock.calls, from, loop.state)
      requires (first == 2 && loop.state.Fresh?) <==> (useCached && stack.Some?)
      modifies loop`state, this`stack, client`log, client.clock
      ensures Valid() && loop.Valid() && loop.state == Suspended(attempt) && attempt.config == loop.config
      ensures attempt.number == loop.Attempts() == old(loop.Attempts()) + 1
      ensures attempt.startTime == loop.Start() == old(loop.Start())
      ensures old(client.clock.now) <= attempt.startTime + attempt.elapsed <= client.clock.now
      ensures SameAccounts(client.Books(), old(client.Books()))
      ensures r.Ok? ==> stack == r.value
      ensures r.Raise? ==> r.error == Foreign && stack == old(stack)
      ensures if useCached && old(stack).Some? then
                && r == Ok(old(stack)) && client.log == old(client.log)
              else
                && OneMore(old(client.log), client.log, if r.Ok? then Got(r.value) else GetFailed)
                && (r == Ok(None) ==> client.Books().readiness.Absent?)
                && client.clock.now >= old(client.clock.now) + client.clock.tick
                && (!attempt.IsLast() ==> loop.Remaining() < old(loop.Remaining()))
      ensures InPace(loop.config, loop.Start(), first, client.clock.calls, from, loop.state)
    {
      ghost var elapsed, state := client.clock.now - loop.Start(), loop.state;
      var next := loop.Next();
      attempt := next.attempt;
      r := Observe(useCached);
      PaceStep(loop.config, loop.Start(), first, old(client.clock.calls), from, state, attempt, client.clock.calls);
      if !attempt.IsLast() && client.clock.now >= attempt.startTime + attempt.elapsed + client.clock.tick {
        LeftDecreases(attempt, elapsed, client.clock.now - attempt.startTime, client.clock.tick);
      }
    }

    /** The same in a poll that made these `looks` so far; `more` are those with this one. */
    method LookMore(loop: RetryLoop, useCached: bool, ghost first: nat, ghost from: nat, ghost before: seq<Event>,
                    ghost cached: bool, ghost stack0: Option<Stack>, ghost looks: seq<Option<Stack>>, expected: set<Status>)
      returns (attempt: Attempt, r: Outcome<Option<Stack>, Error>, ghost more: seq<Option<Stack>>)
      requires Valid() && loop.Valid() && loop.clock == client.clock && Limited(loop.config)
      requires loop.state.Fresh? || (loop.state.Suspended? && !loop.state.attempt.IsLast())
      requires InPace(loop.config, loop.Start(), first, client.clock.calls, from, loop.state)
      requires (first == 2 && loop.state.Fresh?) <==> (useCached && stack.Some?)
      requires Polling(before, client.log, cached, useCached, stack0, looks, expected)
      requires useCached ==> stack == stack0
      modifies loop`state, this`stack, client`log, client.clock
      ensures Valid() && loop.Valid() && loop.state == Suspended(attempt) && attempt.config == loop.config
      ensures attempt.startTime == loop.Start() == old(loop.Start())
      ensures old(client.clock.now) <= attempt.startTime + attempt.elapsed <= client.clock.now
      ensures SameAccounts(client.Books(), old(client.Books()))
      ensures r.Ok? ==> stack == r.value
      ensures Polled(before, client.log, cached, stack0, more, r, expected)
      ensures r.Ok? && Pending(r.value, expected) ==> Polling(before, client.log, cached, false, stack0, more, expected)
      ensures more == looks || client.clock.now >= old(client.clock.now) + client.clock.tick
      ensures r == Ok(None) ==> client.Books().readiness.Absent?
      ensures !useCached && !attempt.IsLast() ==> loop.Remaining() < old(loop.Remaining())
      ensures InPace(loop.config, loop.Start(), first, client.clock.calls, from, loop.state)
    {
      ghost var asked := client.log;
      attempt, r := Look(loop, useCached, first, from);
      more := PollMore(before, asked, client.log, cached, useCached, stack0, looks, r, expected);
    }

    /** Looks again and again until the status is expected or no longer in progress, or
        until the attempt that looked is the last one. */
    method Poll(expected: set<Status>, cached: bool, config: Config)
      returns (r: Outcome<Option<Stack>, Error>, ghost looks: seq<Option<Stack>>)
      requires Valid() && config.timeout.Some?
      modifies this`stack, client`log, client.clock
      ensures Valid() && SameAccounts(client.Books(), old(client.Books()))
      ensures Polled(old(client.log), client.log, cached, old(stack), looks, r, expected)
      ensures client.clock.now >= old(client.clock.now) + if looks != [] then client.clock.tick else 0.0
      ensures Paced(config, old(client.clock.now), if cached && old(stack).Some? then 2 else 1, client.clock.calls,
                    |old(client.clock.calls)|)
      ensures r.Ok? ==> stack == r.value
      ensures r.Ok? && Pending(stack, expected) && config.count.None? ==>
                client.clock.now - old(client.clock.now) >= config.timeout.value
      ensures r == Ok(None) ==> client.Books().readiness.Absent?
    {
      var loop := new RetryLoop(config, client.clock);
      var useCached := cached;
      looks := [];
      ghost var start, first, from := client.clock.now, if cached && stack.Some? then 2 else 1, |client.clock.calls|;
      ghost var before, stack0 := client.log, stack;
      while true
        invariant Valid() && fresh(loop) && loop.Valid() && loop.clock == client.clock && loop.config == config
        invariant loop.state.Fresh? || (loop.state.Suspended? && !loop.state.attempt.IsLast())
        invariant loop.Start() == start
        invariant SameAccounts(client.Books(), old(client.Books()))
        invariant Polling(before, client.log, cached, useCached, stack0, looks, expected)
        invariant client.clock.now >= start + if looks != [] then client.clock.tick else 0.0
        invariant InPace(config, start, first, client.clock.calls, from, loop.state)
        invariant if loop.state.Fresh? then useCached == cached && stack == stack0 else !useCached
        decreases if useCached then 1 else 0, loop.Remaining()
      {
        var attempt;
        attempt, r, looks := LookMore(loop, useCached, first, from, before, cached, stack0, looks, expected);
        useCached := false;
        if r.Raise? || !Pending(r.value, expected) || attempt.IsLast() { break; }
      }
    }

    method WaitForStackStatus(expected: set<Status>, check: bool, cached: bool,
                              timeout: Option<real>, interval: Option<real>)
      returns (r: Outcome<Option<Stack>, Error>, ghost looks: seq<Option<Stack>>)
      requires Valid()
      modifies this`stack, client`log, client.clock
      ensures Valid() && SameAccounts(client.Books(), old(client.Books()))
      ensures Looked(old(client.log), client.log, looks, r == Raise(Foreign))
      ensures client.clock.now >= old(client.clock.now) + if looks != [] then client.clock.tick else 0.0
      ensures Paced(WaitConfig(timeout, interval), old(client.clock.now), if cached && old(stack).Some? then 2 else 1,
                    client.clock.calls, |old(client.clock.calls)|)
      ensures r == Raise(Foreign) ==> AllPending(Observations(cached, old(stack), looks), expected)
      ensures var observations := Observations(cached, old(stack), looks);
              r != Raise(Foreign) ==>
                && observations != []
                && stack == observations[|observations| - 1]
                && AllPending(observations[..|observations| - 1], expected)
                && r == Verdict(stack, expected, check)
                && (Pending(stack, expected) ==>
                      client.clock.now - old(client.clock.now) >= WaitConfig(timeout, interval).timeout.value)
      ensures r == Ok(None) ==> client.Books().readiness.Absent?
    {
      r, looks := Poll(expected, cached, WaitConfig(timeout, interval));
      if r.Ok? {
        r := Verdict(r.value, expected, check);
      }
    }

    method WaitForDeleteComplete(check: bool, cached: bool, timeout: Option<real>, interval: Option<real>)
      returns (r: Outcome<Option<Stack>, Error>, ghost looks: seq<Option<Stack>>)
      requires Valid()
      modifies this`stack, client`log, client.clock
      ensures Valid() && SameAccounts(client.Books(), old(client.Books()))
      ensures OnlyLooks(old(client.log), client.log)
      ensures client.clock.now >= old(client.clock.now)
      ensures !cached ==> client.clock.now >= old(client.clock.now) + client.clock.tick || r == Raise(Foreign)
      ensures r != Raise(Foreign) ==> r == Verdict(stack, {DELETE_COMPLETE}, check)
      ensures Watched(client.log, |old(client.log)|, |client.log|, r)
      ensures r != Raise(Foreign) && Pending(stack, {DELETE_COMPLETE}) ==>
                client.clock.now - old(client.clock.now) >= WaitConfig(timeout, interval).timeout.value
      ensures r == Ok(None) ==> client.Books().readiness.Absent?
    {
      r, looks := WaitForStackStatus({DELETE_COMPLETE}, check, cached, timeout, interval);
      assert !cached ==> Observations(cached, old(stack), looks) == looks;
      LookedIsThere(cached, old(stack), old(client.log), client.log, looks, r == Raise(Foreign));
      LookedOnlyLooks(old(client.log), client.log, looks, r == Raise(Foreign));
    }

    /** One attempt of the wait below: resume the retry loop, then wait for the time left. */
    method AwaitDeletion(loop: RetryLoop, check: bool, useCached: bool, ghost from: nat)
      returns (attempt: Attempt, r: Outcome<Option<Stack>, Error>)
      requires Valid() && loop.Valid() && loop.clock == client.clock && Limited(loop.config)
      requires loop.state.Fresh? || (loop.state.Suspended? && !loop.state.attempt.IsLast())
      requires StillThere(client.log, from, |client.log|)
      modifies loop`state, this`stack, client`log, client.clock
      ensures Valid() && loop.Valid() && loop.state == Suspended(attempt) && attempt.config == loop.config
      ensures attempt.startTime == loop.Start() == old(loop.Start())
      ensures old(client.clock.now) <= attempt.startTime + attempt.elapsed <= client.clock.now
      ensures SameAccounts(client.Books(), old(client.Books()))
      ensures OnlyLooks(old(client.log), client.log)
      ensures r != Raise(Foreign) ==> r == Verdict(stack, {DELETE_COMPLETE}, check)
      ensures Watched(client.log, from, |client.log|, r)
      ensures r != Raise(Foreign) && from < |client.log| ==> client.log[|client.log| - 1] == Got(stack)
      ensures r != Raise(Foreign) && Pending(stack, {DELETE_COMPLETE}) && loop.config.timeout.Some? ==>
                client.clock.now - loop.Start() >= loop.config.timeout.value
      ensures r == Ok(None) ==> client.Books().readiness.Absent?
      ensures !useCached && r.Ok? && !attempt.IsLast() ==> loop.Remaining() < old(loop.Remaining())
    {
      ghost var elapsed := client.clock.now - loop.Start();
      var next := loop.Next();
      attempt := next.attempt;
      ghost var looks;
      r, looks := WaitForDeleteComplete(check, useCached, attempt.TimeLeft(), attempt.config.interval);
      WatchedLonger(old(client.log), client.log, from, r);
      LastAnswerIsCached(client.origin, client.log);
      if !useCached && r.Ok? && !attempt.IsLast() {
        LeftDecreases(attempt, elapsed, client.clock.now - attempt.startTime, client.clock.tick);
      }
    }

    /** Returns normally only when a look-up finds that the stack is gone. */
    method WaitUntilStackDeleted(check: bool, cached: bool, timeout: Option<real>, interval: Option<real>)
      returns (r: Outcome<(), Error>)
      requires Valid()
      modifies this`stack, client`log, client.clock
      ensures Valid() && SameAccounts(client.Books(), old(client.Books()))
      ensures OnlyLooks(old(client.log), client.log)
      ensures client.clock.now >= old(client.clock.now)
      ensures r.Ok? ==> stack == None && client.Books().readiness.Absent?
      ensures r == Raise(StillPresent) ==>
                && StatusOf(stack) == DELETE_COMPLETE && stack.Some?
                && client.clock.now - old(client.clock.now) >= WaitConfig(timeout, interval).timeout.value
      ensures r.Raise? && r.error.IsInvalidFixture() ==>
                stack.Some? && stack.value.status != DELETE_COMPLETE && !r.error.QuotaLimits?
                && r.error == if stack.value.status == DELETE_FAILED || !check then DeletionFailed(stack.value.status)
                              else InvalidStatus(stack.value.status)
      ensures check ==> Vanished(client.log, |old(client.log)|, |client.log|, r)
      ensures Watched(client.log, |old(client.log)|, |client.log|, if r.Ok? then Ok(None) else Raise(r.error))
      ensures GaveUp(r) ==> client.clock.now - old(client.clock.now) >= WaitConfig(timeout, interval).timeout.value
    {
      var loop := new RetryLoop(WaitConfig(timeout, interval), client.clock);
      var useCached := cached;
      while true
        invariant Valid() && fresh(loop) && loop.Valid() && loop.clock == client.clock
        invariant loop.config == WaitConfig(timeout, interval)
        invariant loop.state.Fresh? || (loop.state.Suspended? && !loop.state.attempt.IsLast())
        invariant loop.Start() == old(client.clock.now) <= client.clock.now
        invariant SameAccounts(client.Books(), old(client.Books()))
        invariant OnlyLooks(old(client.log), client.log)
        invariant StillThere(client.log, |old(client.log)|, |client.log|)
        decreases if useCached then 1 else 0, loop.Remaining()
      {
        var attempt, found := AwaitDeletion(loop, check, useCached, |old(client.log)|);
        if found.Raise? { return Raise(found.error); }
        if found.value.None? { return Ok(()); }
        var status := found.value.value.status;
        if status != DELETE_COMPLETE { return Raise(DeletionFailed(status)); }
        if attempt.IsLast() { return Raise(StillPresent); }
        useCached := false;
      }
    }

    method ValidateCreatedStack() returns (r: Outcome<Stack, Error>)
      requires Valid()
      modifies this`stack, client`log, client.clock
      ensures Valid() && SameAccounts(client.Books(), old(client.Books()))
      ensures OnlyLooks(old(client.log), client.log)
      ensures client.clock.now >= old(client.clock.now)
      ensures r.Ok? ==> stack == Some(r.value)
      ensures Validated(old(stack), client.log, |old(client.log)|, |client.log|, r)
      ensures GaveUp(r) ==> client.clock.now - old(client.clock.now) >= waitTimeout
    {
      var found;
      ghost var looks;
      found, looks := WaitForStackStatus(EXPECTED_CREATED_STATUS, true, true, None, None);
      LookedOnlyLooks(old(client.log), client.log, looks, found == Raise(Foreign));
      if found == Raise(Foreign) {
        LookedIsFailed(old(stack), old(client.log), client.log, looks, EXPECTED_CREATED_STATUS);
      } else {
        LookedIsWaited(old(stack), old(client.log), client.log, looks, EXPECTED_CREATED_STATUS);
      }
      r := match found
        case Raise(e) => Raise(e)
        case Ok(observed) => Ok(observed.value);
    }

    /** Deletes the stack if it failed, then waits until it is gone. */
    method ClearStack(observed: Stack) returns (r: Outcome<(), Error>)
      requires Valid() && stack == Some(observed)
      modifies this`stack, client`log, client.clock
      ensures Valid() && client.clock.now >= old(client.clock.now)
      ensures old(client.log) <= client.log
      ensures r.Ok? ==> stack == None && client.Books().readiness.Absent?
      ensures var before, after := old(client.Books()), client.Books();
              && after.nameDeletes == before.nameDeletes && after.creates == before.creates
              && after.created == before.created && after.orphans <= before.orphans
      ensures Cleared(observed, client.log, |old(client.log)|, |client.log|, r)
      ensures GaveUp(r) ==> client.clock.now - old(client.clock.now) >= waitTimeout
    {
      if observed.status.phase == FAILED {
        var deleted := DeleteStack(Some(observed.id));
        if deleted.Raise? { return Raise(deleted.error); }
      }
      r := WaitUntilStackDeleted(true, true, None, None);
    }

    /** Validates the stack of this name after creating the one with this id, which is asked
        to be deleted when it is not the one found or is not valid. */
    method AdoptStack(id: StackId) returns (r: Outcome<Stack, Error>)
      requires Valid() && id in client.Books().created && stack == None
      modifies this`stack, client`log, client.clock
      ensures Valid() && client.clock.now >= old(client.clock.now)
      ensures old(client.log) <= client.log
      ensures var before, after := old(client.Books()), client.Books();
              && after.nameDeletes == before.nameDeletes && after.creates == before.creates
              && after.orphans <= before.orphans
              && (r.Ok? ==> after.seen == Some(r.value) && r.value.status in EXPECTED_CREATED_STATUS)
              && ((r.Ok? && id != r.value.id) || (r.Raise? && r.error.IsInvalidFixture()) ==>
                    after.orphans == before.orphans - {id})
      ensures r.Ok? ==> stack == if id == r.value.id then Some(r.value) else None
      ensures Adopted(id, client.log, |old(client.log)|, r)
      ensures GaveUp(r) ==> client.clock.now - old(client.clock.now) >= waitTimeout
    {
      r := ValidateCreatedStack();
      if r.Raise? {
        if r.error.IsInvalidFixture() {
          var deleted := DeleteStack(Some(id));
          if deleted.Raise? { r := Raise(deleted.error); }
        }
        return;
      }
      if id != r.value.id {
        var deleted := DeleteStack(Some(id));
        if deleted.Raise? { r := Raise(deleted.error); }
      }
    }

    method CreateNewStack() returns (r: Outcome<Stack, Error>)
      requires Valid() && stack == None && client.Books().readiness.Absent?
      modifies this`stack, client`log, client.clock
      ensures Valid() && client.clock.now >= old(client.clock.now)
      ensures old(client.log) <= client.log
      ensures CreationRun(client.log, |old(client.log)|, r)
      ensures GaveUp(r) ==> client.clock.now - old(client.clock.now) >= waitTimeout
      ensures Settled(old(client.Books()), client.Books(), r)
      ensures r.Ok? ==> stack == Some(r.value) || stack == None
    {
      ghost var orphans := client.Books().orphans;
      var prepared := client.Prepare();
      if prepared.Raise? { return Raise(prepared.error); }
      var created := client.Create();
      if created.Raise? { return Raise(created.error); }
      if created.value.None? {
        r := ValidateCreatedStack();
      } else {
        var id := created.value.value;
        r := AdoptStack(id);
        assert client.Books().orphans <= orphans + {id};
      }
    }

    /** What follows the first wait, if the stack's status is an expected one. */
    method Proceed() returns (r: Outcome<Stack, Error>)
      requires Valid() && StatusOf(stack) in FIRST_EXPECTED && (stack == None ==> client.Books().readiness.Absent?)
      modifies this`stack, client`log, client.clock
      ensures Valid() && old(client.log) <= client.log
      ensures client.clock.now >= old(client.clock.now)
      ensures Settled(old(client.Books()), client.Books(), r)
      ensures r.Ok? ==> stack == Some(r.value) || stack == None
      ensures FoundRun(old(stack), client.log, |old(client.log)|, r)
      ensures GaveUp(r) ==> client.clock.now - old(client.clock.now) >= waitTimeout
    {
      if stack.Some? {
        var observed := stack.value;
        if observed.status in {CREATE_IN_PROGRESS, CREATE_COMPLETE} {
          r := ValidateCreatedStack();
          return;
        }
        var cleared := ClearStack(observed);
        if cleared.Raise? { return Raise(cleared.error); }
      }
      assert stack == None;
      ghost var log := client.log;
      r := CreateNewStack();
      if old(stack).Some? {
        ClearedStays(old(stack).value, log, client.log, |old(client.log)|);
      }
    }

    /** One attempt to get a stack created. */
    method TryCreateStack() returns (r: Outcome<Stack, Error>)
      requires Valid()
      modifies this`stack, client`log, client.clock
      ensures Valid() && old(client.log) <= client.log
      ensures client.clock.now >= old(client.clock.now)
      ensures Settled(old(client.Books()), client.Books(), r)
      ensures r.Ok? ==> stack == Some(r.value) || stack == None
      ensures AttemptRun(old(stack), client.log, |old(client.log)|, r)
      ensures GaveUp(r) ==> client.clock.now - old(client.clock.now) >= waitTimeout
    {
      var found;
      ghost var looks;
      found, looks := WaitForStackStatus(FIRST_EXPECTED, true, true, None, None);
      LookedOnlyLooks(old(client.log), client.log, looks, found == Raise(Foreign));
      if found == Raise(Foreign) {
        LookedIsFailed(old(stack), old(client.log), client.log, looks, FIRST_EXPECTED);
        return Raise(Foreign);
      }
      LookedIsWaited(old(stack), old(client.log), client.log, looks, FIRST_EXPECTED);
      ghost var log, seen := client.log, stack;
      if found.Raise? {
        r := Raise(found.error);
      } else {
        r := Proceed();
      }
      WaitedStays(old(stack), log, client.log, |old(client.log)|);
      assert FoundRun(seen, client.log, |log|, r);
    }

    function CreateConfig(retry: Option<Config>): Config {
      MakeRetry(retry, Config(Some(retryCount), Some(retryTimeout), None, Some(0.0)), NO_LIMITS)
    }

    /** Tries once; `again` if the attempt ended in an invalid fixture and was not the last
        one, and then the stack was deleted by name. */
    method TryAndDelete(isLast: bool) returns (again: bool, r: Outcome<Stack, Error>)
      requires Valid()
      modifies this`stack, client`log, client.clock
      ensures Valid()
      ensures old(client.clock.now) <= client.clock.now
      ensures RoundSettled(old(client.Books()), client.Books(), again, r)
      ensures old(client.log) <= client.log
      ensures if again then stack == None && DeletedRun(old(stack), client.log, |old(client.log)|, false)
              else LastRun(old(stack), client.log, |old(client.log)|, r)
      ensures !again && GaveUp(r) ==> client.clock.now - old(client.clock.now) >= waitTimeout
      ensures again ==> !isLast && client.clock.now >= old(client.clock.now) + client.clock.tick
      ensures !again && r.Raise? && r.error.IsInvalidFixture() ==> isLast
      ensures r.Ok? ==> !again && (stack == Some(r.value) || stack == None)
    {
      r := TryCreateStack();
      again := r.Raise? && r.error.IsInvalidFixture() && !isLast;
      if again {
        ghost var log := client.log;
        var deleted := DeleteStack(None);
        assert client.log[..|client.log| - 1] == log;
        if deleted.Raise? { return false, Raise(deleted.error); }
        var sleepTime: real := *;
        client.clock.Sleep(sleepTime);
      }
    }

    /** One round of the loop below; `again` when it is to be followed by another one. */
    method CreationRound(loop: RetryLoop) returns (again: bool, r: Outcome<Stack, Error>)
      requires Valid() && loop.Valid() && loop.clock == client.clock && Limited(loop.config)
      requires loop.state.Fresh? || (loop.state.Suspended? && !loop.state.attempt.IsLast())
      modifies loop`state, this`stack, client`log, client.clock
      ensures Valid() && loop.Valid() && loop.state.Suspended?
      ensures loop.Attempts() == old(loop.Attempts()) + 1 && loop.Start() == old(loop.Start())
      ensures old(client.clock.now) <= client.clock.now
      ensures RoundSettled(old(client.Books()), client.Books(), again, r)
      ensures old(client.log) <= client.log
      ensures if again then stack == None && DeletedRun(old(stack), client.log, |old(client.log)|, false)
              else LastRun(old(stack), client.log, |old(client.log)|, r)
      ensures !again && GaveUp(r) ==> client.clock.now - old(client.clock.now) >= waitTimeout
      ensures again ==> !loop.state.attempt.IsLast() && loop.Remaining() < old(loop.Remaining())
      ensures !again && r.Raise? && r.error.IsInvalidFixture() ==> loop.state.attempt.IsLast()
      ensures r.Ok? ==> !again && (stack == Some(r.value) || stack == None)
    {
      ghost var elapsed := client.clock.now - loop.Start();
      var next := loop.Next();
      var attempt := next.attempt;
      again, r := TryAndDelete(attempt.IsLast());
      if again {
        LeftDecreases(attempt, elapsed, client.clock.now - attempt.startTime, client.clock.tick);
      }
    }

    /** Attempts to create the stack until an attempt does not end in an invalid fixture,
        deleting the stack by name after each one that does. */
    method CreateInRounds(config: Config)
      returns (r: Outcome<Stack, Error>, ghost attempts: nat, ghost last: nat)
      requires Valid() && Limited(config)
      modifies this`stack, client`log, client.clock
      ensures Valid() && old(client.log) <= client.log
      ensures LastRun(if attempts == 1 then old(stack) else None, client.log, last, r)
      ensures attempts == 1 ==> last == |old(client.log)|
      ensures attempts > 1 ==>
                |old(client.log)| < last <= |client.log| && client.log[last - 1] == DeleteAsked(ByName, false)
      ensures attempts >= 1 && (config.count.Some? ==> attempts <= MaxInt(1, config.count.value))
      ensures Accounted(old(client.Books()), client.Books(), attempts, r)
      ensures GaveUp(r) ==> client.clock.now - old(client.clock.now) >= waitTimeout
      ensures r.Raise? && r.error.IsInvalidFixture() ==>
                || (config.count.Some? && attempts >= config.count.value)
                || (config.timeout.Some? && client.clock.now - old(client.clock.now) >= config.timeout.value)
      ensures r.Ok? ==> stack == Some(r.value) || stack == None
    {
      attempts := 0;
      ghost var before := client.Books();
      var loop := new RetryLoop(config, client.clock);
      while true
        invariant Valid() && fresh(loop) && loop.Valid() && loop.clock == client.clock && loop.config == config
        invariant loop.state.Fresh? || (loop.state.Suspended? && !loop.state.attempt.IsLast())
        invariant loop.Attempts() == attempts
        invariant loop.Start() == old(client.clock.now) <= client.clock.now
        invariant before.creates <= client.Books().creates <= before.creates + attempts
        invariant client.Books().nameDeletes == before.nameDeletes + attempts
        invariant client.Books().orphans <= before.orphans
        invariant old(client.log) <= client.log
        invariant stack == if attempts == 0 then old(stack) else None
        invariant if attempts == 0 then |client.log| == |old(client.log)|
                  else |client.log| > |old(client.log)| && client.log[|client.log| - 1] == DeleteAsked(ByName, false)
        decreases loop.Remaining()
      {
        last := |client.log|;
        var again;
        again, r := CreationRound(loop);
        attempts := attempts + 1;
        if !again { break; }
      }
    }

    /** When the stack is not to be created it is only looked at. */
    method CreateStack(retry: Option<Config>, preventCreate: bool)
      returns (r: Outcome<Stack, Error>, ghost attempts: nat, ghost last: nat)
      requires Valid()
      modifies this`stack, client`log, client.clock
      ensures Valid() && old(client.log) <= client.log
      ensures preventCreate ==> attempts == 0 && Validated(old(stack), client.log, |old(client.log)|, |client.log|, r)
      ensures !preventCreate ==> attempts >= 1 && (retryCount != 0 ==> attempts <= MaxInt(1, retryCount))
      ensures attempts > 0 ==> LastRun(if attempts == 1 then old(stack) else None, client.log, last, r)
      ensures attempts == 1 ==> last == |old(client.log)|
      ensures attempts > 1 ==>
                |old(client.log)| < last <= |client.log| && client.log[last - 1] == DeleteAsked(ByName, false)
      ensures Accounted(old(client.Books()), client.Books(), attempts, r)
      ensures GaveUp(r) ==> client.clock.now - old(client.clock.now) >= waitTimeout
      ensures !preventCreate && r.Raise? && r.error.IsInvalidFixture() ==>
                var c := CreateConfig(retry);
                || (c.count.Some? && attempts >= c.count.value)
                || (c.timeout.Some? && client.clock.now - old(client.clock.now) >= c.timeout.value)
      ensures r.Ok? ==> stack == Some(r.value) || stack == None
    {
      attempts, last := 0, |client.log|;
      if preventCreate {
        r := ValidateCreatedStack();
      } else {
        r, attempts, last := CreateInRounds(CreateConfig(retry));
      }
    }

    /** `users` are the tests that still use the stack after this one removed itself. */
    method CleanupFixture(users: set<string>) returns (r: Outcome<(), Error>)
      requires Valid()
      modifies this`stack, client`log, client.clock
      ensures Valid()
      ensures users != {} ==> r.Ok? && client.log == old(client.log) && stack == old(stack)
      ensures users == {} ==> DeletedByName(client.log, |old(client.log)|, |client.log|, r)
      ensures users == {} && r.Ok? ==> stack == None && client.Books().readiness.Absent?
    {
      if |users| == 0 {
        var deleted := DeleteStack(None);
        if deleted.Raise? { return Raise(deleted.error); }
        r := WaitUntilStackDeleted(true, true, None, None);
      } else {
        r := Ok(());
      }
    }
  }
}

/** What the log of an attempt to create a stack looks like, and what the attempt makes of
    the answers in it. */
module HeatRuns {
  import opened Prelude
  import opened HeatProtocol

  /** Something other than its creation is under way with the stack: a creation waits. */
  predicate Busy(observed: Option<Stack>) {
    observed.Some? && observed.value.status.phase == IN_PROGRESS && observed.value.status.action != CREATE
  }

  // ---------------------------------------------------------------- waits

  /** The log holds the look-ups of a wait from `from` to `to`, all but the last one of a busy
      stack.  A cached stack is looked at first, and is all there is to see unless it is busy. */
  ghost predicate Waited(cached: Option<Stack>, log: seq<Event>, from: nat, to: nat) {
    && from <= to <= |log|
    && (forall i :: from <= i < to ==> log[i].Got?)
    && (forall i :: from <= i < to - 1 ==> Busy(log[i].answer))
    && if from == to then cached.Some? else cached.Some? ==> Busy(cached)
  }

  /** What the wait ended on. */
  function Observed(cached: Option<Stack>, log: seq<Event>, from: nat, to: nat): Option<Stack> {
    if from < to <= |log| && log[to - 1].Got? then log[to - 1].answer else cached
  }

  /** The last look-up failed. */
  ghost predicate WaitFailed(cached: Option<Stack>, log: seq<Event>, from: nat, to: nat) {
    && from < to <= |log| && log[to - 1].GetFailed?
    && (forall i :: from <= i < to - 1 ==> log[i].Got? && Busy(log[i].answer))
    && (cached.Some? ==> Busy(cached))
  }

  /** A stack is accepted if it is being created or was. */
  function Judged(observed: Option<Stack>): Outcome<Stack, Error> {
    match observed
    case None => Raise(StackNotFound)
    case Some(stack) =>
      match stack.status
      case Status(CREATE, IN_PROGRESS) => Ok(stack)
      case Status(CREATE, COMPLETE) => Ok(stack)
      case Status(CREATE, FAILED) => Raise(CreationFailed(stack.status))
      case _ => Raise(InvalidStatus(stack.status))
  }

  /** The wait was for a stack that is accepted. */
  ghost predicate Validated(cached: Option<Stack>, log: seq<Event>, from: nat, to: nat, r: Outcome<Stack, Error>) {
    if r == Raise(Foreign) then WaitFailed(cached, log, from, to)
    else Waited(cached, log, from, to) && r == Judged(Observed(cached, log, from, to))
  }

  /** A wait was given up while something was under way. */
  predicate GaveUp<T>(r: Outcome<T, Error>) {
    r.Raise? && r.error.InvalidStatus? && r.error.observed.phase == IN_PROGRESS
  }

  // ---------------------------------------------------------------- creations

  /** After the call that created `id`: the stack found is returned if it is that one and is
      accepted.  If another one is found, or it is not accepted, `id` is deleted. */
  ghost predicate Adopted(id: StackId, log: seq<Event>, from: nat, r: Outcome<Stack, Error>) {
    var n := |log|;
    if from < n && log[n - 1].DeleteAsked? then
      && log[n - 1].target == ById(id)
      && Waited(None, log, from, n - 1)
      && var found := Observed(None, log, from, n - 1);
         && found.Some? && (Judged(found).Ok? ==> found.value.id != id)
         && r == if log[n - 1].failed then Raise(Foreign) else Judged(found)
    else
      && Validated(None, log, from, n, r)
      && if r.Ok? then r.value.id == id else !r.error.IsInvalidFixture()
  }

  /** From `from` on: preparation, then the create call, then what its answer asks for. */
  ghost predicate CreationRun(log: seq<Event>, from: nat, r: Outcome<Stack, Error>) {
    && from < |log|
    && match log[from]
       case PrepareFailed => |log| == from + 1 && (r == Raise(QuotaLimits) || r == Raise(Foreign))
       case Prepared =>
         && from + 1 < |log|
         && (match log[from + 1]
             case CreateFailed => |log| == from + 2 && r == Raise(Foreign)
             case CreateConflict => Validated(None, log, from + 2, |log|, r)
             case Created(id) => Adopted(id, log, from + 2, r)
             case _ => false)
       case _ => false
  }

  // ---------------------------------------------------------------- clearing what is there

  /** The look-ups from `from` to `to` found a stack. */
  ghost predicate StillThere(log: seq<Event>, from: nat, to: nat) {
    from <= to <= |log| && forall i :: from <= i < to ==> log[i].Got? && log[i].answer.Some?
  }

  /** The look-up before `to` is the first one that found nothing. */
  ghost predicate GoneAt(log: seq<Event>, from: nat, to: nat) {
    from < to <= |log| && StillThere(log, from, to - 1) && log[to - 1] == Got(None)
  }

  /** One wait for the deletion: `r` is None exactly if a look-up, the last one, found nothing. */
  ghost predicate Watched(log: seq<Event>, from: nat, to: nat, r: Outcome<Option<Stack>, Error>) {
    match r
    case Raise(Foreign) => from < to <= |log| && log[to - 1].GetFailed? && StillThere(log, from, to - 1)
    case Ok(None) => GoneAt(log, from, to)
    case _ => StillThere(log, from, to)
  }

  /** The wait from `from` to `to` for the stack to disappear: it ends well with the first
      look-up that finds nothing, and is given up when a look-up fails, or when the stack found
      last is not deleted or did not disappear in time. */
  ghost predicate Vanished(log: seq<Event>, from: nat, to: nat, r: Outcome<(), Error>) {
    match r
    case Ok(_) => GoneAt(log, from, to)
    case Raise(Foreign) => from < to <= |log| && log[to - 1].GetFailed? && StillThere(log, from, to - 1)
    case Raise(error) =>
      && StillThere(log, from, to) && !error.StackNotFound? && !error.QuotaLimits?
      && (from < to ==> IsInTheWay(log[to - 1].answer.value.status, error))
  }

  /** The exception for a stack that should have disappeared. */
  predicate IsInTheWay(status: Status, error: Error) {
    match status
    case Status(DELETE, COMPLETE) => error == StillPresent
    case Status(DELETE, FAILED) => error == DeletionFailed(status)
    case _ => error == InvalidStatus(status)
  }

  /** A stack that failed is deleted by its id first. */
  ghost predicate Cleared(stack: Stack, log: seq<Event>, from: nat, to: nat, r: Outcome<(), Error>) {
    if stack.status.phase != FAILED then Vanished(log, from, to, r)
    else
      && from < to <= |log| && log[from].DeleteAsked? && log[from].target == ById(stack.id)
      && if log[from].failed then to == from + 1 && r == Raise(Foreign) else Vanished(log, from + 1, to, r)
  }

  /** One deletion by name, after which the stack is waited for to disappear. */
  ghost predicate DeletedByName(log: seq<Event>, from: nat, to: nat, r: Outcome<(), Error>) {
    && from < to <= |log| && log[from].DeleteAsked? && log[from].target == ByName
    && if log[from].failed then to == from + 1 && r == Raise(Foreign) else Vanished(log, from + 1, to, r)
  }

  /** The stack is created again only when it is gone. */
  ghost predicate RecreationRun(stack: Stack, log: seq<Event>, from: nat, r: Outcome<Stack, Error>) {
    || (r.Raise? && Cleared(stack, log, from, |log|, Raise(r.error)))
    || exists to: nat :: Cleared(stack, log, from, to, Ok(())) && CreationRun(log, to, r)
  }

  // ---------------------------------------------------------------- attempts

  /** From `from` on, where `found` is what the first wait ended on. */
  ghost predicate FoundRun(found: Option<Stack>, log: seq<Event>, from: nat, r: Outcome<Stack, Error>) {
    match found
    case None => CreationRun(log, from, r)
    case Some(stack) =>
      match stack.status
      case Status(CREATE, IN_PROGRESS) => |log| == from && r == Ok(stack)
      case Status(CREATE, COMPLETE) => |log| == from && r == Ok(stack)
      case Status(CREATE, FAILED) => RecreationRun(stack, log, from, r)
      case Status(DELETE, FAILED) => RecreationRun(stack, log, from, r)
      case Status(DELETE, COMPLETE) => RecreationRun(stack, log, from, r)
      case _ => |log| == from && r == Raise(InvalidStatus(stack.status))
  }

  /** The calls of a whole attempt, which are those from `from` on, and its result. */
  ghost predicate AttemptRun(cached: Option<Stack>, log: seq<Event>, from: nat, r: Outcome<Stack, Error>) {
    || (r == Raise(Foreign) && WaitFailed(cached, log, from, |log|))
    || exists to: nat :: Waited(cached, log, from, to) && FoundRun(Observed(cached, log, from, to), log, to, r)
  }

  /** The attempt ended in an invalid fixture. */
  ghost predicate InvalidRun(cached: Option<Stack>, log: seq<Event>, from: nat) {
    exists error: Error :: error.IsInvalidFixture() && AttemptRun(cached, log, from, Raise(error))
  }

  /** After an invalid fixture, the stack is deleted by name. */
  ghost predicate DeletedRun(cached: Option<Stack>, log: seq<Event>, from: nat, failed: bool) {
    from < |log| && log[|log| - 1] == DeleteAsked(ByName, failed) && InvalidRun(cached, log[..|log| - 1], from)
  }

  /** The last attempt ended with `r`, or else the deletion before another one failed. */
  ghost predicate LastRun(cached: Option<Stack>, log: seq<Event>, from: nat, r: Outcome<Stack, Error>) {
    AttemptRun(cached, log, from, r) || (r == Raise(Foreign) && DeletedRun(cached, log, from, true))
  }

  predicate IsFailure(e: Event) {
    e.GetFailed? || e.PrepareFailed? || e.CreateFailed? || (e.DeleteAsked? && e.failed)
  }

  /** An exception that is not the fixture's own leaves only when the last call raised it. */
  lemma ForeignMeansFailure(cached: Option<Stack>, log: seq<Event>, from: nat, r: Outcome<Stack, Error>)
    requires LastRun(cached, log, from, r) && r == Raise(Foreign)
    ensures |log| > from && IsFailure(log[|log| - 1])
  {
  }

  lemma OnlyPreparedFirst(log: seq<Event>, from: nat, r: Outcome<Stack, Error>, k: nat)
    requires CreationRun(log, from, r) && from <= k < |log| && log[k] == Prepared
    ensures k == from && k + 1 < |log| && log[k + 1].IsCreate()
  {
  }

  lemma PreparedOnceGone(stack: Stack, log: seq<Event>, from: nat, r: Outcome<Stack, Error>, k: nat)
    requires RecreationRun(stack, log, from, r) && from <= k < |log| && log[k] == Prepared
    ensures k + 1 < |log| && log[k + 1].IsCreate()
  {
    if !(r.Raise? && Cleared(stack, log, from, |log|, Raise(r.error))) {
      var to: nat :| Cleared(stack, log, from, to, Ok(())) && CreationRun(log, to, r);
      assert k >= to;
      OnlyPreparedFirst(log, to, r, k);
    }
  }

  /** In an attempt each preparation that succeeds is directly followed by the create call. */
  lemma PreparedIsFollowed(cached: Option<Stack>, log: seq<Event>, from: nat, r: Outcome<Stack, Error>, k: nat)
    requires AttemptRun(cached, log, from, r) && from <= k < |log| && log[k] == Prepared
    ensures k + 1 < |log| && log[k + 1].IsCreate()
  {
    if !(r == Raise(Foreign) && WaitFailed(cached, log, from, |log|)) {
      var to: nat :| Waited(cached, log, from, to) && FoundRun(Observed(cached, log, from, to), log, to, r);
      var found := Observed(cached, log, from, to);
      if found.None? {
        OnlyPreparedFirst(log, to, r, k);
      } else {
        PreparedOnceGone(found.value, log, to, r, k);
      }
    }
  }

  /** When there is no stack and no call fails, the stack created is the one returned. */
  lemma CreatedIsReturned(log: seq<Event>, from: nat, stack: Stack, r: Outcome<Stack, Error>)
    requires AttemptRun(None, log, from, r) && from + 4 <= |log|
    requires log[from] == Got(None) && log[from + 1] == Prepared
    requires log[from + 2] == Created(stack.id) && log[from + 3] == Got(Some(stack))
    requires stack.status == CREATE_IN_PROGRESS || stack.status == CREATE_COMPLETE
    ensures r == Ok(stack) && |log| == from + 4
  {
    var to: nat :| Waited(None, log, from, to) && FoundRun(Observed(None, log, from, to), log, to, r);
    assert to == from + 1;
    assert Adopted(stack.id, log, from + 3, r);
    assert log[|log| - 1].DeleteAsked? ==> |log| - 1 == from + 4;
  }
}

/** The calls that the creation of a Glance image makes, and what it makes of the answers. */
module GlanceRuns {
  import opened Prelude

  datatype Status = QUEUED | SAVING | ACTIVE | KILLED | DELETED | PENDING_DELETE | DEACTIVATED | UPLOADING | IMPORTING
                  | Other(name: string)

  type ImageId = id: string | id != "" witness "id"

  datatype Image = Image(id: ImageId, status: Status)

  datatype Error = InvalidStatus(actual: Status) | Foreign | UnboundLocal

  datatype Event = Got(answer: Option<Image>) | GetFailed | Created(id: ImageId) | CreateFailed
                 | DeleteAsked(id: ImageId, failed: bool) | DataFailed | Uploaded(id: ImageId, failed: bool)

  const CHANGING_STATUS := {QUEUED, IMPORTING, PENDING_DELETE, SAVING, UPLOADING}
  const GETTING_ACTIVE_STATUS := {QUEUED, SAVING, ACTIVE}

  predicate IsChanging(image: Option<Image>) {
    image.Some? && image.value.status in CHANGING_STATUS
  }

  predicate IsGettingActive(image: Option<Image>) {
    image.Some? && image.value.status in GETTING_ACTIVE_STATUS
  }

  /** An image that is not there counts as deleted. */
  function StatusOf(image: Option<Image>): Status {
    match image
    case None => DELETED
    case Some(i) => i.status
  }

  // ---------------------------------------------------------------- book-keeping

  /** The ids that a create call returned and whose deletion was not requested since. */
  function Orphans(log: seq<Event>): set<ImageId> {
    if log == [] then {}
    else
      var before := Orphans(log[..|log| - 1]);
      match log[|log| - 1]
      case Created(id) => before + {id}
      case DeleteAsked(id, _) => before - {id}
      case _ => before
  }

  function Creates(log: seq<Event>): nat {
    if log == [] then 0
    else Creates(log[..|log| - 1]) + if IsCreate(log[|log| - 1]) then 1 else 0
  }

  predicate IsCreate(e: Event) {
    e.Created? || e.CreateFailed?
  }

  ghost function CreateCalls(log: seq<Event>): set<int> {
    set i | 0 <= i < |log| && IsCreate(log[i])
  }

  lemma CreateCallsGrow(log: seq<Event>)
    requires log != []
    ensures var n := |log| - 1;
            |CreateCalls(log)| == |CreateCalls(log[..n])| + if IsCreate(log[n]) then 1 else 0
  {
    var n := |log| - 1;
    var before := CreateCalls(log[..n]);
    assert n !in before;
    assert CreateCalls(log) == if IsCreate(log[n]) then before + {n} else before;
  }

  lemma {:induction false} CreatesAreCounted(log: seq<Event>)
    ensures Creates(log) == |CreateCalls(log)|
  {
    if log == [] {
    } else {
      CreatesAreCounted(log[..|log| - 1]);
      CreateCallsGrow(log);
    }
  }

  ghost predicate NeverDeleted(log: seq<Event>, from: nat, id: ImageId) {
    forall j :: from <= j < |log| ==> !(log[j].DeleteAsked? && log[j].id == id)
  }

  lemma {:induction false} OrphansAreUndeleted(log: seq<Event>, id: ImageId)
    ensures id in Orphans(log) <==> exists i :: 0 <= i < |log| && log[i] == Created(id) && NeverDeleted(log, i, id)
  {
    if log == [] {
    } else {
      var n := |log| - 1;
      var init := log[..n];
      OrphansAreUndeleted(init, id);
      if log[n] == Created(id) {
        assert NeverDeleted(log, n, id);
      } else if !(log[n].DeleteAsked? && log[n].id == id) {
        forall i | 0 <= i < n
          ensures NeverDeleted(log, i, id) <==> NeverDeleted(init, i, id)
        {
          assert forall j :: i <= j < n ==> init[j] == log[j];
        }
        if i :| 0 <= i < n && init[i] == Created(id) && NeverDeleted(init, i, id) {
          assert log[i] == Created(id) && NeverDeleted(log, i, id);
        }
        if i :| 0 <= i < |log| && log[i] == Created(id) && NeverDeleted(log, i, id) {
          assert init[i] == Created(id) && NeverDeleted(init, i, id);
        }
      }
    }
  }

  ghost predicate OneMore(before: seq<Event>, after: seq<Event>, e: Event) {
    |after| == |before| + 1 && before <= after && after[|before|] == e
  }

  /** Neither usable, nor on the way to change, nor gone. */
  predicate IsStuck(image: Option<Image>) {
    image.Some? && !IsChanging(image) && !IsGettingActive(image) && image.value.status != DELETED
  }

  /** A wait for these statuses does not end on the image. */
  predicate WorthWaiting(image: Option<Image>, expected: set<Status>) {
    image.Some? && image.value.status !in expected && IsChanging(image)
  }

  /** What is waited on, and what is neither usable nor waited on, status by status. */
  lemma WhatIsWaitedOn(image: Image)
    ensures IsGettingActive(Some(image)) <==> image.status in {QUEUED, SAVING, ACTIVE}
    ensures WorthWaiting(Some(image), GETTING_ACTIVE_STATUS) <==> image.status in {IMPORTING, PENDING_DELETE, UPLOADING}
    ensures WorthWaiting(Some(image), {ACTIVE}) <==> image.status in {QUEUED, IMPORTING, PENDING_DELETE, SAVING, UPLOADING}
    ensures IsStuck(Some(image)) <==> image.status in {KILLED, DEACTIVATED} || image.status.Other?
  {
  }

  // ---------------------------------------------------------------- waits in the log

  /** From `from` to `to` the log holds look-ups of a wait that started with what was cached,
      all but the last one answered with an image worth waiting on.  A cached image is looked
      at first, and is all there is to see unless it is worth waiting on. */
  ghost predicate Looked(cached: Option<Image>, log: seq<Event>, from: nat, to: nat, expected: set<Status>) {
    && from <= to <= |log|
    && (forall i :: from <= i < to ==> log[i].Got?)
    && (forall i :: from <= i < to - 1 ==> WorthWaiting(log[i].answer, expected))
    && if from == to then cached.Some? else cached.Some? ==> WorthWaiting(cached, expected)
  }

  /** The last answer, or what was cached if there is none. */
  function Observed(cached: Option<Image>, log: seq<Event>, from: nat, to: nat): Option<Image> {
    if from < to <= |log| && log[to - 1].Got? then log[to - 1].answer else cached
  }

  /** The wait ended on what it observed last. */
  ghost predicate Waited(cached: Option<Image>, log: seq<Event>, from: nat, to: nat, expected: set<Status>) {
    Looked(cached, log, from, to, expected) && !WorthWaiting(Observed(cached, log, from, to), expected)
  }

  /** The wait ended with a look-up that failed. */
  ghost predicate WaitFailed(cached: Option<Image>, log: seq<Event>, from: nat, to: nat, expected: set<Status>) {
    && from < to <= |log| && log[to - 1].GetFailed?
    && (forall i :: from <= i < to - 1 ==> log[i].Got? && WorthWaiting(log[i].answer, expected))
    && (cached.Some? ==> WorthWaiting(cached, expected))
  }

  /** `met` is what a wait for an image that gets active ended on, None when it failed. */
  ghost predicate WaitEnded(cached: Option<Image>, log: seq<Event>, from: nat, to: nat, met: Option<Option<Image>>) {
    match met
    case None => WaitFailed(cached, log, from, to, GETTING_ACTIVE_STATUS)
    case Some(observed) =>
      Waited(cached, log, from, to, GETTING_ACTIVE_STATUS) && observed == Observed(cached, log, from, to)
  }

  /** The first calls from `from` on are those of such a wait. */
  ghost predicate FirstWait(cached: Option<Image>, log: seq<Event>, from: nat, met: Option<Option<Image>>) {
    exists to: nat :: WaitEnded(cached, log, from, to, met)
  }

  lemma WaitStays(cached: Option<Image>, log: seq<Event>, longer: seq<Event>, from: nat, to: nat,
                  met: Option<Option<Image>>)
    requires WaitEnded(cached, log, from, to, met) && log <= longer
    ensures WaitEnded(cached, longer, from, to, met)
  {
  }

  /** The log tells what the first wait ended on.  An image that was cached and is not worth
      waiting on is it. */
  lemma CachedIsMet(cached: Option<Image>, log: seq<Event>, from: nat, met: Option<Option<Image>>)
    requires FirstWait(cached, log, from, met) && cached.Some? && !WorthWaiting(cached, GETTING_ACTIVE_STATUS)
    ensures met == Some(cached)
  {
  }

  /** Otherwise it is the first answer that is not worth waiting on, unless a look-up before
      it failed. */
  lemma FirstAnswerIsMet(cached: Option<Image>, log: seq<Event>, from: nat, met: Option<Option<Image>>, k: nat)
    requires FirstWait(cached, log, from, met) && (cached.Some? ==> WorthWaiting(cached, GETTING_ACTIVE_STATUS))
    requires from <= k < |log|
    requires forall i :: from <= i < k ==> log[i].Got? && WorthWaiting(log[i].answer, GETTING_ACTIVE_STATUS)
    requires log[k].GetFailed? || (log[k].Got? && !WorthWaiting(log[k].answer, GETTING_ACTIVE_STATUS))
    ensures met == if log[k].Got? then Some(log[k].answer) else None
  {
    var to: nat :| WaitEnded(cached, log, from, to, met);
    assert to == k + 1;
  }

  // ---------------------------------------------------------------- the loop in the log

  /** How one turn ends: it leaves the loop, or goes on with what is cached then. */
  datatype Ending = Leaves(r: Outcome<Option<Image>, Error>) | GoesOn(cached: Option<Image>)

  /** What is found is deleted, which fails unless it is deleted already; then another image
      is created. */
  ghost predicate Replaced(found: Option<Image>, log: seq<Event>, from: nat, to: nat, ending: Ending) {
    if found == None then Recreated(log, from, to, ending)
    else
      && from < to <= |log| && log[from].DeleteAsked? && log[from].id == found.value.id
      && if log[from].failed then to == from + 1 && ending == Leaves(Raise(Foreign))
         else if found.value.status != DELETED then
           to == from + 1 && ending == Leaves(Raise(InvalidStatus(found.value.status)))
         else Recreated(log, from + 1, to, ending)
  }

  ghost predicate Recreated(log: seq<Event>, from: nat, to: nat, ending: Ending) {
    && to == from + 1 <= |log|
    && match log[from]
       case Created(_) => ending == GoesOn(None)
       case CreateFailed => ending == Leaves(Raise(Foreign))
       case _ => false
  }

  /** After the wait of a turn ended on `met`. */
  ghost predicate Continued(met: Option<Option<Image>>, left: nat, prevent: bool, log: seq<Event>, from: nat, to: nat,
                            ending: Ending)
  {
    match met
    case None => to == from && ending == Leaves(Raise(Foreign))
    case Some(found) =>
      if IsGettingActive(found) then to == from && ending == Leaves(Ok(found))
      else if left == 0 then to == from && ending == Leaves(Raise(InvalidStatus(StatusOf(found))))
      else if prevent then to == from && ending == GoesOn(found)
      else Replaced(found, log, from, to, ending)
  }

  /** The calls of one turn, with so many retries left. */
  ghost predicate Turn(cached: Option<Image>, left: nat, prevent: bool, log: seq<Event>, from: nat, to: nat, ending: Ending) {
    exists mid: nat, met :: WaitEnded(cached, log, from, mid, met) && Continued(met, left, prevent, log, mid, to, ending)
  }

  /** The calls of all turns with more than `left` retries left, which go on. */
  ghost predicate Turns(cached: Option<Image>, retries: nat, left: nat, prevent: bool, log: seq<Event>, from: nat, to: nat,
                        next: Option<Image>)
    decreases retries - left, 0
  {
    if retries <= left then to == from && next == cached
    else TurnsAndOne(cached, retries, left + 1, prevent, log, from, to, next)
  }

  ghost predicate TurnsAndOne(cached: Option<Image>, retries: nat, left: nat, prevent: bool, log: seq<Event>, from: nat,
                              to: nat, next: Option<Image>)
    decreases retries - left, 1
  {
    exists mid: nat, between ::
      && Turns(cached, retries, left, prevent, log, from, mid, between)
      && Turn(between, left, prevent, log, mid, to, GoesOn(next))
  }

  /** The whole loop, which ends with `r`. */
  ghost predicate LoopRun(cached: Option<Image>, retries: int, prevent: bool, log: seq<Event>, from: nat, to: nat,
                          r: Outcome<Option<Image>, Error>)
  {
    if retries < 0 then to == from && r == Raise(UnboundLocal)
    else
      exists left: nat, mid: nat, between ::
        && left <= retries && Turns(cached, retries, left, prevent, log, from, mid, between)
        && Turn(between, left, prevent, log, mid, to, Leaves(r))
  }

  // ---------------------------------------------------------------- after the loop

  /** The wait for the image to be active. */
  ghost predicate ActiveWait(cached: Option<Image>, log: seq<Event>, from: nat, to: nat, r: Outcome<Image, Error>) {
    || (WaitFailed(cached, log, from, to, {ACTIVE}) && r == Raise(Foreign))
    || (&& Waited(cached, log, from, to, {ACTIVE})
        && match Observed(cached, log, from, to)
           case None => r == Raise(InvalidStatus(DELETED))
           case Some(image) => r == if image.status == ACTIVE then Ok(image) else Raise(InvalidStatus(image.status)))
  }

  /** The image is uploaded, which only a queued one allows, before it is waited for. */
  ghost predicate UploadRun(image: Image, log: seq<Event>, from: nat, to: nat, r: Outcome<Image, Error>) {
    if image.status != QUEUED then to == from && r == Raise(InvalidStatus(image.status))
    else
      && from < to <= |log|
      && match log[from]
         case DataFailed => to == from + 1 && r == Raise(Foreign)
         case Uploaded(id, failed) =>
           && id == image.id
           && if failed then to == from + 1 && r == Raise(Foreign) else ActiveWait(Some(image), log, from + 1, to, r)
         case _ => false
  }

  /** The id was created between these positions. */
  ghost predicate CreatedIn(log: seq<Event>, from: nat, to: nat, id: ImageId) {
    exists i :: from <= i < to && i < |log| && log[i] == Created(id)
  }

  /** After the loop, which goes from `from` to `mid`: an image that was created in it is
      uploaded. */
  ghost predicate Finished(image: Image, log: seq<Event>, from: nat, mid: nat, to: nat, r: Outcome<Image, Error>) {
    && mid <= |log|
    && if CreatedIn(log, from, mid, image.id) then UploadRun(image, log, mid, to, r)
       else ActiveWait(Some(image), log, mid, to, r)
  }

  /** The loop and what follows it. */
  ghost predicate BodyRun(cached: Option<Image>, retries: int, prevent: bool, log: seq<Event>, from: nat, to: nat,
                          r: Outcome<Image, Error>)
  {
    || (r.Raise? && LoopRun(cached, retries, prevent, log, from, to, Raise(r.error)))
    || exists mid: nat, image ::
         LoopRun(cached, retries, prevent, log, from, mid, Ok(Some(image))) && Finished(image, log, from, mid, to, r)
  }

  /** The deletions on the way out, of the images created but the one returned. */
  ghost predicate CleanupRun(log: seq<Event>, from: nat, to: nat, r: Outcome<Image, Error>) {
    && from <= to <= |log|
    && (forall i :: to <= i < |log| ==>
          log[i].DeleteAsked? && CreatedIn(log, from, to, log[i].id) && !(r.Ok? && log[i].id == r.value.id))
    && forall id :: CreatedIn(log, from, to, id) && !(r.Ok? && id == r.value.id) ==> IsDeletedIn(log, to, id)
  }

  ghost predicate IsDeletedIn(log: seq<Event>, from: nat, id: ImageId) {
    exists i :: from <= i < |log| && log[i].DeleteAsked? && log[i].id == id
  }

  // ---------------------------------------------------------------- longer logs

  lemma TurnStays(cached: Option<Image>, left: nat, prevent: bool, log: seq<Event>, longer: seq<Event>, from: nat, to: nat,
                  ending: Ending)
    requires Turn(cached, left, prevent, log, from, to, ending) && log <= longer
    ensures Turn(cached, left, prevent, longer, from, to, ending)
  {
    var mid: nat, met :| WaitEnded(cached, log, from, mid, met) && Continued(met, left, prevent, log, mid, to, ending);
    WaitStays(cached, log, longer, from, mid, met);
    assert Continued(met, left, prevent, longer, mid, to, ending);
  }

  lemma {:induction false} TurnsStay(cached: Option<Image>, retries: nat, left: nat, prevent: bool, log: seq<Event>,
                                     longer: seq<Event>, from: nat, to: nat, next: Option<Image>)
    requires Turns(cached, retries, left, prevent, log, from, to, next) && log <= longer
    ensures Turns(cached, retries, left, prevent, longer, from, to, next)
    decreases retries - left
  {
    if retries <= left {
    } else {
      var mid: nat, between :| Turns(cached, retries, left + 1, prevent, log, from, mid, between)
                               && Turn(between, left + 1, prevent, log, mid, to, GoesOn(next));
      TurnsStay(cached, retries, left + 1, prevent, log, longer, from, mid, between);
      TurnStays(between, left + 1, prevent, log, longer, mid, to, GoesOn(next));
      assert TurnsAndOne(cached, retries, left + 1, prevent, longer, from, to, next);
    }
  }

  lemma LoopStays(cached: Option<Image>, retries: int, prevent: bool, log: seq<Event>, longer: seq<Event>, from: nat,
                  to: nat, r: Outcome<Option<Image>, Error>)
    requires LoopRun(cached, retries, prevent, log, from, to, r) && log <= longer
    ensures LoopRun(cached, retries, prevent, longer, from, to, r)
  {
    if retries >= 0 {
      var left: nat, mid: nat, between :| left <= retries && Turns(cached, retries, left, prevent, log, from, mid, between)
                                          && Turn(between, left, prevent, log, mid, to, Leaves(r));
      TurnsStay(cached, retries, left, prevent, log, longer, from, mid, between);
      TurnStays(between, left, prevent, log, longer, mid, to, Leaves(r));
    }
  }

  lemma ActiveWaitStays(cached: Option<Image>, log: seq<Event>, longer: seq<Event>, from: nat, to: nat,
                        r: Outcome<Image, Error>)
    requires ActiveWait(cached, log, from, to, r) && log <= longer
    ensures ActiveWait(cached, longer, from, to, r)
  {
  }

  lemma UploadStays(image: Image, log: seq<Event>, longer: seq<Event>, from: nat, to: nat, r: Outcome<Image, Error>)
    requires UploadRun(image, log, from, to, r) && log <= longer
    ensures UploadRun(image, longer, from, to, r)
  {
    if image.status == QUEUED && log[from].Uploaded? && !log[from].failed {
      ActiveWaitStays(Some(image), log, longer, from + 1, to, r);
    }
  }

  lemma CreatedInStays(log: seq<Event>, longer: seq<Event>, from: nat, to: nat, id: ImageId)
    requires log <= longer && to <= |log|
    ensures CreatedIn(longer, from, to, id) <==> CreatedIn(log, from, to, id)
  {
  }

  lemma CreatedInTurn(before: seq<Event>, between: seq<Event>, after: seq<Event>, ids: set<ImageId>, more: set<ImageId>)
    requires before <= between <= after
    requires forall id :: CreatedIn(between, |before|, |between|, id) <==> id in ids
    requires forall id :: CreatedIn(after, |between|, |after|, id) <==> id in more
    ensures forall id :: CreatedIn(after, |before|, |after|, id) <==> id in ids + more
  {
    forall id
      ensures CreatedIn(after, |before|, |after|, id)
              <==> CreatedIn(between, |before|, |between|, id) || CreatedIn(after, |between|, |after|, id)
    {
      CreatedInStays(between, after, |before|, |between|, id);
    }
  }

  lemma NothingCreated(before: seq<Event>, between: seq<Event>, after: seq<Event>, ids: set<ImageId>)
    requires before <= between <= after
    requires forall i :: |between| <= i < |after| ==> !after[i].Created?
    requires forall id :: CreatedIn(between, |before|, |between|, id) <==> id in ids
    ensures forall id :: CreatedIn(after, |before|, |after|, id) <==> id in ids
  {
    CreatedInTurn(before, between, after, ids, {});
  }

  lemma DeletedLonger(before: seq<Event>, after: seq<Event>, from: nat, ids: set<ImageId>, id: ImageId)
    requires |after| == |before| + 1 && before <= after && from <= |before|
    requires after[|before|].DeleteAsked? && after[|before|].id == id
    requires forall other :: other in ids ==> IsDeletedIn(before, from, other)
    ensures forall other :: other in ids + {id} ==> IsDeletedIn(after, from, other)
  {
    forall other | other in ids
      ensures IsDeletedIn(after, from, other)
    {
      var i :| from <= i < |before| && before[i].DeleteAsked? && before[i].id == other;
      assert after[i] == before[i];
    }
  }

  lemma CleanedUp(log: seq<Event>, after: seq<Event>, from: nat, ids: set<ImageId>, r: Outcome<Image, Error>)
    requires log <= after && from <= |log|
    requires forall id :: id in ids <==> CreatedIn(log, from, |log|, id) && !(r.Ok? && r.value.id == id)
    requires forall i :: |log| <= i < |after| ==> after[i].DeleteAsked? && after[i].id in ids
    requires forall id :: id in ids ==> IsDeletedIn(after, |log|, id)
    ensures CleanupRun(after, from, |log|, r)
  {
    forall id
      ensures CreatedIn(after, from, |log|, id) <==> CreatedIn(log, from, |log|, id)
    {
      CreatedInStays(log, after, from, |log|, id);
    }
  }

  lemma BodyStays(cached: Option<Image>, retries: int, prevent: bool, log: seq<Event>, longer: seq<Event>, from: nat,
                  to: nat, r: Outcome<Image, Error>)
    requires BodyRun(cached, retries, prevent, log, from, to, r) && log <= longer
    ensures BodyRun(cached, retries, prevent, longer, from, to, r)
  {
    if r.Raise? && LoopRun(cached, retries, prevent, log, from, to, Raise(r.error)) {
      LoopStays(cached, retries, prevent, log, longer, from, to, Raise(r.error));
    } else {
      var mid: nat, image :| LoopRun(cached, retries, prevent, log, from, mid, Ok(Some(image)))
                             && Finished(image, log, from, mid, to, r);
      LoopStays(cached, retries, prevent, log, longer, from, mid, Ok(Some(image)));
      CreatedInStays(log, longer, from, mid, image.id);
      if CreatedIn(log, from, mid, image.id) {
        UploadStays(image, log, longer, mid, to, r);
      } else {
        ActiveWaitStays(Some(image), log, longer, mid, to, r);
      }
      assert Finished(image, longer, from, mid, to, r);
    }
  }

  // ---------------------------------------------------------------- what the first wait decides

  ghost predicate HasCreate(log: seq<Event>, from: nat, to: nat) {
    exists i :: from <= i < to && i < |log| && IsCreate(log[i])
  }

  lemma {:induction false} FirstTurn(cached: Option<Image>, retries: nat, left: nat, prevent: bool, log: seq<Event>,
                                     from: nat, to: nat, next: Option<Image>) returns (mid: nat, between: Option<Image>)
    requires Turns(cached, retries, left, prevent, log, from, to, next) && left < retries
    ensures Turn(cached, retries, prevent, log, from, mid, GoesOn(between)) && mid <= to
    ensures prevent && IsStuck(between) ==> next == between && to == mid
    ensures Turns(between, retries - 1, left, prevent, log, mid, to, next)
    decreases retries - left
  {
    var m: nat, b :| Turns(cached, retries, left + 1, prevent, log, from, m, b)
                     && Turn(b, left + 1, prevent, log, m, to, GoesOn(next));
    if retries == left + 1 {
      mid, between := to, next;
    } else {
      mid, between := FirstTurn(cached, retries, left + 1, prevent, log, from, m, b);
      assert TurnsAndOne(between, retries - 1, left + 1, prevent, log, mid, to, next);
    }
  }

  /** What the first wait ends on decides: an image that gets active is taken, a stuck one
      makes the loop fail, and only where there is none is one created. */
  lemma FirstWaitDecides(cached: Option<Image>, retries: nat, prevent: bool, log: seq<Event>, from: nat, to: nat,
                         r: Outcome<Option<Image>, Error>) returns (met: Option<Option<Image>>)
    requires LoopRun(cached, retries, prevent, log, from, to, r)
    ensures FirstWait(cached, log, from, met)
    ensures met == None ==> r == Raise(Foreign)
    ensures met.Some? ==> IsGettingActive(met.value) || IsStuck(met.value) || StatusOf(met.value) == DELETED
    ensures met.Some? && IsGettingActive(met.value) ==> r == Ok(met.value)
    ensures met.Some? && IsStuck(met.value) ==> r.Raise?
    ensures met.Some? && !prevent && retries > 0 ==>
              r == Raise(Foreign) || (HasCreate(log, from, to) <==> StatusOf(met.value) == DELETED)
  {
    var left: nat, mid: nat, between :| left <= retries && Turns(cached, retries, left, prevent, log, from, mid, between)
                                        && Turn(between, left, prevent, log, mid, to, Leaves(r));
    if left == retries {
      met := WaitOf(cached, retries, prevent, log, from, to, Leaves(r));
    } else {
      var t, b := FirstTurn(cached, retries, left, prevent, log, from, mid, between);
      met := WaitOf(cached, retries, prevent, log, from, t, GoesOn(b));
    }
  }

  /** The wait of a turn and what follows it. */
  lemma WaitOf(cached: Option<Image>, left: nat, prevent: bool, log: seq<Event>, from: nat, to: nat, ending: Ending)
      returns (met: Option<Option<Image>>)
    requires Turn(cached, left, prevent, log, from, to, ending)
    ensures FirstWait(cached, log, from, met)
    ensures met == None ==> ending == Leaves(Raise(Foreign))
    ensures met.Some? ==> IsGettingActive(met.value) || IsStuck(met.value) || StatusOf(met.value) == DELETED
    ensures met.Some? && IsGettingActive(met.value) ==> ending == Leaves(Ok(met.value))
    ensures met.Some? && IsStuck(met.value) ==>
              if prevent && left > 0 then ending == GoesOn(met.value) else ending.Leaves? && ending.r.Raise?
    ensures HasCreate(log, from, to) ==> met.Some? && StatusOf(met.value) == DELETED && !prevent && left > 0
    ensures met.Some? && StatusOf(met.value) == DELETED && !prevent && left > 0 ==>
              ending == Leaves(Raise(Foreign)) || (ending == GoesOn(None) && HasCreate(log, from, to))
  {
    var mid: nat, m :| WaitEnded(cached, log, from, mid, m) && Continued(m, left, prevent, log, mid, to, ending);
    met := m;
    if met.Some? && StatusOf(met.value) == DELETED && ending == GoesOn(None) && !prevent {
      assert log[to - 1].Created?;
    }
  }

  lemma NoCreateAfterLoop(cached: Option<Image>, log: seq<Event>, from: nat, mid: nat, to: nat, r: Outcome<Image, Error>,
                          image: Image)
    requires Finished(image, log, from, mid, to, r)
    ensures HasCreate(log, from, to) <==> HasCreate(log, from, mid)
    ensures mid <= to <= |log|
  {
  }

  /** The same for all that follows too. */
  lemma FirstWaitDecidesAll(cached: Option<Image>, retries: nat, prevent: bool, log: seq<Event>, from: nat, to: nat,
                            r: Outcome<Image, Error>) returns (met: Option<Option<Image>>)
    requires BodyRun(cached, retries, prevent, log, from, to, r)
    ensures FirstWait(cached, log, from, met)
    ensures met == None ==> r == Raise(Foreign)
    ensures met.Some? ==> IsGettingActive(met.value) || IsStuck(met.value) || StatusOf(met.value) == DELETED
    ensures met.Some? && IsStuck(met.value) ==> r.Raise?
    ensures met.Some? && !prevent && retries > 0 ==>
              r == Raise(Foreign) || (HasCreate(log, from, to) <==> StatusOf(met.value) == DELETED)
  {
    if r.Raise? && LoopRun(cached, retries, prevent, log, from, to, Raise(r.error)) {
      met := FirstWaitDecides(cached, retries, prevent, log, from, to, Raise(r.error));
    } else {
      var mid: nat, image :| LoopRun(cached, retries, prevent, log, from, mid, Ok(Some(image)))
                             && Finished(image, log, from, mid, to, r);
      met := FirstWaitDecides(cached, retries, prevent, log, from, mid, Ok(Some(image)));
      NoCreateAfterLoop(cached, log, from, mid, to, r, image);
    }
  }

  lemma UnboundIffNoRetries(cached: Option<Image>, retries: int, prevent: bool, log: seq<Event>, from: nat, to: nat,
                            r: Outcome<Image, Error>)
    requires BodyRun(cached, retries, prevent, log, from, to, r)
    ensures r == Raise(UnboundLocal) <==> retries < 0
    ensures retries < 0 ==> to == from
  {
  }

  predicate IsFailure(e: Event) {
    e.GetFailed? || e.CreateFailed? || e.DataFailed? || ((e.Uploaded? || e.DeleteAsked?) && e.failed)
  }

  /** An exception that is not the fixture's own leaves only when the last call before the
      deletions on the way out raised it. */
  lemma ForeignMeansFailure(cached: Option<Image>, retries: int, prevent: bool, log: seq<Event>, from: nat, to: nat,
                            r: Outcome<Image, Error>)
    requires BodyRun(cached, retries, prevent, log, from, to, r) && r == Raise(Foreign)
    ensures 0 < to <= |log| && IsFailure(log[to - 1])
  {
    if LoopRun(cached, retries, prevent, log, from, to, Raise(Foreign)) {
      var left: nat, mid: nat, between :| Turn(between, left, prevent, log, mid, to, Leaves(Raise(Foreign)));
      TurnFails(between, left, prevent, log, mid, to);
    } else {
      var mid: nat, image :| Finished(image, log, from, mid, to, r);
      FinishFails(image, log, from, mid, to);
    }
  }

  lemma TurnFails(cached: Option<Image>, left: nat, prevent: bool, log: seq<Event>, from: nat, to: nat)
    requires Turn(cached, left, prevent, log, from, to, Leaves(Raise(Foreign)))
    ensures 0 < to <= |log| && IsFailure(log[to - 1])
  {
  }

  lemma FinishFails(image: Image, log: seq<Event>, from: nat, mid: nat, to: nat)
    requires Finished(image, log, from, mid, to, Raise(Foreign))
    ensures 0 < to <= |log| && IsFailure(log[to - 1])
  {
  }

  /** The turn in which a look-up finds nothing and another image is created. */
  lemma CreatingTurn(left: nat, log: seq<Event>, from: nat, to: nat, ending: Ending)
    requires Turn(None, left, false, log, from, to, ending) && left > 0 && from + 1 < |log|
    requires log[from] == Got(None) && log[from + 1].Created?
    ensures to == from + 2 && ending == GoesOn(None)
  {
  }

  /** The turn in which a look-up finds an image that gets active. */
  lemma TakingTurn(left: nat, log: seq<Event>, from: nat, to: nat, ending: Ending)
    requires Turn(None, left, false, log, from, to, ending) && from < |log|
    requires log[from].Got? && IsGettingActive(log[from].answer)
    ensures to == from + 1 && ending == Leaves(Ok(log[from].answer))
  {
  }

  lemma LoopTakes(retries: nat, log: seq<Event>, from: nat, to: nat, r: Outcome<Option<Image>, Error>)
    requires LoopRun(None, retries, false, log, from, to, r) && retries > 0 && from + 2 < |log|
    requires log[from] == Got(None) && log[from + 1].Created?
    requires log[from + 2].Got? && IsGettingActive(log[from + 2].answer)
    ensures to == from + 3 && r == Ok(log[from + 2].answer)
  {
    var left: nat, mid: nat, between :| left <= retries && Turns(None, retries, left, false, log, from, mid, between)
                                        && Turn(between, left, false, log, mid, to, Leaves(r));
    if left == retries {
      CreatingTurn(left, log, from, to, Leaves(r));
      assert false;
    }
    var m, b := FirstTurn(None, retries, left, false, log, from, mid, between);
    CreatingTurn(retries, log, from, m, GoesOn(b));
    if left < retries - 1 {
      var m2, b2 := FirstTurn(None, retries - 1, left, false, log, m, mid, between);
      TakingTurn(retries - 1, log, m, m2, GoesOn(b2));
      assert false;
    }
    TakingTurn(left, log, mid, to, Leaves(r));
  }

  /** When there is no image and no call fails, the one that is created is uploaded and, once
      it is active, returned. */
  lemma CreatedIsUploaded(retries: nat, log: seq<Event>, from: nat, to: nat, id: ImageId, r: Outcome<Image, Error>)
    requires BodyRun(None, retries, false, log, from, to, r) && retries > 0 && from + 5 <= |log|
    requires log[from] == Got(None) && log[from + 1] == Created(id) && log[from + 2] == Got(Some(Image(id, QUEUED)))
    requires log[from + 3] == Uploaded(id, false) && log[from + 4] == Got(Some(Image(id, ACTIVE)))
    ensures r == Ok(Image(id, ACTIVE)) && to == from + 5
  {
    if r.Raise? && LoopRun(None, retries, false, log, from, to, Raise(r.error)) {
      LoopTakes(retries, log, from, to, Raise(r.error));
      assert false;
    }
    var mid: nat, image :| LoopRun(None, retries, false, log, from, mid, Ok(Some(image)))
                           && Finished(image, log, from, mid, to, r);
    LoopTakes(retries, log, from, mid, Ok(Some(image)));
    UploadedIsReturned(id, log, from, to, r);
  }

  lemma UploadedIsReturned(id: ImageId, log: seq<Event>, from: nat, to: nat, r: Outcome<Image, Error>)
    requires Finished(Image(id, QUEUED), log, from, from + 3, to, r) && from + 5 <= |log|
    requires log[from + 1] == Created(id)
    requires log[from + 3] == Uploaded(id, false) && log[from + 4] == Got(Some(Image(id, ACTIVE)))
    ensures r == Ok(Image(id, ACTIVE)) && to == from + 5
  {
    assert CreatedIn(log, from, from + 3, id);
  }
}

/** What a Heat stack fixture may ask of the Heat service, and the book-keeping of what it
    asked: a run is the sequence of calls and answers, and a legal run creates a stack only
    after seeing that there is none, and deletes by id only what it created or saw failed. */
module HeatProtocol {
  import opened Prelude

  datatype Action = INIT | CREATE | DELETE | OtherAction(name: string)

  datatype Phase = IN_PROGRESS | COMPLETE | FAILED | OtherPhase(name: string)

  /** `CREATE_COMPLETE` and the like. */
  datatype Status = Status(action: Action, phase: Phase)

  const CREATE_IN_PROGRESS := Status(CREATE, IN_PROGRESS)
  const CREATE_COMPLETE := Status(CREATE, COMPLETE)
  const CREATE_FAILED := Status(CREATE, FAILED)
  const DELETE_IN_PROGRESS := Status(DELETE, IN_PROGRESS)
  const DELETE_COMPLETE := Status(DELETE, COMPLETE)
  const DELETE_FAILED := Status(DELETE, FAILED)

  /** Heat ids are never empty. */
  type StackId = id: string | id != "" witness "id"

  datatype Stack = Stack(id: StackId, status: Status)

  datatype Error =
    | StackNotFound
    | CreationFailed(observed: Status)
    | DeletionFailed(observed: Status)
    | InvalidStatus(observed: Status)
    | QuotaLimits
    | StillPresent
    | Foreign
  {
    /** Instances of `InvalidFixtureError`. */
    predicate IsInvalidFixture() {
      CreationFailed? || DeletionFailed? || InvalidStatus? || QuotaLimits?
    }
  }

  datatype Target = ById(id: StackId) | ByName

  datatype Event =
    | Got(answer: Option<Stack>)
    | GetFailed
    | Prepared
    | PrepareFailed
    | Created(id: StackId)
    | CreateConflict
    | CreateFailed
    | DeleteAsked(target: Target, failed: bool)
  {
    predicate IsCreate() {
      Created? || CreateConflict? || CreateFailed?
    }
  }

  /** The log grew by one call. */
  ghost predicate OneMore(before: seq<Event>, after: seq<Event>, e: Event) {
    |after| == |before| + 1 && before <= after && after[|before|] == e
  }

  datatype Readiness = NotReady | Absent | Ready

  /** `cache` is what the fixture remembers, `seen` the last observation, `orphans` the
      created ids for which no delete has been asked since. */
  datatype Ledger = Ledger(cache: Option<Stack>, seen: Option<Stack>, created: set<StackId>, orphans: set<StackId>,
                           creates: nat, nameDeletes: nat, readiness: Readiness)

  function Opening(cache: Option<Stack>): Ledger {
    Ledger(cache, cache, {}, {}, 0, 0, NotReady)
  }

  function Book(l: Ledger, e: Event): Ledger {
    var next := l.(readiness := NotReady);
    match e
    case Got(answer) => next.(cache := answer, seen := answer, readiness := if answer.None? then Absent else NotReady)
    case GetFailed => next
    case Prepared => next.(readiness := if l.readiness.Absent? then Ready else NotReady)
    case PrepareFailed => next
    case Created(id) => next.(created := l.created + {id}, orphans := l.orphans + {id}, creates := l.creates + 1)
    case CreateConflict => next.(creates := l.creates + 1)
    case CreateFailed => next.(creates := l.creates + 1)
    case DeleteAsked(ById(id), _) => next.(cache := None, orphans := l.orphans - {id})
    case DeleteAsked(ByName, _) => next.(cache := None, nameDeletes := l.nameDeletes + 1)
  }

  predicate Allowed(l: Ledger, e: Event) {
    && (e.IsCreate() ==> l.readiness.Ready?)
    && (e.DeleteAsked? && e.target.ById? ==>
          || e.target.id in l.created
          || (l.seen.Some? && l.seen.value.id == e.target.id && l.seen.value.status.phase.FAILED?))
  }

  function Replay(cache: Option<Stack>, log: seq<Event>): Ledger {
    if log == [] then Opening(cache) else Book(Replay(cache, log[..|log| - 1]), log[|log| - 1])
  }

  predicate Legal(cache: Option<Stack>, log: seq<Event>) {
    log == [] || (Legal(cache, log[..|log| - 1]) && Allowed(Replay(cache, log[..|log| - 1]), log[|log| - 1]))
  }

  lemma LegalPrefix(cache: Option<Stack>, log: seq<Event>, n: nat)
    requires n <= |log| && Legal(cache, log)
    ensures Legal(cache, log[..n])
    ensures n < |log| ==> Allowed(Replay(cache, log[..n]), log[n])
    decreases |log|
  {
    if n == |log| {
      assert log[..n] == log;
    } else if n < |log| - 1 {
      LegalPrefix(cache, log[..|log| - 1], n);
      assert log[..|log| - 1][..n] == log[..n];
    }
  }

  // ---------------------------------------------------------------- what the ledger means

  /** No delete of `id` is asked in `log` from position `from` on. */
  ghost predicate NeverDeleted(log: seq<Event>, from: nat, id: StackId) {
    forall j :: from <= j < |log| ==> !(log[j].DeleteAsked? && log[j].target == ById(id))
  }

  /** The orphans are exactly the ids that some create call returned and that no later
      call asked to delete. */
  lemma {:induction false} OrphansAreUndeleted(cache: Option<Stack>, log: seq<Event>, id: StackId)
    ensures id in Replay(cache, log).orphans
            <==> exists i :: 0 <= i < |log| && log[i] == Created(id) && NeverDeleted(log, i, id)
  {
    if log == [] {
    } else {
      var n := |log| - 1;
      var init := log[..n];
      OrphansAreUndeleted(cache, init, id);
      if log[n] == Created(id) {
        assert NeverDeleted(log, n, id);
      } else if log[n].DeleteAsked? && log[n].target == ById(id) {
      } else {
        forall i | 0 <= i < n
          ensures NeverDeleted(log, i, id) <==> NeverDeleted(init, i, id)
        {
          assert forall j :: i <= j < n ==> init[j] == log[j];
        }
        if id in Replay(cache, init).orphans {
          var i :| 0 <= i < n && init[i] == Created(id) && NeverDeleted(init, i, id);
          assert log[i] == Created(id) && NeverDeleted(log, i, id);
        }
        if i :| 0 <= i < |log| && log[i] == Created(id) && NeverDeleted(log, i, id) {
          assert init[i] == Created(id) && NeverDeleted(init, i, id);
        }
      }
    }
  }

  ghost function CreateCalls(log: seq<Event>): set<int> {
    set i | 0 <= i < |log| && log[i].IsCreate()
  }

  lemma CreateCallsGrow(log: seq<Event>)
    requires log != []
    ensures var n := |log| - 1;
            |CreateCalls(log)| == |CreateCalls(log[..n])| + if log[n].IsCreate() then 1 else 0
  {
    var n := |log| - 1;
    var before := CreateCalls(log[..n]);
    assert n !in before;
    assert CreateCalls(log) == if log[n].IsCreate() then before + {n} else before;
  }

  /** The create calls counted by the ledger are those in the run. */
  lemma {:induction false} CreatesAreCounted(cache: Option<Stack>, log: seq<Event>)
    ensures Replay(cache, log).creates == |CreateCalls(log)|
  {
    if log == [] {
    } else {
      var n := |log| - 1;
      var init := log[..n];
      CreatesAreCounted(cache, init);
      CreateCallsGrow(log);
    }
  }

  predicate IsNameDelete(e: Event) {
    e.DeleteAsked? && e.target.ByName?
  }

  ghost function NameDeleteCalls(log: seq<Event>): set<int> {
    set i | 0 <= i < |log| && IsNameDelete(log[i])
  }

  lemma NameDeleteCallsGrow(log: seq<Event>)
    requires log != []
    ensures var n := |log| - 1;
            |NameDeleteCalls(log)| == |NameDeleteCalls(log[..n])| + if IsNameDelete(log[n]) then 1 else 0
  {
    var n := |log| - 1;
    var before := NameDeleteCalls(log[..n]);
    assert n !in before;
    assert NameDeleteCalls(log) == if IsNameDelete(log[n]) then before + {n} else before;
  }

  /** So are the deletions by name. */
  lemma {:induction false} NameDeletesAreCounted(cache: Option<Stack>, log: seq<Event>)
    ensures Replay(cache, log).nameDeletes == |NameDeleteCalls(log)|
  {
    if log == [] {
    } else {
      NameDeletesAreCounted(cache, log[..|log| - 1]);
      NameDeleteCallsGrow(log);
    }
  }

  lemma {:induction false} CreatedAreRecorded(cache: Option<Stack>, log: seq<Event>, id: StackId)
    ensures id in Replay(cache, log).created <==> Created(id) in log
  {
    if log == [] {
    } else {
      var n := |log| - 1;
      CreatedAreRecorded(cache, log[..n], id);
      assert log == log[..n] + [log[n]];
    }
  }

  lemma AbsentMeans(cache: Option<Stack>, log: seq<Event>)
    requires Replay(cache, log).readiness.Absent?
    ensures log != [] && log[|log| - 1] == Got(None)
  {
  }

  lemma ReadyMeans(cache: Option<Stack>, log: seq<Event>)
    requires Replay(cache, log).readiness.Ready?
    ensures |log| >= 2 && log[|log| - 1] == Prepared && log[|log| - 2] == Got(None)
  {
  }

  /** In a legal run every create call directly follows a look-up that found no stack and
      the preparation of parameters, quotas and external resources. */
  lemma {:induction false} CreatesFollowAbsence(cache: Option<Stack>, log: seq<Event>, i: nat)
    requires Legal(cache, log) && i < |log| && log[i].IsCreate()
    ensures i >= 2 && log[i - 1] == Prepared && log[i - 2] == Got(None)
  {
    LegalPrefix(cache, log, i);
    ReadyMeans(cache, log[..i]);
  }

  /** The last look-up that got an answer, among the first `i` calls. */
  ghost function LastLook(log: seq<Event>, i: nat): (last: int)
    requires i <= |log|
    ensures -1 <= last < i && (last >= 0 ==> log[last].Got?)
    ensures forall k :: last < k < i ==> !log[k].Got?
  {
    if i == 0 then -1 else if log[i - 1].Got? then i - 1 else LastLook(log, i - 1)
  }

  ghost function LastSeen(cache: Option<Stack>, log: seq<Event>, i: nat): Option<Stack>
    requires i <= |log|
  {
    var last := LastLook(log, i);
    if last >= 0 then log[last].answer else cache
  }

  lemma {:induction false} SeenIsLastSeen(cache: Option<Stack>, log: seq<Event>, i: nat)
    requires i <= |log|
    ensures Replay(cache, log[..i]).seen == LastSeen(cache, log, i)
  {
    if i == 0 {
    } else {
      assert log[..i][..i - 1] == log[..i - 1];
      SeenIsLastSeen(cache, log, i - 1);
    }
  }

  /** In a legal run a delete by id is asked only for a stack that this run created, or
      that was in a failed status when it was last seen: a healthy stack of another worker
      is never deleted by id. */
  lemma DeletesAreJustified(cache: Option<Stack>, log: seq<Event>, i: nat)
    requires Legal(cache, log) && i < |log| && log[i].DeleteAsked? && log[i].target.ById?
    ensures || Created(log[i].target.id) in log[..i]
            || var seen := LastSeen(cache, log, i);
               seen.Some? && seen.value.id == log[i].target.id && seen.value.status.phase.FAILED?
  {
    LegalPrefix(cache, log, i);
    CreatedAreRecorded(cache, log[..i], log[i].target.id);
    SeenIsLastSeen(cache, log, i);
  }
}

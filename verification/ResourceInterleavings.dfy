/** Set-ups and clean-ups of a shared resource that overlap: the look-ups, the creations, the
    deletions and the updates of the shelf are steps that workers take in any order. */
module ResourceInterleavings {
  import opened Prelude
  import opened Shelves
  import opened ResourceFixtures

  /** Where a worker's fixture is.  `since` is the number of the step that led there. */
  datatype Pc = Outside | Creating(test: Test, since: nat) | Adding(test: Test) | Using(test: Test, since: nat)
              | Deleting(since: nat)

  /** A deletion, and when the clean-up that made it had removed its test. */
  datatype Deletion = Deletion(worker: Worker, id: Id, removedAt: nat, deletedAt: nat)

  /** `heldSince`, `created`, `removals` and `deletions` are what happened so far, by the
      numbers of the steps. */
  datatype State = State(
    existing: set<Id>,
    next: Id,
    users: set<Test>,
    caches: map<Worker, Id>,
    pcs: map<Worker, Pc>,
    now: nat,
    heldSince: map<Worker, nat>,
    created: map<Id, nat>,
    removals: set<(Test, nat)>,
    deletions: set<Deletion>)

  const NOTHING := State({}, 0, {}, map[], map[], 0, map[], map[], {}, {})

  /** A set-up finds the resource, or else creates one, and adds its test; a clean-up removes
      its test and, if no user is left, looks for the resource unless it remembers one, and
      deletes it.  `found` is what the `resource` property gives. */
  datatype Action =
    | Find(worker: Worker, test: Test, found: Option<Id>)
    | Create(worker: Worker)
    | Add(worker: Worker, test: Test)
    | Remove(worker: Worker, test: Test)
    | Look(worker: Worker, found: Option<Id>)
    | Delete(worker: Worker)

  function PcOf(s: State, w: Worker): Pc {
    if w in s.pcs then s.pcs[w] else Outside
  }

  /** The remembered resource, or else any that exists, or else none. */
  predicate Answers(s: State, w: Worker, found: Option<Id>) {
    if w in s.caches then found == Some(s.caches[w])
    else if found.Some? then found.value in s.existing
    else s.existing == {}
  }

  predicate BetweenCalls(s: State, w: Worker) {
    PcOf(s, w).Outside? || PcOf(s, w).Using?
  }

  predicate Enabled(s: State, a: Action) {
    var pc := PcOf(s, a.worker);
    match a
    case Find(w, _, found) => BetweenCalls(s, w) && Answers(s, w, found)
    case Create(_) => pc.Creating?
    case Add(_, t) => pc == Adding(t)
    case Remove(w, _) => BetweenCalls(s, w)
    case Look(w, found) => pc.Deleting? && w !in s.caches && Answers(s, w, found)
    case Delete(w) => pc.Deleting? && w in s.caches
  }

  function GoTo(s: State, w: Worker, pc: Pc): State {
    s.(pcs := s.pcs[w := pc], now := s.now + 1)
  }

  /** The worker remembers the resource, if it does not already. */
  function Hold(s: State, w: Worker, id: Id): State {
    if w in s.caches then s else s.(caches := s.caches[w := id], heldSince := s.heldSince[w := s.now])
  }

  function Apply(s: State, a: Action): State
    requires Enabled(s, a)
  {
    match a
    case Find(w, t, found) =>
      if found.Some? then GoTo(Hold(s, w, found.value), w, Adding(t)) else GoTo(s, w, Creating(t, s.now))
    case Create(w) =>
      GoTo(Hold(s, w, s.next), w, Adding(PcOf(s, w).test))
        .(existing := s.existing + {s.next}, next := s.next + 1, created := s.created[s.next := s.now])
    case Add(w, t) => GoTo(s, w, Using(t, s.now)).(users := s.users + {t})
    case Remove(w, t) =>
      var users := s.users - {t};
      GoTo(s, w, if users == {} then Deleting(s.now) else Outside).(users := users, removals := s.removals + {(t, s.now)})
    case Look(w, found) =>
      if found.Some? then GoTo(Hold(s, w, found.value), w, PcOf(s, w)) else GoTo(s, w, Outside)
    case Delete(w) =>
      GoTo(s, w, Outside)
        .(existing := s.existing - {s.caches[w]},
          caches := s.caches - {w},
          heldSince := s.heldSince - {w},
          deletions := s.deletions + {Deletion(w, s.caches[w], PcOf(s, w).since, s.now)})
  }

  /** The state that a run leads to; None if some step was not enabled. */
  function Run(steps: seq<Action>): Option<State> {
    if steps == [] then Some(NOTHING)
    else
      var before := Run(steps[..|steps| - 1]);
      var last := steps[|steps| - 1];
      if before.Some? && Enabled(before.value, last) then Some(Apply(before.value, last)) else None
  }

  // ---------------------------------------------------------------- the order of the steps

  /** Somebody removed the test after step `from` and not after step `to`. */
  ghost predicate RemovedBetween(s: State, t: Test, from: nat, to: nat) {
    exists q :: (t, q) in s.removals && from < q <= to
  }

  ghost predicate IsDeleted(s: State, id: Id) {
    exists x :: x in s.deletions && x.id == id
  }

  /** What a deletion tells about a worker that uses a resource since it added its test at
      step `added`: the test came after the removal, unless somebody else removed it. */
  ghost predicate CameAfter(s: State, removed: nat, t: Test, added: nat) {
    removed < added || RemovedBetween(s, t, added, removed)
  }

  ghost predicate InvIds(s: State) {
    && (forall id: Id :: id in s.existing <==> id < s.next && !IsDeleted(s, id))
    && (forall x :: x in s.deletions ==> x.id < s.next)
    && (forall id: Id :: id in s.created <==> id < s.next)
  }

  ghost predicate InvCaches(s: State) {
    && (forall w :: w in s.caches <==> w in s.heldSince)
    && (forall w :: w in s.caches ==> s.caches[w] < s.next)
    && (forall w :: PcOf(s, w).Adding? || PcOf(s, w).Using? ==> w in s.caches)
    && (forall w :: PcOf(s, w).Creating? ==> w !in s.caches)
  }

  ghost predicate InvTimes(s: State) {
    && (forall w :: w in s.heldSince ==> s.heldSince[w] < s.now)
    && (forall w :: PcOf(s, w).Using? || PcOf(s, w).Deleting? || PcOf(s, w).Creating? ==> PcOf(s, w).since < s.now)
    && (forall r :: r in s.removals ==> r.1 < s.now)
    && (forall x :: x in s.deletions ==> x.removedAt < x.deletedAt < s.now)
  }

  ghost predicate InvUsers(s: State) {
    && (forall w :: StillThere(s, w))
    && (forall v :: PcOf(s, v).Deleting? ==> AllCameAfter(s, PcOf(s, v).since))
    && (forall x :: x in s.deletions ==> AllCameAfter(s, x.removedAt))
  }

  ghost predicate InvHeld(s: State) {
    && (forall x, w :: x in s.deletions && w in s.caches && w in s.heldSince && s.caches[w] == x.id ==>
          s.heldSince[w] < x.deletedAt && x.worker != w)
    && (forall w, id :: PcOf(s, w).Creating? && id in s.created && s.created[id] <= PcOf(s, w).since ==> IsDeleted(s, id))
  }

  lemma DeletedStays(s: State, a: Action, id: Id)
    requires Enabled(s, a)
    ensures IsDeleted(Apply(s, a), id)
            <==> IsDeleted(s, id) || (a.Delete? && s.caches[a.worker] == id)
  {
    var next := Apply(s, a);
    if a.Delete? && s.caches[a.worker] == id {
      assert Deletion(a.worker, id, PcOf(s, a.worker).since, s.now) in next.deletions;
    }
    if IsDeleted(s, id) {
      var x :| x in s.deletions && x.id == id;
      assert x in next.deletions;
    }
  }

  lemma OthersStay(s: State, a: Action)
    requires Enabled(s, a)
    ensures forall w :: w != a.worker ==> PcOf(Apply(s, a), w) == PcOf(s, w)
  {
  }

  lemma InvIdsStep(s: State, a: Action)
    requires InvIds(s) && InvCaches(s) && Enabled(s, a)
    ensures InvIds(Apply(s, a))
  {
    forall id: Id
      ensures IsDeleted(Apply(s, a), id) <==> IsDeleted(s, id) || (a.Delete? && s.caches[a.worker] == id)
    {
      DeletedStays(s, a, id);
    }
  }

  lemma InvCachesStep(s: State, a: Action)
    requires InvIds(s) && InvCaches(s) && Enabled(s, a)
    ensures InvCaches(Apply(s, a))
  {
    OthersStay(s, a);
  }

  lemma InvTimesStep(s: State, a: Action)
    requires InvTimes(s) && Enabled(s, a)
    ensures InvTimes(Apply(s, a))
  {
    OthersStay(s, a);
  }

  lemma InvHeldStep(s: State, a: Action)
    requires InvIds(s) && InvCaches(s) && InvTimes(s) && InvHeld(s) && Enabled(s, a)
    ensures InvHeld(Apply(s, a))
  {
    OthersStay(s, a);
    forall id: Id
      ensures IsDeleted(Apply(s, a), id) <==> IsDeleted(s, id) || (a.Delete? && s.caches[a.worker] == id)
    {
      DeletedStays(s, a, id);
    }
  }

  lemma RemovedStays(s: State, a: Action, t: Test, from: nat, to: nat)
    requires Enabled(s, a) && RemovedBetween(s, t, from, to)
    ensures RemovedBetween(Apply(s, a), t, from, to) && RemovedBetween(Apply(s, a), t, from, to + 1)
  {
    var q :| (t, q) in s.removals && from < q <= to;
    assert (t, q) in Apply(s, a).removals;
  }

  /** The test of a worker that uses the resource is still there or was removed. */
  ghost predicate StillThere(s: State, w: Worker) {
    PcOf(s, w).Using? ==>
      PcOf(s, w).test in s.users || RemovedBetween(s, PcOf(s, w).test, PcOf(s, w).since, s.now)
  }

  lemma StillThereStep(s: State, a: Action, w: Worker)
    requires InvTimes(s) && StillThere(s, w) && Enabled(s, a)
    ensures StillThere(Apply(s, a), w)
  {
    OthersStay(s, a);
    var next, pc := Apply(s, a), PcOf(s, w);
    if pc.Using? && a.worker != w {
      if RemovedBetween(s, pc.test, pc.since, s.now) {
        RemovedStays(s, a, pc.test, pc.since, s.now);
      } else if a.Remove? && a.test == pc.test {
        assert (pc.test, s.now) in next.removals;
      }
    }
  }

  /** A removal at step `removed` that left no users. */
  ghost predicate AllCameAfter(s: State, removed: nat) {
    forall w :: PcOf(s, w).Using? ==> CameAfter(s, removed, PcOf(s, w).test, PcOf(s, w).since)
  }

  lemma AllCameAfterStep(s: State, a: Action, removed: nat)
    requires AllCameAfter(s, removed) && removed < s.now && Enabled(s, a)
    ensures AllCameAfter(Apply(s, a), removed)
  {
    OthersStay(s, a);
    forall w | PcOf(Apply(s, a), w).Using?
      ensures CameAfter(Apply(s, a), removed, PcOf(Apply(s, a), w).test, PcOf(Apply(s, a), w).since)
    {
      var pc := PcOf(s, w);
      if w != a.worker && !(removed < pc.since) {
        RemovedStays(s, a, pc.test, pc.since, removed);
      }
    }
  }

  /** When a removal leaves no users, everybody else's test was removed. */
  lemma NobodyLeft(s: State, a: Action)
    requires InvTimes(s) && (forall w :: StillThere(s, w)) && Enabled(s, a) && a.Remove? && s.users - {a.test} == {}
    ensures AllCameAfter(Apply(s, a), s.now)
  {
    var next := Apply(s, a);
    forall w | PcOf(next, w).Using?
      ensures CameAfter(next, s.now, PcOf(next, w).test, PcOf(next, w).since)
    {
      StillThereStep(s, a, w);
      var pc := PcOf(next, w);
      var q :| (pc.test, q) in next.removals && pc.since < q <= next.now;
      assert q <= s.now by { InvTimesStep(s, a); assert (pc.test, q).1 < next.now; }
    }
  }

  lemma InvUsersStep(s: State, a: Action)
    requires InvTimes(s) && InvUsers(s) && Enabled(s, a)
    ensures InvUsers(Apply(s, a))
  {
    OthersStay(s, a);
    var next := Apply(s, a);
    forall w
      ensures StillThere(next, w)
    {
      StillThereStep(s, a, w);
    }
    forall v | PcOf(next, v).Deleting?
      ensures AllCameAfter(next, PcOf(next, v).since)
    {
      if a.Remove? && a.worker == v {
        NobodyLeft(s, a);
      } else {
        AllCameAfterStep(s, a, PcOf(s, v).since);
      }
    }
    forall x | x in next.deletions
      ensures AllCameAfter(next, x.removedAt)
    {
      AllCameAfterStep(s, a, x.removedAt);
    }
  }

  ghost predicate Inv(s: State) {
    InvIds(s) && InvCaches(s) && InvTimes(s) && InvUsers(s) && InvHeld(s)
  }

  lemma {:induction false} InvHolds(steps: seq<Action>)
    requires Run(steps).Some?
    ensures Inv(Run(steps).value)
  {
    if steps == [] {
    } else {
      var s, a := Run(steps[..|steps| - 1]).value, steps[|steps| - 1];
      InvHolds(steps[..|steps| - 1]);
      InvIdsStep(s, a);
      InvCachesStep(s, a);
      InvTimesStep(s, a);
      InvUsersStep(s, a);
      InvHeldStep(s, a);
    }
  }

  // ---------------------------------------------------------------- who is left without the resource

  /** The deletion was of what the worker uses, by another worker, after this one got hold of
      it, and the worker's test was added after the removal or removed by somebody else. */
  ghost predicate Takes(s: State, w: Worker, x: Deletion)
    requires PcOf(s, w).Using? && w in s.caches && w in s.heldSince
  {
    && x.id == s.caches[w] && x.worker != w && s.heldSince[w] < x.deletedAt
    && CameAfter(s, x.removedAt, PcOf(s, w).test, PcOf(s, w).since)
  }

  /** In every interleaving, a worker that is set up has the resource that it remembers
      exactly if nobody deleted it. */
  lemma ThereIffNotDeleted(steps: seq<Action>, w: Worker)
    requires Run(steps).Some? && PcOf(Run(steps).value, w).Using?
    ensures var s := Run(steps).value;
            && w in s.caches && w in s.heldSince
            && (s.caches[w] in s.existing <==> !IsDeleted(s, s.caches[w]))
  {
    InvHolds(steps);
  }

  /** And each deletion of what the worker uses is such a one. */
  lemma DeletionTakes(steps: seq<Action>, w: Worker, x: Deletion)
    requires Run(steps).Some? && PcOf(Run(steps).value, w).Using?
    requires var s := Run(steps).value;
             x in s.deletions && w in s.caches && x.id == s.caches[w]
    ensures w in Run(steps).value.heldSince && Takes(Run(steps).value, w, x)
  {
    InvHolds(steps);
    assert AllCameAfter(Run(steps).value, x.removedAt);
  }

  /** So the resource is there exactly if no such deletion was made. */
  lemma ThereIffNotTaken(steps: seq<Action>, w: Worker)
    requires Run(steps).Some? && PcOf(Run(steps).value, w).Using?
    ensures var s := Run(steps).value;
            && w in s.caches && w in s.heldSince
            && (s.caches[w] in s.existing <==> !exists x :: x in s.deletions && Takes(s, w, x))
  {
    ThereIffNotDeleted(steps, w);
    var s := Run(steps).value;
    if IsDeleted(s, s.caches[w]) {
      var x :| x in s.deletions && x.id == s.caches[w];
      DeletionTakes(steps, w, x);
    }
  }

  /** What the numbers of the steps stand for. */
  ghost predicate Numbered(steps: seq<Action>, s: State) {
    && s.now == |steps|
    && NumberedUsers(steps, s) && NumberedRemovals(steps, s) && NumberedDeletions(steps, s) && NumberedHolds(steps, s)
  }

  ghost predicate NumberedUsers(steps: seq<Action>, s: State) {
    forall w :: PcOf(s, w).Using? ==> IsLastAddOf(steps, PcOf(s, w).since, w, PcOf(s, w).test)
  }

  ghost predicate NumberedRemovals(steps: seq<Action>, s: State) {
    && (forall t, q :: (t, q) in s.removals ==> q < |steps| && steps[q].Remove? && steps[q].test == t)
    && (forall w :: PcOf(s, w).Deleting? ==> IsRemoveOf(steps, PcOf(s, w).since, w))
  }

  ghost predicate NumberedDeletions(steps: seq<Action>, s: State) {
    forall x :: x in s.deletions ==>
      && x.removedAt < x.deletedAt < |steps|
      && IsRemoveOf(steps, x.removedAt, x.worker) && steps[x.deletedAt] == Delete(x.worker)
  }

  ghost predicate NumberedHolds(steps: seq<Action>, s: State) {
    forall w :: w in s.heldSince ==> s.heldSince[w] < |steps| && IsHoldOf(steps[s.heldSince[w]], w)
  }

  /** The worker added this test at step `k`, and took no step since. */
  ghost predicate IsLastAddOf(steps: seq<Action>, k: nat, w: Worker, t: Test) {
    k < |steps| && steps[k] == Add(w, t) && forall j :: k < j < |steps| ==> steps[j].worker != w
  }

  predicate IsRemoveOf(steps: seq<Action>, k: nat, w: Worker) {
    k < |steps| && steps[k].Remove? && steps[k].worker == w
  }

  /** The worker finds the resource or creates it. */
  predicate IsHoldOf(a: Action, w: Worker) {
    a.worker == w && (a.Create? || ((a.Find? || a.Look?) && a.found.Some?))
  }

  lemma UsersStep(steps: seq<Action>, s: State, a: Action)
    requires s.now == |steps| && Enabled(s, a) && NumberedUsers(steps, s)
    ensures NumberedUsers(steps + [a], Apply(s, a))
  {
    OthersStay(s, a);
    forall w | PcOf(Apply(s, a), w).Using?
      ensures IsLastAddOf(steps + [a], PcOf(Apply(s, a), w).since, w, PcOf(Apply(s, a), w).test)
    {
      if w != a.worker {
        assert IsLastAddOf(steps, PcOf(s, w).since, w, PcOf(s, w).test);
      }
    }
  }

  lemma RemovalsStep(steps: seq<Action>, s: State, a: Action)
    requires s.now == |steps| && Enabled(s, a) && NumberedRemovals(steps, s)
    ensures NumberedRemovals(steps + [a], Apply(s, a))
  {
    OthersStay(s, a);
  }

  lemma DeletionsStep(steps: seq<Action>, s: State, a: Action)
    requires s.now == |steps| && Enabled(s, a) && NumberedRemovals(steps, s) && NumberedDeletions(steps, s)
    ensures NumberedDeletions(steps + [a], Apply(s, a))
  {
    forall x | x in Apply(s, a).deletions
      ensures IsRemoveOf(steps, x.removedAt, x.worker)
    {
    }
  }

  lemma HoldsStep(steps: seq<Action>, s: State, a: Action)
    requires s.now == |steps| && Enabled(s, a) && NumberedHolds(steps, s)
    ensures NumberedHolds(steps + [a], Apply(s, a))
  {
  }

  lemma {:induction false} StepsAreNumbered(steps: seq<Action>)
    requires Run(steps).Some?
    ensures Numbered(steps, Run(steps).value)
  {
    if steps == [] {
    } else {
      var init, a := steps[..|steps| - 1], steps[|steps| - 1];
      var s := Run(init).value;
      StepsAreNumbered(init);
      UsersStep(init, s, a);
      RemovalsStep(init, s, a);
      DeletionsStep(init, s, a);
      HoldsStep(init, s, a);
      assert steps == init + [a];
    }
  }

  /** No two workers run the same test. */
  ghost predicate OwnTestsOnly(steps: seq<Action>) {
    forall i, j :: 0 <= i < |steps| && 0 <= j < |steps| && SameTest(steps[i], steps[j]) ==>
      steps[i].worker == steps[j].worker
  }

  predicate SameTest(a: Action, b: Action) {
    a.Add? && b.Remove? && a.test == b.test
  }

  /** The span from when the worker got hold of the resource to when it last added its test
      overlaps the span from the removal to the deletion. */
  predicate Overlaps(s: State, w: Worker, x: Deletion)
    requires PcOf(s, w).Using? && w in s.heldSince
  {
    s.heldSince[w] < x.deletedAt && x.removedAt < PcOf(s, w).since
  }

  /** With tests of its own, a worker loses what it uses only to another worker's clean-up
      that overlaps, from its removal to its deletion, the time from when the worker got hold
      of the resource to when it added its test.  A worker that comes back to a resource got
      hold of it in an earlier set-up. */
  lemma DeletionOverlaps(steps: seq<Action>, w: Worker, x: Deletion)
    requires OwnTestsOnly(steps) && Run(steps).Some? && PcOf(Run(steps).value, w).Using?
    requires var s := Run(steps).value;
             x in s.deletions && w in s.caches && x.id == s.caches[w]
    ensures var s := Run(steps).value;
            w in s.heldSince && x.worker != w && Overlaps(s, w, x)
  {
    DeletionTakes(steps, w, x);
    StepsAreNumbered(steps);
    var s := Run(steps).value;
    var pc := PcOf(s, w);
    forall q | (pc.test, q) in s.removals
      ensures q <= pc.since
    {
      assert SameTest(steps[pc.since], steps[q]);
    }
    assert x.removedAt != pc.since;
  }

  /** So it has the resource exactly if there was no such clean-up. */
  lemma ThereIffNoOverlap(steps: seq<Action>, w: Worker)
    requires OwnTestsOnly(steps) && Run(steps).Some? && PcOf(Run(steps).value, w).Using?
    ensures var s := Run(steps).value;
            && w in s.caches && w in s.heldSince
            && (s.caches[w] in s.existing
                <==> !exists x :: x in s.deletions && x.id == s.caches[w] && x.worker != w && Overlaps(s, w, x))
  {
    ThereIffNotDeleted(steps, w);
    var s := Run(steps).value;
    if IsDeleted(s, s.caches[w]) {
      var x :| x in s.deletions && x.id == s.caches[w];
      DeletionOverlaps(steps, w, x);
    }
  }

  // ---------------------------------------------------------------- two resources

  /** What a set-up creates, after it found nothing, is the only resource exactly if all that
      others created since it looked was deleted. */
  lemma OnlyOneIffNoneCreatedSince(steps: seq<Action>, w: Worker)
    requires Run(steps).Some? && PcOf(Run(steps).value, w).Creating?
    ensures var s := Run(steps).value;
            Apply(s, Create(w)).existing == {s.next}
            <==> forall id :: id in s.created && s.created[id] > PcOf(s, w).since ==> IsDeleted(s, id)
  {
    InvHolds(steps);
    var s := Run(steps).value;
    assert s.next !in s.existing;
    assert Apply(s, Create(w)).existing == s.existing + {s.next};
    if s.existing == {} {
      assert forall id :: id in s.created ==> id !in s.existing;
    } else {
      var id :| id in s.existing;
      assert id in s.created && !IsDeleted(s, id);
      assert Apply(s, Create(w)).existing != {s.next} by { assert id in Apply(s, Create(w)).existing; }
    }
  }

  lemma Next(steps: seq<Action>, s: State, a: Action) returns (longer: seq<Action>, next: State)
    requires Run(steps) == Some(s) && Enabled(s, a)
    ensures longer == steps + [a] && next == Apply(s, a) && Run(longer) == Some(next)
    ensures forall w :: w != a.worker ==> PcOf(next, w) == PcOf(s, w)
  {
    longer, next := steps + [a], Apply(s, a);
    assert longer[..|steps|] == steps;
  }

  /** Two workers that look at the same time create two resources. */
  lemma BothCreate(w: Worker, v: Worker, t: Test, u: Test) returns (steps: seq<Action>, s: State)
    requires w != v
    ensures Run(steps) == Some(s) && s.existing == {0, 1} && s.caches == map[w := 0, v := 1]
  {
    steps, s := [], NOTHING;
    steps, s := Next(steps, s, Find(w, t, None));
    steps, s := Next(steps, s, Find(v, u, None));
    steps, s := Next(steps, s, Create(w));
    steps, s := Next(steps, s, Create(v));
  }

  lemma OneUser(w: Worker, t: Test) returns (steps: seq<Action>, s: State)
    ensures Run(steps) == Some(s) && PcOf(s, w).Using? && s.users == {t} && s.existing == {0} && s.caches == map[w := 0]
    ensures forall v :: v != w ==> PcOf(s, v) == Outside
  {
    steps, s := [], NOTHING;
    steps, s := Next(steps, s, Find(w, t, None));
    steps, s := Next(steps, s, Create(w));
    steps, s := Next(steps, s, Add(w, t));
  }

  /** A worker that was not set up before finds the resource just before the last user
      deletes it, and adds its test just after: the locks around the shelf do not help. */
  lemma OverlapTakesTheResource(w: Worker, v: Worker, t: Test, u: Test) returns (steps: seq<Action>, s: State)
    requires w != v && t != u
    ensures Run(steps) == Some(s) && PcOf(s, v).Using? && s.users == {u}
    ensures v in s.caches && s.caches[v] !in s.existing
  {
    steps, s := OneUser(w, t);
    steps, s := Next(steps, s, Find(v, u, Some(0)));
    steps, s := Next(steps, s, Remove(w, t));
    assert s.users == {};
    steps, s := Next(steps, s, Delete(w));
    steps, s := Next(steps, s, Add(v, u));
  }

  // ---------------------------------------------------------------- calls that nothing interrupts

  /** What the workers share, as calls that run one by one see it. */
  ghost predicate Agrees(s: State, shared: Shared) {
    && s.existing == (if shared.resource.Some? then {shared.resource.value} else {})
    && s.next == shared.next && s.users == shared.users && s.caches == shared.caches
  }

  ghost predicate Matches(s: State, shared: Shared) {
    Agrees(s, shared) && forall w :: BetweenCalls(s, w)
  }

  /** The first half of a set-up. */
  lemma CreationSteps(steps: seq<Action>, s: State, shared: Shared, w: Worker, t: Test)
      returns (longer: seq<Action>, next: State)
    requires Run(steps) == Some(s) && Matches(s, shared)
    ensures steps <= longer && Run(longer) == Some(next) && PcOf(next, w) == Adding(t)
    ensures Agrees(next, Updated(shared, w, Created(LocalOf(shared, w)))) && forall v :: v != w ==> BetweenCalls(next, v)
  {
    var found := Lookup(LocalOf(shared, w));
    assert BetweenCalls(s, w);
    longer, next := Next(steps, s, Find(w, t, found));
    if found.None? {
      longer, next := Next(longer, next, Create(w));
    }
    assert w in s.caches ==> shared.caches[w := s.caches[w]] == shared.caches;
    forall v | v != w
      ensures BetweenCalls(next, v)
    {
      assert BetweenCalls(s, v);
    }
  }

  lemma SetUpSteps(steps: seq<Action>, s: State, shared: Shared, w: Worker, t: Test)
      returns (longer: seq<Action>, next: State)
    requires Run(steps) == Some(s) && Matches(s, shared)
    ensures steps <= longer && Run(longer) == Some(next) && Matches(next, Do(shared, SetUp(w, t)))
  {
    longer, next := CreationSteps(steps, s, shared, w, t);
    var half := next;
    longer, next := Next(longer, next, Add(w, t));
    forall v | v != w
      ensures BetweenCalls(next, v)
    {
      assert BetweenCalls(half, v);
    }
  }

  /** The second half of a clean-up that left no users. */
  lemma DeletionSteps(steps: seq<Action>, s: State, shared: Shared, w: Worker)
      returns (longer: seq<Action>, next: State)
    requires Run(steps) == Some(s) && PcOf(s, w).Deleting? && forall v :: v != w ==> BetweenCalls(s, v)
    requires Agrees(s, shared)
    ensures steps <= longer && Run(longer) == Some(next)
    ensures Matches(next, Updated(shared, w, Deleted(LocalOf(shared, w))))
  {
    longer, next := steps, s;
    if w !in s.caches {
      longer, next := Next(longer, next, Look(w, shared.resource));
    }
    if w in next.caches {
      longer, next := Next(longer, next, Delete(w));
    }
    assert w !in shared.caches ==> shared.caches - {w} == shared.caches;
    forall v | v != w
      ensures BetweenCalls(next, v)
    {
      assert BetweenCalls(s, v);
    }
  }

  lemma CleanUpSteps(steps: seq<Action>, s: State, shared: Shared, w: Worker, t: Test)
      returns (longer: seq<Action>, next: State)
    requires Run(steps) == Some(s) && Matches(s, shared)
    ensures steps <= longer && Run(longer) == Some(next) && Matches(next, Do(shared, CleanUp(w, t)))
  {
    var rest := shared.(users := shared.users - {t});
    longer, next := Next(steps, s, Remove(w, t));
    forall v | v != w
      ensures BetweenCalls(next, v)
    {
      assert BetweenCalls(s, v);
    }
    if rest.users == {} {
      longer, next := DeletionSteps(longer, next, rest, w);
      assert LocalOf(rest, w) == LocalOf(shared, w).(users := rest.users);
    } else {
      assert w in s.caches ==> shared.caches[w := s.caches[w]] == shared.caches;
      assert w !in s.caches ==> shared.caches - {w} == shared.caches;
    }
  }

  /** An uninterrupted call is one of the steps that it takes here. */
  lemma CallIsItsSteps(steps: seq<Action>, s: State, shared: Shared, call: Call)
      returns (longer: seq<Action>, next: State)
    requires Run(steps) == Some(s) && Matches(s, shared)
    ensures steps <= longer && Run(longer) == Some(next) && Matches(next, Do(shared, call))
  {
    match call {
      case SetUp(w, t) => longer, next := SetUpSteps(steps, s, shared, w, t);
      case CleanUp(w, t) => longer, next := CleanUpSteps(steps, s, shared, w, t);
    }
  }

  /** So every history of calls that do not overlap is a run. */
  lemma {:induction false} HistoryIsRun(history: seq<Call>) returns (steps: seq<Action>, s: State)
    ensures Run(steps) == Some(s) && Matches(s, DoAll(history))
  {
    if history == [] {
      steps, s := [], NOTHING;
    } else {
      steps, s := HistoryIsRun(history[..|history| - 1]);
      steps, s := CallIsItsSteps(steps, s, DoAll(history[..|history| - 1]), history[|history| - 1]);
    }
  }
}

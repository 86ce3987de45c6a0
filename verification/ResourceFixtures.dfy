/** Resources that are found or created by name and shared between the tests of several
    workers, each of which keeps what it found. */
module ResourceFixtures {
  import opened Prelude
  import opened Shelves

  type Worker = nat
  type Id = nat

  /** The one resource of this name, if it exists, and the next identifier. */
  class Cloud {
    var resource: Option<Id>
    var next: Id

    constructor ()
      ensures resource == None && next == 0
    {
      resource, next := None, 0;
    }

    method Create() returns (id: Id)
      modifies this
      ensures id == old(next) && resource == Some(id) && next == id + 1
    {
      id := next;
      resource, next := Some(id), next + 1;
    }

    /** Deleting what does not exist changes nothing. */
    method Delete(id: Id)
      modifies this`resource
      ensures resource == if old(resource) == Some(id) then None else old(resource)
    {
      if resource == Some(id) { resource := None; }
    }
  }

  class ResourceFixture {
    const cloud: Cloud
    const shelf: ShelfFile
    const name: Resource
    /** What `_resource` holds. */
    var cached: Option<Id>

    constructor (cloud: Cloud, shelf: ShelfFile, name: Resource)
      ensures this.cloud == cloud && this.shelf == shelf && this.name == name && cached == None
    {
      this.cloud, this.shelf, this.name, cached := cloud, shelf, name, None;
    }

    /** What this fixture sees of the whole. */
    ghost function View(): Local
      reads this, cloud, shelf
    {
      Local(cloud.resource, cloud.next, Members(shelf.db, name), cached)
    }

    /** The `resource` property looks for the resource unless one is cached. */
    method GetResource() returns (found: Option<Id>)
      modifies this
      ensures found == cached == Lookup(old(View()))
    {
      if cached.None? {
        cached := cloud.resource;
      }
      found := cached;
    }

    method TryCreateResource()
      modifies this, cloud
      ensures View() == Created(old(View()))
    {
      var found := GetResource();
      if found.None? {
        var id := cloud.Create();
        cached := Some(id);
      }
    }

    /** Fails, without adding the test, when the resource may not be created and is not found. */
    method SetupFixture(test: Test, preventCreate: bool) returns (ok: bool)
      modifies this, cloud, shelf
      ensures ok <==> !preventCreate || Lookup(old(View())).Some?
      ensures !preventCreate ==> View() == SetUpLocal(old(View()), test)
      ensures preventCreate ==>
                && cloud.resource == old(cloud.resource) && cached == Lookup(old(View()))
                && Members(shelf.db, name) == Members(old(shelf.db), name) + if ok then {test} else {}
      ensures forall r :: r != name ==> Members(shelf.db, r) == Members(old(shelf.db), r)
    {
      if preventCreate {
        var _ := GetResource();
      } else {
        TryCreateResource();
      }
      var found := GetResource();
      ok := found.Some?;
      if ok {
        var _ := shelf.AddMeToSharedResource(name, test);
      }
    }

    method CleanupFixture(test: Test)
      modifies this, cloud, shelf
      ensures View() == CleanUpLocal(old(View()), test)
      ensures forall r :: r != name ==> Members(shelf.db, r) == Members(old(shelf.db), r)
    {
      var users := shelf.RemoveMeFromSharedResource(name, test);
      if |users| == 0 {
        var found := GetResource();
        if found.Some? {
          cloud.Delete(found.value);
          cached := None;
        }
      }
    }
  }

  // ---------------------------------------------------------------- one call

  datatype Local = Local(resource: Option<Id>, next: Id, users: set<Test>, cached: Option<Id>)

  function Lookup(s: Local): Option<Id> {
    if s.cached.Some? then s.cached else s.resource
  }

  function Created(s: Local): Local {
    match Lookup(s)
    case Some(id) => s.(cached := Some(id))
    case None => s.(resource := Some(s.next), next := s.next + 1, cached := Some(s.next))
  }

  function SetUpLocal(s: Local, test: Test): Local {
    Created(s).(users := s.users + {test})
  }

  function CleanUpLocal(s: Local, test: Test): Local {
    var rest := s.(users := s.users - {test});
    if rest.users != {} then rest
    else Deleted(rest)
  }

  /** What is remembered, or else found, is deleted and forgotten. */
  function Deleted(s: Local): Local {
    s.(resource := if Lookup(s) == s.resource then None else s.resource, cached := None)
  }

  // ---------------------------------------------------------------- runs of several workers

  datatype Call = SetUp(worker: Worker, test: Test) | CleanUp(worker: Worker, test: Test)

  datatype Shared = Shared(resource: Option<Id>, next: Id, users: set<Test>, caches: map<Worker, Id>)

  const EMPTY := Shared(None, 0, {}, map[])

  function LocalOf(s: Shared, w: Worker): Local {
    Local(s.resource, s.next, s.users, if w in s.caches then Some(s.caches[w]) else None)
  }

  function Updated(s: Shared, w: Worker, l: Local): Shared {
    Shared(l.resource, l.next, l.users, if l.cached.Some? then s.caches[w := l.cached.value] else s.caches - {w})
  }

  function Do(s: Shared, call: Call): Shared {
    match call
    case SetUp(w, t) => Updated(s, w, SetUpLocal(LocalOf(s, w), t))
    case CleanUp(w, t) => Updated(s, w, CleanUpLocal(LocalOf(s, w), t))
  }

  /** The calls run one by one. */
  function DoAll(history: seq<Call>): Shared {
    if history == [] then EMPTY
    else Do(DoAll(history[..|history| - 1]), history[|history| - 1])
  }

  // ---------------------------------------------------------------- who remembers what

  /** The call is a clean-up that leaves no users, so its worker deletes what it remembers,
      or else finds. */
  predicate Empties(history: seq<Call>, k: nat)
    requires k < |history|
  {
    history[k].CleanUp? && DoAll(history[..k + 1]).users == {}
  }

  /** The set-up with which the worker got hold of the resource that it remembers: the first
      one since its last clean-up that left no users; -1 if there is none. */
  function Since(history: seq<Call>, w: Worker): (k: int)
    ensures -1 <= k < |history| && (k >= 0 ==> history[k].SetUp? && history[k].worker == w)
  {
    if history == [] then -1
    else
      var n := |history| - 1;
      var before := Since(history[..n], w);
      if history[n].worker != w then before
      else if history[n].SetUp? then if before >= 0 then before else n
      else if Empties(history, n) then -1
      else before
  }

  /** Since the worker got hold of the resource, another worker that had not lost it cleaned
      up and left no users. */
  ghost predicate Lost(history: seq<Call>, w: Worker)
    decreases |history|
  {
    exists k :: 0 <= Since(history, w) < k < |history| && TakenBy(history, w, k)
  }

  ghost predicate TakenBy(history: seq<Call>, w: Worker, k: nat)
    requires k < |history|
    decreases |history|, 0
  {
    Empties(history, k) && history[k].worker != w && !Lost(history[..k], history[k].worker)
  }

  lemma EmptiesBefore(history: seq<Call>, k: nat)
    requires k < |history| - 1
    ensures Empties(history[..|history| - 1], k) == Empties(history, k)
  {
    assert history[..|history| - 1][..k + 1] == history[..k + 1];
  }

  lemma TakenBefore(history: seq<Call>, w: Worker, k: nat)
    requires k < |history| - 1
    ensures TakenBy(history[..|history| - 1], w, k) == TakenBy(history, w, k)
  {
    EmptiesBefore(history, k);
    assert history[..|history| - 1][..k] == history[..k];
  }

  /** As long as the worker holds on to what it has, only the last call can take it away. */
  lemma LostExtends(history: seq<Call>, w: Worker)
    requires history != [] && 0 <= Since(history, w) == Since(history[..|history| - 1], w)
    ensures Lost(history, w) <==> Lost(history[..|history| - 1], w) || TakenBy(history, w, |history| - 1)
  {
    var n := |history| - 1;
    var init := history[..n];
    forall k | 0 <= k < n
      ensures TakenBy(init, w, k) == TakenBy(history, w, k)
    {
      TakenBefore(history, w, k);
    }
  }

  lemma {:induction false} IdsAreOld(history: seq<Call>, w: Worker)
    ensures var s := DoAll(history);
            && (s.resource.Some? ==> s.resource.value < s.next)
            && (w in s.caches ==> s.caches[w] < s.next)
            && (w in s.caches <==> Since(history, w) >= 0)
  {
    if history == [] {
    } else {
      assert history[..|history|] == history;
      IdsAreOld(history[..|history| - 1], w);
      IdsAreOld(history[..|history| - 1], history[|history| - 1].worker);
    }
  }

  /** What the worker remembers exists, and is the resource that others find. */
  predicate Holds(s: Shared, w: Worker) {
    w in s.caches && s.resource == Some(s.caches[w])
  }

  /** A call of another worker takes the resource away exactly if it deletes the same one. */
  lemma OthersCall(s: Shared, call: Call, w: Worker)
    requires call.worker != w && w in s.caches && s.caches[w] < s.next
    ensures w in Do(s, call).caches
    ensures Holds(Do(s, call), w)
            <==> Holds(s, w) && !(call.CleanUp? && Do(s, call).users == {} && Lookup(LocalOf(s, call.worker)) == s.resource)
  {
  }

  lemma OwnCall(s: Shared, call: Call, w: Worker)
    requires call.worker == w
    ensures w in s.caches && w in Do(s, call).caches ==> Holds(Do(s, call), w) == Holds(s, w)
    ensures w !in s.caches && call.SetUp? ==> Holds(Do(s, call), w)
  {
  }

  /** For every worker, after any history of calls: what it remembers is there exactly if,
      since it got hold of it, no other worker that had not lost it itself cleaned up and
      left no users. */
  lemma {:induction false} HoldsIffNotLost(history: seq<Call>, w: Worker)
    ensures Holds(DoAll(history), w) <==> Since(history, w) >= 0 && !Lost(history, w)
  {
    IdsAreOld(history, w);
    if history == [] {
    } else {
      var n := |history| - 1;
      var init, call := history[..n], history[n];
      var s := DoAll(init);
      assert history[..n + 1] == history;
      IdsAreOld(init, w);
      HoldsIffNotLost(init, w);
      if Since(history, w) >= 0 && Since(history, w) == Since(init, w) {
        LostExtends(history, w);
        if call.worker == w {
          OwnCall(s, call, w);
        } else {
          OthersCall(s, call, w);
          IdsAreOld(init, call.worker);
          HoldsIffNotLost(init, call.worker);
        }
      } else if call.worker == w {
        OwnCall(s, call, w);
      }
    }
  }

  /** When the last user cleans up, nothing is left behind exactly if there was nothing, or
      the worker had not lost what it remembered: otherwise it deletes that again, and what
      was created since stays, although nobody uses it. */
  lemma LastUserLeavesNothingIff(history: seq<Call>)
    requires history != [] && Empties(history, |history| - 1)
    ensures var init, last := history[..|history| - 1], history[|history| - 1];
            DoAll(history).resource == None <==> DoAll(init).resource == None || !Lost(init, last.worker)
  {
    var init, w := history[..|history| - 1], history[|history| - 1].worker;
    assert history[..|history|] == history;
    IdsAreOld(init, w);
    HoldsIffNotLost(init, w);
  }

  // ---------------------------------------------------------------- whole runs

  /** The worker's last call was a set-up. */
  predicate IsSetUp(history: seq<Call>, w: Worker) {
    history != []
    && var last := history[|history| - 1];
       if last.worker == w then last.SetUp? else IsSetUp(history[..|history| - 1], w)
  }

  /** Each worker that is set up has the resource that it remembers. */
  ghost predicate AllServed(history: seq<Call>) {
    forall w :: IsSetUp(history, w) ==> Holds(DoAll(history), w)
  }

  /** After each call of the run. */
  ghost predicate AlwaysServed(history: seq<Call>) {
    AllServed(history) && (history == [] || AlwaysServed(history[..|history| - 1]))
  }

  /** Since the worker got hold of the resource, another worker's clean-up left no users. */
  ghost predicate LeftBehind(history: seq<Call>, w: Worker) {
    exists k :: 0 <= Since(history, w) < k < |history| && Empties(history, k) && history[k].worker != w
  }

  ghost predicate NoneLeftBehind(history: seq<Call>) {
    forall w :: IsSetUp(history, w) ==> !LeftBehind(history, w)
  }

  /** After no call of the run is a worker set up that was left behind. */
  ghost predicate NeverLeftBehind(history: seq<Call>) {
    NoneLeftBehind(history) && (history == [] || NeverLeftBehind(history[..|history| - 1]))
  }

  /** Workers clean up what they set up.  A clean-up without a set-up, as it may be the first
      call on a shared fixture, comes from a worker that remembers nothing. */
  ghost predicate CleansUpInTurn(history: seq<Call>) {
    forall k :: 0 <= k < |history| && history[k].CleanUp? ==>
      IsSetUp(history[..k], history[k].worker) || Since(history[..k], history[k].worker) < 0
  }

  lemma {:induction false} SetUpHoldsSince(history: seq<Call>, w: Worker)
    requires IsSetUp(history, w)
    ensures Since(history, w) >= 0
  {
    var n := |history| - 1;
    if history[n].worker == w {
    } else {
      SetUpHoldsSince(history[..n], w);
    }
  }

  lemma {:induction false} ServedBefore(history: seq<Call>, k: nat)
    requires AlwaysServed(history) && k <= |history|
    ensures AllServed(history[..k])
  {
    if k == |history| {
      assert history[..k] == history;
    } else {
      ServedBefore(history[..|history| - 1], k);
      assert history[..|history| - 1][..k] == history[..k];
    }
  }

  /** Where all were served so far, any other worker's clean-up that leaves no users takes
      the resource away. */
  lemma TakenIffEmptied(history: seq<Call>, w: Worker, k: nat)
    requires k < |history| && CleansUpInTurn(history) && AlwaysServed(history[..|history| - 1])
    ensures TakenBy(history, w, k) <==> Empties(history, k) && history[k].worker != w
  {
    if history[k].CleanUp? {
      ServedBefore(history[..|history| - 1], k);
      assert history[..|history| - 1][..k] == history[..k];
      HoldsIffNotLost(history[..k], history[k].worker);
    }
  }

  lemma LostIffLeftBehind(history: seq<Call>, w: Worker)
    requires CleansUpInTurn(history) && history != [] && AlwaysServed(history[..|history| - 1])
    ensures Lost(history, w) <==> LeftBehind(history, w)
  {
    forall k | 0 <= k < |history|
      ensures TakenBy(history, w, k) <==> Empties(history, k) && history[k].worker != w
    {
      TakenIffEmptied(history, w, k);
    }
  }

  /** Workers that are set up always have the resource exactly if none is set up after being
      left behind: it was set up before, did not itself delete since, and another worker's
      clean-up left no users since. */
  lemma {:induction false} AlwaysServedIffNeverLeftBehind(history: seq<Call>)
    requires CleansUpInTurn(history)
    ensures AlwaysServed(history) <==> NeverLeftBehind(history)
  {
    if history == [] {
    } else {
      var init := history[..|history| - 1];
      assert CleansUpInTurn(init) by {
        assert forall k :: 0 <= k < |init| ==> init[..k] == history[..k];
      }
      AlwaysServedIffNeverLeftBehind(init);
      if AlwaysServed(init) {
        forall w | IsSetUp(history, w)
          ensures Holds(DoAll(history), w) <==> !LeftBehind(history, w)
        {
          SetUpHoldsSince(history, w);
          HoldsIffNotLost(history, w);
          LostIffLeftBehind(history, w);
        }
      }
    }
  }

  // ---------------------------------------------------------------- when a worker is left behind

  /** No two workers run the same test. */
  ghost predicate OwnTests(history: seq<Call>) {
    forall i, j :: 0 <= i < |history| && 0 <= j < |history| && history[i].test == history[j].test ==>
      history[i].worker == history[j].worker
  }

  /** The last set-up of a worker. */
  function LastSetUp(history: seq<Call>, w: Worker): (i: int)
    ensures -1 <= i < |history| && (i >= 0 ==> history[i].SetUp? && history[i].worker == w)
    ensures forall j :: i < j < |history| && history[j].worker == w ==> history[j].CleanUp?
  {
    if history == [] then -1
    else
      var n := |history| - 1;
      if history[n].SetUp? && history[n].worker == w then n else LastSetUp(history[..n], w)
  }

  lemma {:induction false} NoCallSince(history: seq<Call>, w: Worker)
    requires IsSetUp(history, w)
    ensures var i := LastSetUp(history, w);
            i >= 0 && forall j :: i < j < |history| ==> history[j].worker != w
  {
    var n := |history| - 1;
    if history[n].worker == w {
    } else {
      NoCallSince(history[..n], w);
    }
  }

  lemma {:induction false} TestStays(history: seq<Call>, i: nat, k: nat)
    requires OwnTests(history) && i < k <= |history| && history[i].SetUp?
    requires forall j :: i < j < |history| ==> history[j].worker != history[i].worker
    ensures history[i].test in DoAll(history[..k]).users
  {
    assert history[..k][..k - 1] == history[..k - 1];
    if k == i + 1 {
    } else {
      TestStays(history, i, k - 1);
      assert history[k - 1].worker != history[i].worker;
    }
  }

  /** Only while it is away: the clean-up that left no users came before its last set-up. */
  lemma LeftBehindWhileAway(history: seq<Call>, w: Worker, k: nat)
    requires OwnTests(history) && IsSetUp(history, w) && k < |history| && Empties(history, k)
    ensures k < LastSetUp(history, w)
  {
    NoCallSince(history, w);
    if LastSetUp(history, w) < k {
      TestStays(history, LastSetUp(history, w), k + 1);
    }
  }

  lemma Then(history: seq<Call>, call: Call) returns (longer: seq<Call>)
    ensures longer == history + [call] && DoAll(longer) == Do(DoAll(history), call)
  {
    longer := history + [call];
    assert longer[..|history|] == history;
  }

  /** Such a run: two workers share the resource, the first one leaves, the second one
      deletes it, and the first one comes back. */
  lemma ReturningWorkerIsStale(w: Worker, v: Worker, t: Test, u: Test)
    requires w != v && t != u
    ensures var history := [SetUp(w, t), SetUp(v, u), CleanUp(w, t), CleanUp(v, u), SetUp(w, t)];
            !AlwaysServed(history) && DoAll(history).users == {t} && DoAll(history).resource == None
  {
    var history := Then([], SetUp(w, t));
    history := Then(history, SetUp(v, u));
    history := Then(history, CleanUp(w, t));
    assert DoAll(history).users == {u};
    history := Then(history, CleanUp(v, u));
    assert DoAll(history).users == {};
    history := Then(history, SetUp(w, t));
    assert history == [SetUp(w, t), SetUp(v, u), CleanUp(w, t), CleanUp(v, u), SetUp(w, t)];
    assert IsSetUp(history, w);
  }

  /** And a run that leaves a resource behind: the worker that came back is the last one to
      leave, and deletes once more what the other one had deleted. */
  lemma LastUserLeavesOne(w: Worker, v: Worker, t: Test, u: Test)
    requires w != v && t != u
    ensures var history := [SetUp(w, t), SetUp(v, u), CleanUp(w, t), CleanUp(v, u),
                            SetUp(v, u), SetUp(w, t), CleanUp(v, u), CleanUp(w, t)];
            DoAll(history).users == {} && DoAll(history).resource == Some(1)
  {
    var history := Then([], SetUp(w, t));
    history := Then(history, SetUp(v, u));
    history := Then(history, CleanUp(w, t));
    assert DoAll(history).users == {u};
    history := Then(history, CleanUp(v, u));
    assert DoAll(history).users == {};
    history := Then(history, SetUp(v, u));
    history := Then(history, SetUp(w, t));
    history := Then(history, CleanUp(v, u));
    assert DoAll(history).users == {t};
    history := Then(history, CleanUp(w, t));
    assert DoAll(history).users == {};
    assert history == [SetUp(w, t), SetUp(v, u), CleanUp(w, t), CleanUp(v, u),
                       SetUp(v, u), SetUp(w, t), CleanUp(v, u), CleanUp(w, t)];
  }

  /** A worker's set-up comes before all its other calls. */
  ghost predicate SetUpFirstAndOnce(history: seq<Call>) {
    forall i, j :: 0 <= i < j < |history| && history[j].SetUp? ==> history[i].worker != history[j].worker
  }

  /** Workers that are set up once, as in a run where each worker cleans up at its end, are
      always served. */
  lemma {:induction false} OnceEachIsServed(history: seq<Call>)
    requires SetUpFirstAndOnce(history) && OwnTests(history)
    ensures AlwaysServed(history)
  {
    forall w | IsSetUp(history, w)
      ensures Holds(DoAll(history), w)
    {
      SetUpHoldsSince(history, w);
      HoldsIffNotLost(history, w);
      assert Since(history, w) == LastSetUp(history, w);
      if k :| 0 <= Since(history, w) < k < |history| && Empties(history, k) {
        LeftBehindWhileAway(history, w, k);
        assert false;
      }
    }
    if history == [] {
    } else {
      OnceEachIsServed(history[..|history| - 1]);
    }
  }
}

/** Fixtures that are shared between tests: which calls of setUp and cleanUp do something,
    and operations, which run at most once. */
module Lifecycle {
  import opened Prelude

  // ---------------------------------------------------------------- shared fixtures

  /** A call, whether the body raises if the call executes it, and whether
      TOBIKO_PREVENT_CREATE is set at the time. */
  datatype Call = SetUp(fails: bool, prevented: bool) | CleanUp(fails: bool, prevented: bool)

  datatype Body = SetupFixture | CleanupFixture

  /** The two flags, and the bodies that were executed. */
  datatype State = State(setupExecuted: bool, cleanupExecuted: bool, log: seq<Body>)

  const INITIAL := State(false, false, [])

  function Cleaned(s: State, prevented: bool): State {
    State(false, true, if prevented || s.cleanupExecuted then s.log else s.log + [CleanupFixture])
  }

  function Step(s: State, call: Call): State {
    match call
    case SetUp(fails, prevented) =>
      if s.setupExecuted then s
      else
        var log := s.log + [SetupFixture];
        if fails then Cleaned(s.(log := log), prevented) else State(true, false, log)
    case CleanUp(fails, prevented) =>
      var cleaned := Cleaned(s, prevented);
      if fails && !prevented && !s.cleanupExecuted then s.(log := cleaned.log) else cleaned
  }

  class SharedFixture {
    var setupExecuted: bool
    var cleanupExecuted: bool
    var cleanups: seq<Body>
    ghost var log: seq<Body>

    constructor ()
      ensures Valid() && View() == INITIAL
    {
      setupExecuted, cleanupExecuted, cleanups, log := false, false, [], [];
    }

    /** Between calls nothing is registered. */
    ghost predicate Valid()
      reads this
    {
      cleanups == []
    }

    ghost function View(): State
      reads this
    {
      State(setupExecuted, cleanupExecuted, log)
    }

    /** The base class executes `_setUp`; when it raises, it cleans up and raises. */
    method SetUp(fails: bool, prevented: bool) returns (raised: bool)
      requires Valid()
      modifies this
      ensures Valid() && View() == Step(old(View()), Call.SetUp(fails, prevented))
      ensures raised <==> fails && !old(setupExecuted)
    {
      raised := false;
      if !setupExecuted {
        log := log + [SetupFixture];
        if fails {
          // The base class collects what cleaning up raises.
          var _ := CleanUp(false, prevented);
          return true;
        }
        cleanupExecuted := false;
        setupExecuted := true;
      }
    }

    /** The base class executes what is registered, and then raises if something of it did;
        where nothing is registered there is nothing to raise. */
    method CleanUp(fails: bool, prevented: bool) returns (raised: bool)
      requires Valid()
      modifies this
      ensures Valid() && View() == Step(old(View()), Call.CleanUp(fails, prevented))
      ensures raised <==> fails && !prevented && !old(cleanupExecuted)
    {
      if prevented {
      } else if !cleanupExecuted {
        cleanups := cleanups + [CleanupFixture];
      }
      raised := fails && cleanups != [];
      log := log + cleanups;
      cleanups := [];
      if raised { return; }
      setupExecuted := false;
      cleanupExecuted := true;
    }
  }

  // ---------------------------------------------------------------- histories of calls

  function After(history: seq<Call>): State {
    if history == [] then INITIAL
    else Step(After(history[..|history| - 1]), history[|history| - 1])
  }

  ghost predicate NothingFails(history: seq<Call>) {
    forall i :: 0 <= i < |history| ==> !history[i].fails
  }

  predicate SameKind(a: Call, b: Call) {
    a.SetUp? == b.SetUp?
  }

  /** The bodies of the calls that do not directly follow a call of the same kind, without
      those that were prevented. */
  function Alternation(history: seq<Call>): seq<Body> {
    if history == [] then []
    else
      var n := |history| - 1;
      var call, before := history[n], Alternation(history[..n]);
      if n > 0 && SameKind(history[n - 1], call) then before
      else if call.SetUp? then before + [SetupFixture]
      else if call.prevented then before
      else before + [CleanupFixture]
  }

  /** As long as no body raises, a call does something exactly when it does not follow
      another one of its kind. */
  lemma {:induction false} OnlyAlternatingCallsAct(history: seq<Call>)
    requires NothingFails(history)
    ensures var s := After(history);
            && s.log == Alternation(history)
            && (s.setupExecuted <==> history != [] && history[|history| - 1].SetUp?)
            && (s.cleanupExecuted <==> history != [] && history[|history| - 1].CleanUp?)
  {
    if history == [] {
    } else {
      var n := |history| - 1;
      OnlyAlternatingCallsAct(history[..n]);
      assert !history[n].fails;
    }
  }

  ghost predicate Alternates(log: seq<Body>) {
    forall i :: 0 < i < |log| ==> log[i] != log[i - 1]
  }

  /** With clean-up enabled, set-ups and clean-ups take turns. */
  lemma {:induction false} BodiesAlternate(history: seq<Call>)
    requires NothingFails(history) && forall i :: 0 <= i < |history| ==> !history[i].prevented
    ensures Alternates(After(history).log)
  {
    OnlyAlternatingCallsAct(history);
    AlternationAlternates(history);
  }

  lemma {:induction false} AlternationAlternates(history: seq<Call>)
    requires forall i :: 0 <= i < |history| ==> !history[i].prevented
    ensures var log := Alternation(history);
            && Alternates(log)
            && (history == [] <==> log == [])
            && (history != [] ==> log[|log| - 1].SetupFixture? == history[|history| - 1].SetUp?)
  {
    if history == [] {
    } else {
      AlternationAlternates(history[..|history| - 1]);
    }
  }

  /** The clean-up of a fixture that is set up raises. */
  predicate CleanUpRaises(call: Call) {
    call.CleanUp? && call.fails && !call.prevented
  }

  /** Some set-up succeeded since the last clean-up that did not raise. */
  ghost predicate IsSetUp(history: seq<Call>) {
    exists i :: 0 <= i < |history| && history[i].SetUp? && !history[i].fails && NotCleanedSince(history, i)
  }

  ghost predicate NotCleanedSince(history: seq<Call>, i: nat) {
    forall j :: i < j < |history| ==> history[j].SetUp? || CleanUpRaises(history[j])
  }

  lemma IsSetUpExtends(history: seq<Call>)
    requires history != []
    ensures var n := |history| - 1;
            IsSetUp(history)
            <==> || (history[n].SetUp? && (!history[n].fails || IsSetUp(history[..n])))
                 || (CleanUpRaises(history[n]) && IsSetUp(history[..n]))
  {
    var n := |history| - 1;
    var init := history[..n];
    if IsSetUp(init) && (history[n].SetUp? || CleanUpRaises(history[n])) {
      var i :| 0 <= i < n && init[i].SetUp? && !init[i].fails && NotCleanedSince(init, i);
      assert forall j :: 0 <= j < n ==> history[j] == init[j];
      assert history[i] == init[i] && NotCleanedSince(history, i);
    }
    if history[n].SetUp? && !history[n].fails {
      assert NotCleanedSince(history, n);
    }
    if IsSetUp(history) {
      var i :| 0 <= i <= n && history[i].SetUp? && !history[i].fails && NotCleanedSince(history, i);
      if i < n {
        assert init[i] == history[i] && NotCleanedSince(init, i);
      }
    }
  }

  /** Even when bodies raise: a set-up executes its body exactly when no earlier one
      succeeded since the last clean-up that did not raise. */
  lemma {:induction false} SetupExecutedMeans(history: seq<Call>)
    ensures After(history).setupExecuted <==> IsSetUp(history)
    ensures After(history).setupExecuted ==> !After(history).cleanupExecuted
  {
    if history == [] {
    } else {
      SetupExecutedMeans(history[..|history| - 1]);
      IsSetUpExtends(history);
    }
  }

  /** The call cleans up, or would if it were not prevented, without raising from that: a
      clean-up, or a set-up that executes its body and raises. */
  ghost predicate Cleans(history: seq<Call>, i: nat)
    requires i < |history|
  {
    if history[i].CleanUp? then !CleanUpRaises(history[i])
    else history[i].fails && !IsSetUp(history[..i])
  }

  /** Some call cleaned up, and no set-up succeeded since. */
  ghost predicate IsCleaned(history: seq<Call>) {
    exists i :: 0 <= i < |history| && Cleans(history, i) && NotSetUpSince(history, i)
  }

  ghost predicate NotSetUpSince(history: seq<Call>, i: nat) {
    forall j :: i < j < |history| ==> history[j].CleanUp? || history[j].fails
  }

  lemma IsCleanedExtends(history: seq<Call>)
    requires history != []
    ensures var n := |history| - 1;
            IsCleaned(history)
            <==> Cleans(history, n) || ((history[n].CleanUp? || history[n].fails) && IsCleaned(history[..n]))
  {
    var n := |history| - 1;
    var init := history[..n];
    forall i | 0 <= i < n
      ensures Cleans(init, i) == Cleans(history, i)
    {
      assert init[..i] == history[..i];
    }
    if Cleans(history, n) {
      assert NotSetUpSince(history, n);
    }
    if IsCleaned(init) && (history[n].CleanUp? || history[n].fails) {
      var i :| 0 <= i < n && Cleans(init, i) && NotSetUpSince(init, i);
      assert forall j :: 0 <= j < n ==> history[j] == init[j];
      assert Cleans(history, i) && NotSetUpSince(history, i);
    }
    if IsCleaned(history) {
      var i :| 0 <= i <= n && Cleans(history, i) && NotSetUpSince(history, i);
      if i < n {
        assert Cleans(init, i) && NotSetUpSince(init, i);
      }
    }
  }

  /** Even when bodies raise: a clean-up that is not prevented executes its body exactly when
      no earlier call cleaned up since the last successful set-up. */
  lemma {:induction false} CleanupExecutedMeans(history: seq<Call>)
    ensures After(history).cleanupExecuted <==> IsCleaned(history)
  {
    if history == [] {
    } else {
      CleanupExecutedMeans(history[..|history| - 1]);
      SetupExecutedMeans(history[..|history| - 1]);
      IsCleanedExtends(history);
    }
  }

  /** After every history, which bodies a call executes: a set-up its own unless the fixture
      is set up, and then that of the clean-up if it raises; a clean-up its own; but no clean-up
      that is prevented, or follows another one without a successful set-up between them. */
  lemma BodiesExecuted(history: seq<Call>, call: Call)
    ensures var cleanup := if call.prevented || IsCleaned(history) then [] else [CleanupFixture];
            After(history + [call]).log
            == After(history).log
               + if call.CleanUp? then cleanup
                 else if IsSetUp(history) then []
                 else [SetupFixture] + if call.fails then cleanup else []
  {
    SetupExecutedMeans(history);
    CleanupExecutedMeans(history);
    assert (history + [call])[..|history|] == history;
  }

  /** Whether a set-up that raises is cleaned up depends on what happened before: it is not
      after a call that cleaned up, without a successful set-up since.  In particular the
      first set-up is cleaned up, and one that is tried again after it raised is not. */
  lemma FailedSetupIsCleanedIff(history: seq<Call>, prevented: bool)
    requires !IsSetUp(history)
    ensures After(history + [SetUp(true, prevented)]).log
            == After(history).log + [SetupFixture] + (if prevented || IsCleaned(history) then [] else [CleanupFixture])
  {
    BodiesExecuted(history, SetUp(true, prevented));
  }

  // ---------------------------------------------------------------- operations

  /** Asking whether an operation is done, calling its fixture's methods, and getting it,
      which sets it up if it is not done and operations are to be run. */
  datatype OperationCall = Ask | Do(call: Call) | Get(runOperations: bool, fails: bool, prevented: bool)

  datatype OperationState = OperationState(fixture: State, isAfter: Option<bool>, runs: nat)

  class Operation {
    /** Whether the operation's name is in TOBIKO_AFTER_OPERATIONS. */
    const listed: bool
    const fixture: SharedFixture
    var isAfter: Option<bool>
    ghost var runs: nat

    constructor (listed: bool)
      ensures this.listed == listed && fresh(fixture) && fixture.Valid()
      ensures View() == OperationState(INITIAL, None, 0)
    {
      this.listed := listed;
      fixture := new SharedFixture();
      isAfter, runs := None, 0;
    }

    ghost function View(): OperationState
      reads this, fixture
    {
      OperationState(fixture.View(), isAfter, runs)
    }

    method IsAfter() returns (after: bool)
      modifies this`isAfter
      ensures View() == Asked(listed, old(View())) && isAfter == Some(after)
    {
      match isAfter
      case Some(known) => after := known;
      case None =>
        after := listed;
        isAfter := Some(after);
    }

    method SetupFixture(fails: bool) returns (raised: bool)
      modifies this`isAfter, this`runs
      ensures View() == Executed(listed, old(View()))
      ensures raised <==> fails && runs > old(runs)
    {
      var after := IsAfter();
      raised := false;
      if !after {
        runs := runs + 1;
        raised := fails;
        isAfter := Some(true);
      }
    }

    /** The fixture's set-up executes the body above unless the fixture is set up. */
    method SetUp(fails: bool, prevented: bool) returns (raised: bool)
      requires fixture.Valid()
      modifies this`isAfter, this`runs, fixture
      ensures fixture.Valid() && View() == OperationStep(listed, old(View()), Do(Call.SetUp(fails, prevented)))
      ensures raised <==> fails && runs > old(runs)
    {
      raised := false;
      if !fixture.setupExecuted {
        raised := SetupFixture(fails);
      }
      raised := fixture.SetUp(raised, prevented);
    }

    /** `get_operation` */
    method GetOperation(runOperations: bool, fails: bool, prevented: bool) returns (raised: bool)
      requires fixture.Valid()
      modifies this`isAfter, this`runs, fixture
      ensures fixture.Valid() && View() == OperationStep(listed, old(View()), Get(runOperations, fails, prevented))
      ensures raised <==> fails && runs > old(runs)
    {
      raised := false;
      var after := IsAfter();
      if !after && runOperations {
        raised := SetUp(fails, prevented);
      }
    }
  }

  function Asked(listed: bool, s: OperationState): OperationState {
    s.(isAfter := Some(s.isAfter.GetOr(listed)))
  }

  /** The body of an operation's set-up: the operation runs unless it is done, and is done
      then, whether it raised or not. */
  function Executed(listed: bool, s: OperationState): OperationState {
    if s.isAfter.GetOr(listed) then Asked(listed, s) else s.(isAfter := Some(true), runs := s.runs + 1)
  }

  function OperationSetUp(listed: bool, s: OperationState, fails: bool, prevented: bool): OperationState {
    if s.fixture.setupExecuted then s
    else
      var done := Executed(listed, s);
      done.(fixture := Step(s.fixture, SetUp(fails && done.runs > s.runs, prevented)))
  }

  function OperationStep(listed: bool, s: OperationState, call: OperationCall): OperationState {
    match call
    case Ask => Asked(listed, s)
    case Do(SetUp(fails, prevented)) => OperationSetUp(listed, s, fails, prevented)
    case Do(c) => s.(fixture := Step(s.fixture, c))
    case Get(runOperations, fails, prevented) =>
      var asked := Asked(listed, s);
      if asked.isAfter.value || !runOperations then asked
      else OperationSetUp(listed, asked, fails, prevented)
  }

  function OperationAfter(listed: bool, history: seq<OperationCall>): OperationState {
    if history == [] then OperationState(INITIAL, None, 0)
    else OperationStep(listed, OperationAfter(listed, history[..|history| - 1]), history[|history| - 1])
  }

  /** The call is one that may run an operation: a set-up, or a get that sets up. */
  predicate Sets(call: OperationCall) {
    (call.Do? && call.call.SetUp?) || (call.Get? && call.runOperations)
  }

  /** An operation runs once, at the first set-up, unless it is listed as done; whether it
      raises makes no difference.  It is after the operation exactly when it is listed or ran. */
  lemma {:induction false} OperationRunsOnce(listed: bool, history: seq<OperationCall>)
    ensures var s := OperationAfter(listed, history);
            && s.runs == (if !listed && exists i :: 0 <= i < |history| && Sets(history[i]) then 1 else 0)
            && s.isAfter.GetOr(listed) == (listed || s.runs == 1)
            && (s.fixture.setupExecuted ==> listed || s.runs == 1)
  {
    if history == [] {
    } else {
      var n := |history| - 1;
      var init := history[..n];
      OperationRunsOnce(listed, init);
      assert forall i :: 0 <= i < n ==> init[i] == history[i];
      assert (exists i :: 0 <= i < |history| && Sets(history[i]))
        <==> Sets(history[n]) || exists i :: 0 <= i < n && Sets(init[i]);
    }
  }
}

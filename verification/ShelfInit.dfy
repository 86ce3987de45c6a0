/** Workers of one test run initialising the shelves directory: the first call wipes what
    earlier runs left there, in any interleaving with the other calls and with workers that
    already record tests on the shelves. */
module ShelfInit {
  import opened Prelude

  type Worker = nat

  /** A shelf file and an entry recorded in it. */
  type Registration = (string, string)

  const TEST_RUN_SHELF := "test_run"

  predicate Kept(file: string) {
    IsSubstring(TEST_RUN_SHELF, file)
  }

  /** Where a call of `initialize_shelves` is. */
  datatype Pc = Outside | Check | Record | List | Wipe(todo: seq<string>) | Return

  datatype State = State(
    recorded: Option<string>,
    files: map<string, set<string>>,
    lock: Option<Worker>,
    locals: map<Worker, Pc>,
    returned: set<Worker>,
    wipes: nat,
    registered: set<Registration>)

  datatype Action =
    | Call(worker: Worker)
    | Step(worker: Worker, listing: seq<string>)
    | Register(worker: Worker, registration: Registration)

  function PcOf(s: State, w: Worker): Pc {
    if w in s.locals then s.locals[w] else Outside
  }

  ghost predicate ListsFiles(listing: seq<string>, s: State) {
    forall f :: f in listing <==> f in s.files && !Kept(f)
  }

  /** All calls take the lock `shelves`; recording tests takes the locks of single shelves
      and is open to a worker as soon as a call of its own has returned. */
  ghost predicate Enabled(s: State, a: Action) {
    match a
    case Call(w) => PcOf(s, w).Outside? && s.lock == None
    case Step(w, listing) => !PcOf(s, w).Outside? && (PcOf(s, w).List? ==> ListsFiles(listing, s))
    case Register(w, _) => w in s.returned && PcOf(s, w).Outside?
  }

  function Entries(s: State, file: string): set<string> {
    if file in s.files then s.files[file] else {}
  }

  function GoTo(s: State, w: Worker, pc: Pc): State {
    s.(locals := s.locals[w := pc])
  }

  /** One action, in a run whose id is `uid`: None when there is only one worker. */
  ghost function Apply(uid: Option<string>, s: State, a: Action): State
    requires Enabled(s, a)
  {
    match a
    case Call(w) => GoTo(s, w, Check).(lock := Some(w))
    case Register(_, (file, entry)) =>
      s.(files := s.files[file := Entries(s, file) + {entry}], registered := s.registered + {(file, entry)})
    case Step(w, listing) =>
      match PcOf(s, w)
      case Outside => s
      case Check => GoTo(s, w, if uid == None then List else if uid == s.recorded then Return else Record)
      case Record => GoTo(s, w, List).(recorded := uid)
      case List => GoTo(s, w, Wipe(listing)).(wipes := s.wipes + 1)
      case Wipe(todo) =>
        if todo == [] then GoTo(s, w, Return)
        else GoTo(s, w, Wipe(todo[1..])).(files := s.files - {todo[0]})
      case Return => GoTo(s, w, Outside).(lock := None, returned := s.returned + {w})
  }

  ghost predicate Starts(s: State) {
    s.lock == None && s.locals == map[] && s.returned == {} && s.wipes == 0 && s.registered == {}
  }

  /** The state that a run leads to from `s`; None if some action was not enabled. */
  ghost function Run(uid: Option<string>, s: State, actions: seq<Action>): Option<State> {
    if actions == [] then Some(s)
    else
      var before := Run(uid, s, actions[..|actions| - 1]);
      var last := actions[|actions| - 1];
      if before.Some? && Enabled(before.value, last) then Some(Apply(uid, before.value, last)) else None
  }

  predicate Wiping(pc: Pc) {
    pc.List? || pc.Wipe?
  }

  /** Nothing is left of earlier runs but the files that are never wiped. */
  ghost predicate Clean(s: State) {
    forall f, e :: f in s.files && e in s.files[f] && !Kept(f) ==> (f, e) in s.registered
  }

  ghost predicate Inv(uid: string, s: State) {
    && (forall w :: w in s.locals && !s.locals[w].Outside? ==> s.lock == Some(w))
    && (s.lock.Some? ==> !PcOf(s, s.lock.value).Outside?)
    && (forall f, e :: (f, e) in s.registered ==> f in s.files && e in s.files[f])
    && (s.returned == {} ==> s.registered == {})
    && var pc := if s.lock.Some? then PcOf(s, s.lock.value) else Outside;
       if s.recorded != Some(uid) then s.wipes == 0 && s.returned == {} && (pc.Outside? || pc.Check? || pc.Record?)
       else if Wiping(pc) then
         && s.returned == {} && s.wipes == (if pc.List? then 0 else 1)
         && (pc.Wipe? ==> forall f :: f in s.files && !Kept(f) ==> f in pc.todo)
       else s.wipes == 1 && Clean(s) && !pc.Record? && (s.lock == None ==> s.returned != {})
  }

  lemma InvStep(uid: string, s: State, a: Action)
    requires Inv(uid, s) && Enabled(s, a)
    ensures Inv(uid, Apply(Some(uid), s, a))
  {
  }

  lemma {:induction false} InvHolds(uid: string, s: State, actions: seq<Action>)
    requires Starts(s) && s.recorded != Some(uid) && Run(Some(uid), s, actions).Some?
    ensures Inv(uid, Run(Some(uid), s, actions).value)
  {
    if actions == [] {
    } else {
      var init, last := actions[..|actions| - 1], actions[|actions| - 1];
      InvHolds(uid, s, init);
      InvStep(uid, Run(Some(uid), s, init).value, last);
    }
  }

  /** In every interleaving of any number of workers of a new run: at most one call wipes
      the shelves, exactly one once a call has returned; by then nothing of earlier runs is
      left, and nothing that a worker registered after its own call is ever wiped. */
  lemma WipedExactlyOnce(uid: string, s: State, actions: seq<Action>)
    requires Starts(s) && s.recorded != Some(uid) && Run(Some(uid), s, actions).Some?
    ensures var end := Run(Some(uid), s, actions).value;
            && end.wipes <= 1
            && (end.returned != {} ==> end.wipes == 1 && Clean(end))
            && forall f, e :: (f, e) in end.registered ==> f in end.files && e in end.files[f]
  {
    InvHolds(uid, s, actions);
  }

  /** Files that have the name of the test run's shelf in theirs are kept. */
  lemma KeptIffNamed(file: string)
    ensures Kept(file) <==> exists before, after :: IsInside(file, before, "test_run", after)
  {
    SubstringIffInside(TEST_RUN_SHELF, file);
  }

  /** Only files that are not kept are about to be wiped, and the kept ones are still there. */
  ghost predicate InvKept(s: State, t: State) {
    && (forall w, f :: PcOf(t, w).Wipe? && f in PcOf(t, w).todo ==> !Kept(f))
    && (forall f, e :: Kept(f) && f in s.files && e in s.files[f] ==> f in t.files && e in t.files[f])
  }

  lemma InvKeptStep(uid: Option<string>, s: State, t: State, a: Action)
    requires InvKept(s, t) && Enabled(t, a)
    ensures InvKept(s, Apply(uid, t, a))
  {
    var next := Apply(uid, t, a);
    assert forall w :: w != a.worker ==> PcOf(next, w) == PcOf(t, w);
    if a.Step? && PcOf(t, a.worker).Wipe? && PcOf(t, a.worker).todo != [] {
      var todo := PcOf(t, a.worker).todo;
      assert todo[0] in todo && forall f :: f in todo[1..] ==> f in todo;
    }
  }

  /** What they hold is never lost, with a run id or without one. */
  lemma {:induction false} KeptFilesStay(uid: Option<string>, s: State, actions: seq<Action>)
    requires Starts(s) && Run(uid, s, actions).Some?
    ensures InvKept(s, Run(uid, s, actions).value)
  {
    if actions == [] {
    } else {
      var init, last := actions[..|actions| - 1], actions[|actions| - 1];
      KeptFilesStay(uid, s, init);
      InvKeptStep(uid, s, Run(uid, s, init).value, last);
    }
  }

  /** The run id is recorded already: no call wipes anything. */
  ghost predicate InvRecorded(uid: string, s: State) {
    && s.recorded == Some(uid) && s.wipes == 0
    && (forall w :: PcOf(s, w).Outside? || PcOf(s, w).Check? || PcOf(s, w).Return?)
    && (forall f, e :: (f, e) in s.registered ==> f in s.files && e in s.files[f])
  }

  lemma InvRecordedStep(uid: string, s: State, a: Action)
    requires InvRecorded(uid, s) && Enabled(s, a)
    ensures InvRecorded(uid, Apply(Some(uid), s, a))
  {
    var next := Apply(Some(uid), s, a);
    assert forall w :: w != a.worker ==> PcOf(next, w) == PcOf(s, w);
  }

  lemma {:induction false} InvRecordedHolds(uid: string, s: State, actions: seq<Action>)
    requires Starts(s) && s.recorded == Some(uid) && Run(Some(uid), s, actions).Some?
    ensures InvRecorded(uid, Run(Some(uid), s, actions).value)
  {
    if actions == [] {
    } else {
      var init, last := actions[..|actions| - 1], actions[|actions| - 1];
      InvRecordedHolds(uid, s, init);
      InvRecordedStep(uid, Run(Some(uid), s, init).value, last);
    }
  }

  /** Whatever a worker registered after a call of its own is still there. */
  ghost predicate RegistrationsSurvive(uid: Option<string>) {
    forall s, actions :: Starts(s) && Run(uid, s, actions).Some? ==>
      var end := Run(uid, s, actions).value;
      forall f, e :: (f, e) in end.registered ==> f in end.files && e in end.files[f]
  }

  /** Registrations survive in every run, whatever was recorded before, exactly when the run
      has an id. */
  lemma RegistrationsSurviveIffRunId(uid: Option<string>)
    ensures RegistrationsSurvive(uid) <==> uid.Some?
  {
    if uid.Some? {
      forall s, actions | Starts(s) && Run(uid, s, actions).Some?
        ensures var end := Run(uid, s, actions).value;
                forall f, e :: (f, e) in end.registered ==> f in end.files && e in end.files[f]
      {
        if s.recorded == uid {
          InvRecordedHolds(uid.value, s, actions);
        } else {
          InvHolds(uid.value, s, actions);
        }
      }
    } else {
      var s, actions := WithoutRunIdRegistrationsAreLost();
    }
  }

  /** One worker that initialises the shelves without a run id. */
  lemma FirstWipe() returns (s: State, actions: seq<Action>, t: State)
    ensures Starts(s) && Run(None, s, actions) == Some(t)
    ensures t.recorded == None && t.lock == None && t.files == map[] && t.returned == {0} && t.registered == {}
    ensures t.locals == map[0 := Outside]
  {
    s := State(None, map[], None, map[], {}, 0, {});
    actions, t := [], s;
    actions, t := Extend(None, s, actions, t, Call(0));
    actions, t := Extend(None, s, actions, t, Step(0, []));
    actions, t := Extend(None, s, actions, t, Step(0, []));
    actions, t := Extend(None, s, actions, t, Step(0, []));
    actions, t := Extend(None, s, actions, t, Step(0, []));
  }

  /** Without a run id every call wipes: what one worker registered is wiped by the next. */
  lemma WithoutRunIdRegistrationsAreLost() returns (s: State, actions: seq<Action>)
    ensures Starts(s) && Run(None, s, actions).Some?
    ensures var end := Run(None, s, actions).value;
            ("shelf", "test") in end.registered && "shelf" !in end.files
  {
    var t;
    s, actions, t := FirstWipe();
    actions, t := Extend(None, s, actions, t, Register(0, ("shelf", "test")));
    actions, t := Extend(None, s, actions, t, Call(1));
    actions, t := Extend(None, s, actions, t, Step(1, []));
    assert !Kept("shelf");
    actions, t := Extend(None, s, actions, t, Step(1, ["shelf"]));
    actions, t := Extend(None, s, actions, t, Step(1, []));
  }

  lemma Extend(uid: Option<string>, s: State, actions: seq<Action>, t: State, a: Action)
    returns (longer: seq<Action>, next: State)
    requires Run(uid, s, actions) == Some(t) && Enabled(t, a)
    ensures longer == actions + [a] && next == Apply(uid, t, a) && Run(uid, s, longer) == Some(next)
  {
    longer, next := actions + [a], Apply(uid, t, a);
    assert longer[..|actions|] == actions;
  }

  // ---------------------------------------------------------------- every call ends

  lemma {:induction false} ListingOf(files: set<string>) returns (listing: seq<string>)
    ensures forall f :: f in listing <==> f in files && !Kept(f)
  {
    if files == {} {
      listing := [];
    } else {
      var file :| file in files;
      listing := ListingOf(files - {file});
      if !Kept(file) { listing := listing + [file]; }
    }
  }

  function Phase(pc: Pc): (nat, nat) {
    match pc
    case Outside => (0, 0)
    case Return => (1, 0)
    case Wipe(todo) => (2, |todo|)
    case List => (3, 0)
    case Record => (4, 0)
    case Check => (5, 0)
  }

  /** In every run, a worker that is in a call only needs to go on for the call to return,
      after which the next one can begin. */
  lemma {:induction false} CallEnds(uid: Option<string>, s: State, actions: seq<Action>, t: State, w: Worker)
    returns (longer: seq<Action>, end: State)
    requires Run(uid, s, actions) == Some(t) && !PcOf(t, w).Outside?
    ensures actions <= longer && Run(uid, s, longer) == Some(end)
    ensures PcOf(end, w).Outside? && w in end.returned && end.lock == None && end.registered == t.registered
    decreases Phase(PcOf(t, w)).0, Phase(PcOf(t, w)).1
  {
    var listing := ListingOf(t.files.Keys);
    longer, end := Extend(uid, s, actions, t, Step(w, listing));
    if !PcOf(end, w).Outside? {
      longer, end := CallEnds(uid, s, longer, end, w);
    }
  }
}

/** Workers of one test run operating on one shelf, step by step and in any order.  Each
    read and each write of the shelf is a step of its own; an operation holds a lock, named
    after its first argument, from its first step to its last. */
module ShelfLocking {
  import opened Prelude
  import opened Shelves

  type Worker = nat

  /** `interworker_synched`: the name given to the decorator, extended with the name of the
      first argument if there is one; a string names itself. */
  function LockName(name: string, firstArgument: Option<string>): string {
    match firstArgument
    case Some(argument) => name + ":" + argument
    case None => name
  }

  /** Adding and removing pass the shelf as first argument, sweeping passes the test. */
  function LockOf(shelf: string, op: Op): string {
    LockName("shelves", Some(if op.Sweep? then op.test else shelf))
  }

  lemma LockNamesDiffer(name: string, a: string, b: string)
    ensures LockName(name, Some(a)) == LockName(name, Some(b)) <==> a == b
    ensures LockName(name, Some(a)) != LockName(name, None)
  {
    var prefix := name + ":";
    assert LockName(name, Some(a)) == prefix + a && LockName(name, Some(b)) == prefix + b;
    assert (prefix + a)[|prefix|..] == a && (prefix + b)[|prefix|..] == b;
    assert |prefix + a| > |name|;
  }

  /** Where a running operation is.  `aux` is a set read from the shelf before. */
  datatype Pc =
    | AddCheck | AddInit | AddRead | AddWrite(aux: set<Test>) | AddReturn
    | RemoveFetch | RemoveStore(aux: set<Test>) | RemoveCheck | RemoveRead | RemoveWrite(aux: set<Test>) | RemoveReturn
    | SweepList | SweepCheck(todo: seq<Resource>) | SweepRead(todo: seq<Resource>)
    | SweepWrite(todo: seq<Resource>, aux: set<Test>)
    | Returned(result: set<Test>)

  datatype Local = Idle | Running(op: Op, pc: Pc)

  datatype State = State(db: Shelf, locks: map<string, Worker>, locals: map<Worker, Local>, history: seq<Entry>)

  /** What happens next: a worker calls an operation and gets its lock, takes one step of
      it, or returns and releases the lock.  A sweep goes through the shelf in `order`. */
  datatype Action =
    | Acquire(worker: Worker, op: Op)
    | Work(worker: Worker, order: seq<Resource>)
    | Release(worker: Worker)

  function LocalOf(s: State, w: Worker): Local {
    if w in s.locals then s.locals[w] else Idle
  }

  function FirstPc(op: Op): Pc {
    match op
    case AddMe(_, _) => AddCheck
    case RemoveMe(_, _) => RemoveFetch
    case Sweep(_) => SweepList
  }

  ghost predicate Lists(order: seq<Resource>, db: Shelf) {
    && (forall r :: r in order <==> r in db)
    && (forall i, j :: 0 <= i < j < |order| ==> order[i] != order[j])
  }

  /** One step of an operation: what it does to the shelf and where it goes on. */
  function Advance(op: Op, pc: Pc, db: Shelf, order: seq<Resource>): (Shelf, Pc) {
    match (op, pc)
    case (AddMe(r, t), AddCheck) => (db, if r !in db then AddInit else AddRead)
    case (AddMe(r, t), AddInit) => (db[r := {}], AddRead)
    case (AddMe(r, t), AddRead) => (db, AddWrite(Members(db, r)))
    case (AddMe(r, t), AddWrite(aux)) => (db[r := aux + {t}], AddReturn)
    case (AddMe(r, t), AddReturn) => (db, Returned(Members(db, r)))
    case (RemoveMe(r, t), RemoveFetch) => (db, RemoveStore(Members(db, r)))
    case (RemoveMe(r, t), RemoveStore(aux)) => (db[r := aux], RemoveCheck)
    case (RemoveMe(r, t), RemoveCheck) => (db, if t in Members(db, r) then RemoveRead else RemoveReturn)
    case (RemoveMe(r, t), RemoveRead) => (db, RemoveWrite(Members(db, r)))
    case (RemoveMe(r, t), RemoveWrite(aux)) => (db[r := aux - {t}], RemoveReturn)
    case (RemoveMe(r, t), RemoveReturn) => (db, Returned(Members(db, r)))
    case (Sweep(t), SweepList) => (db, SweepCheck(order))
    case (Sweep(t), SweepCheck(todo)) =>
      if todo == [] then (db, Returned({}))
      else (db, if t in Members(db, todo[0]) then SweepRead(todo) else SweepCheck(todo[1..]))
    case (Sweep(t), SweepRead(todo)) => (db, if todo == [] then Returned({}) else SweepWrite(todo, Members(db, todo[0])))
    case (Sweep(t), SweepWrite(todo, aux)) =>
      if todo == [] then (db, Returned({})) else (db[todo[0] := aux - {t}], SweepCheck(todo[1..]))
    case _ => (db, pc)
  }

  ghost predicate Enabled(shelf: string, s: State, a: Action) {
    match a
    case Acquire(w, op) => LocalOf(s, w).Idle? && LockOf(shelf, op) !in s.locks
    case Work(w, order) =>
      var local := LocalOf(s, w);
      local.Running? && !local.pc.Returned? && (local.pc.SweepList? ==> Lists(order, s.db))
    case Release(w) => LocalOf(s, w).Running? && LocalOf(s, w).pc.Returned?
  }

  ghost function Apply(shelf: string, s: State, a: Action): State
    requires Enabled(shelf, s, a)
  {
    match a
    case Acquire(w, op) =>
      s.(locks := s.locks[LockOf(shelf, op) := w], locals := s.locals[w := Running(op, FirstPc(op))])
    case Work(w, order) =>
      var local := LocalOf(s, w);
      var (db, pc) := Advance(local.op, local.pc, s.db, order);
      s.(db := db, locals := s.locals[w := Running(local.op, pc)])
    case Release(w) =>
      var local := LocalOf(s, w);
      State(s.db, s.locks - {LockOf(shelf, local.op)}, s.locals[w := Idle],
            s.history + [Entry(local.op, local.pc.result)])
  }

  /** The state that a run leads to; None if some action was not enabled. */
  ghost function Run(shelf: string, db: Shelf, actions: seq<Action>): Option<State> {
    if actions == [] then Some(State(db, map[], map[], []))
    else
      var before := Run(shelf, db, actions[..|actions| - 1]);
      var last := actions[|actions| - 1];
      if before.Some? && Enabled(shelf, before.value, last) then Some(Apply(shelf, before.value, last)) else None
  }

  /** All operations of the run take the lock named after the shelf. */
  ghost predicate OneLock(shelf: string, actions: seq<Action>) {
    forall i :: 0 <= i < |actions| && actions[i].Acquire? ==> LockOf(shelf, actions[i].op) == LockName("shelves", Some(shelf))
  }

  // ---------------------------------------------------------------- operations under one lock

  predicate SweptUpTo(base: Shelf, db: Shelf, t: Test, todo: seq<Resource>) {
    && db.Keys == base.Keys
    && (forall r :: r in db ==> db[r] == if r in todo then base[r] else base[r] - {t})
    && (forall i :: 0 <= i < |todo| ==> todo[i] in db)
    && (forall i, j :: 0 <= i < j < |todo| ==> todo[i] != todo[j])
  }

  /** How the shelf differs from `base`, the shelf when the operation got its lock. */
  predicate Midway(base: Shelf, op: Op, pc: Pc, db: Shelf) {
    match (op, pc)
    case (AddMe(r, t), AddCheck) => db == base
    case (AddMe(r, t), AddInit) => db == base && r !in base
    case (AddMe(r, t), AddRead) => db == base[r := Members(base, r)]
    case (AddMe(r, t), AddWrite(aux)) => db == base[r := Members(base, r)] && aux == Members(base, r)
    case (AddMe(r, t), AddReturn) => db == After(base, op)
    case (RemoveMe(r, t), RemoveFetch) => db == base
    case (RemoveMe(r, t), RemoveStore(aux)) => db == base && aux == Members(base, r)
    case (RemoveMe(r, t), RemoveCheck) => db == base[r := Members(base, r)]
    case (RemoveMe(r, t), RemoveRead) => db == base[r := Members(base, r)]
    case (RemoveMe(r, t), RemoveWrite(aux)) => db == base[r := Members(base, r)] && aux == Members(base, r)
    case (RemoveMe(r, t), RemoveReturn) => db == After(base, op)
    case (Sweep(t), SweepList) => db == base
    case (Sweep(t), SweepCheck(todo)) => SweptUpTo(base, db, t, todo)
    case (Sweep(t), SweepRead(todo)) => SweptUpTo(base, db, t, todo) && todo != []
    case (Sweep(t), SweepWrite(todo, aux)) => SweptUpTo(base, db, t, todo) && todo != [] && aux == base[todo[0]]
    case (_, Returned(result)) => db == After(base, op) && result == Result(base, op)
    case _ => false
  }

  lemma MidwayAdvances(base: Shelf, op: Op, pc: Pc, db: Shelf, order: seq<Resource>)
    requires Midway(base, op, pc, db) && !pc.Returned?
    requires pc.SweepList? ==> Lists(order, db)
    ensures var (db', pc') := Advance(op, pc, db, order); Midway(base, op, pc', db')
  {
    var (db', pc') := Advance(op, pc, db, order);
    match (op, pc) {
      case (RemoveMe(r, t), RemoveCheck) =>
        assert t !in Members(base, r) ==> Members(base, r) - {t} == Members(base, r);
      case (Sweep(t), SweepCheck(todo)) =>
        if todo == [] {
          assert db == Swept(base, t);
        } else {
          assert t !in base[todo[0]] ==> base[todo[0]] - {t} == base[todo[0]];
        }
      case _ =>
    }
  }

  /** Serial so far, and between the calls so far and the shelf there is only what the
      worker that holds the lock, if any, has done. */
  ghost predicate Inv(shelf: string, start: Shelf, s: State) {
    var lock := LockName("shelves", Some(shelf));
    var base := AfterAll(start, s.history);
    && s.locks.Keys <= {lock}
    && Serial(start, s.history)
    && (forall w :: w in s.locals && s.locals[w].Running? ==> lock in s.locks && s.locks[lock] == w)
    && if lock in s.locks then
         var local := LocalOf(s, s.locks[lock]);
         local.Running? && LockOf(shelf, local.op) == lock && Midway(base, local.op, local.pc, s.db)
       else s.db == base
  }

  lemma InvAcquire(shelf: string, start: Shelf, s: State, w: Worker, op: Op)
    requires Inv(shelf, start, s) && Enabled(shelf, s, Acquire(w, op))
    requires LockOf(shelf, op) == LockName("shelves", Some(shelf))
    ensures Inv(shelf, start, Apply(shelf, s, Acquire(w, op)))
  {
    assert Midway(s.db, op, FirstPc(op), s.db);
  }

  lemma InvWork(shelf: string, start: Shelf, s: State, w: Worker, order: seq<Resource>)
    requires Inv(shelf, start, s) && Enabled(shelf, s, Work(w, order))
    ensures Inv(shelf, start, Apply(shelf, s, Work(w, order)))
  {
    var local := LocalOf(s, w);
    MidwayAdvances(AfterAll(start, s.history), local.op, local.pc, s.db, order);
  }

  lemma SerialExtends(start: Shelf, history: seq<Entry>, e: Entry)
    requires Serial(start, history) && e.result == Result(AfterAll(start, history), e.op)
    ensures Serial(start, history + [e])
    ensures AfterAll(start, history + [e]) == After(AfterAll(start, history), e.op)
  {
  }

  lemma InvRelease(shelf: string, start: Shelf, s: State, w: Worker)
    requires Inv(shelf, start, s) && Enabled(shelf, s, Release(w))
    ensures Inv(shelf, start, Apply(shelf, s, Release(w)))
  {
    var local := LocalOf(s, w);
    SerialExtends(start, s.history, Entry(local.op, local.pc.result));
  }

  lemma {:induction false} InvHolds(shelf: string, db: Shelf, actions: seq<Action>)
    requires Run(shelf, db, actions).Some? && OneLock(shelf, actions)
    ensures Inv(shelf, db, Run(shelf, db, actions).value)
  {
    if actions == [] {
    } else {
      var init, last := actions[..|actions| - 1], actions[|actions| - 1];
      assert OneLock(shelf, init);
      InvHolds(shelf, db, init);
      var s := Run(shelf, db, init).value;
      match last {
        case Acquire(w, op) => InvAcquire(shelf, db, s, w, op);
        case Work(w, order) => InvWork(shelf, db, s, w, order);
        case Release(w) => InvRelease(shelf, db, s, w);
      }
    }
  }

  /** Under one lock every interleaving is serial: each call returns what it would return
      if the calls ran one by one in the order in which they held the lock, and between
      calls the shelf is what those calls make of it. */
  lemma InterleavingsAreSerial(shelf: string, db: Shelf, actions: seq<Action>)
    requires Run(shelf, db, actions).Some? && OneLock(shelf, actions)
    ensures var s := Run(shelf, db, actions).value;
            && Serial(db, s.history)
            && (s.locks == map[] ==> s.db == AfterAll(db, s.history))
  {
    InvHolds(shelf, db, actions);
  }

  /** Adding and removing always take the shelf's lock, so the clean-up of a resource
      decides to delete it only when nobody uses it, in every interleaving. */
  lemma DeletesOnlyWhenUnused(shelf: string, actions: seq<Action>, n: nat)
    requires Run(shelf, map[], actions).Some?
    requires forall i :: 0 <= i < |actions| && actions[i].Acquire? ==> !actions[i].op.Sweep?
    requires var history := Run(shelf, map[], actions).value.history; n < |history| && history[n].op.RemoveMe?
    ensures var history := Run(shelf, map[], actions).value.history;
            history[n].result == {} <==> NobodyUses(history[..n + 1], history[n].op.resource)
  {
    InterleavingsAreSerial(shelf, map[], actions);
    CleanupDecision(Run(shelf, map[], actions).value.history, n);
  }

  // ---------------------------------------------------------------- sweeps take another lock

  ghost predicate OnlySweepsOf(test: Test, actions: seq<Action>) {
    forall i :: 0 <= i < |actions| && actions[i].Acquire? && actions[i].op.Sweep? ==> actions[i].op.test == test
  }

  /** `s` can be reached from an empty shelf by a run that sweeps no test but `t`. */
  ghost predicate Reaches(shelf: string, t: Test, s: State) {
    exists actions :: Run(shelf, map[], actions) == Some(s) && OnlySweepsOf(t, actions)
  }

  lemma Extend(shelf: string, t: Test, s: State, a: Action)
    requires Reaches(shelf, t, s) && Enabled(shelf, s, a)
    requires a.Acquire? && a.op.Sweep? ==> a.op.test == t
    ensures Reaches(shelf, t, Apply(shelf, s, a))
  {
    var actions :| Run(shelf, map[], actions) == Some(s) && OnlySweepsOf(t, actions);
    var longer := actions + [a];
    assert longer[..|actions|] == actions;
    assert Run(shelf, map[], longer) == Some(Apply(shelf, s, a)) && OnlySweepsOf(t, longer);
  }

  /** `n` steps of an operation on its own. */
  function AdvanceMany(op: Op, pc: Pc, db: Shelf, order: seq<Resource>, n: nat): (Shelf, Pc)
    decreases n
  {
    if n == 0 then (db, pc)
    else
      var (db', pc') := Advance(op, pc, db, order);
      AdvanceMany(op, pc', db', order, n - 1)
  }

  /** Where worker `w` has brought its operation to, if nobody else did anything. */
  ghost function With(s: State, w: Worker, op: Op, at: (Shelf, Pc)): State {
    s.(db := at.0, locals := s.locals[w := Running(op, at.1)])
  }

  ghost predicate CanAdvance(op: Op, pc: Pc, db: Shelf, order: seq<Resource>, n: nat)
    decreases n
  {
    n > 0 ==>
      var (db', pc') := Advance(op, pc, db, order);
      !pc.Returned? && (pc.SweepList? ==> Lists(order, db)) && CanAdvance(op, pc', db', order, n - 1)
  }

  lemma {:induction false} AdvanceAlone(shelf: string, t: Test, s: State, w: Worker, op: Op, pc: Pc,
                                        order: seq<Resource>, n: nat)
    requires Reaches(shelf, t, s) && w in s.locals && s.locals[w] == Running(op, pc)
    requires CanAdvance(op, pc, s.db, order, n)
    ensures Reaches(shelf, t, With(s, w, op, AdvanceMany(op, pc, s.db, order, n)))
    decreases n
  {
    if n == 0 {
      assert With(s, w, op, (s.db, pc)) == s;
    } else {
      var next := Apply(shelf, s, Work(w, order));
      var (db', pc') := Advance(op, pc, s.db, order);
      Extend(shelf, t, s, Work(w, order));
      AdvanceAlone(shelf, t, next, w, op, pc', order, n - 1);
      var end := AdvanceMany(op, pc', db', order, n - 1);
      assert With(next, w, op, end) == With(s, w, op, end);
    }
  }

  function StepsLeft(pc: Pc, order: seq<Resource>): nat {
    match pc
    case AddCheck => 5 case AddInit => 4 case AddRead => 3 case AddWrite(_) => 2 case AddReturn => 1
    case RemoveFetch => 6 case RemoveStore(_) => 5 case RemoveCheck => 4 case RemoveRead => 3 case RemoveWrite(_) => 2
    case RemoveReturn => 1
    case SweepList => 3 * |order| + 2
    case SweepCheck(todo) => 3 * |todo| + 1
    case SweepRead(todo) => 3 * |todo|
    case SweepWrite(todo, _) => if todo == [] then 0 else 3 * |todo| - 1
    case Returned(_) => 0
  }

  /** An operation that nobody interrupts ends, wherever it is, and has done what it does to
      the shelf that it found when it got its lock. */
  lemma {:induction false} OperationEnds(base: Shelf, op: Op, pc: Pc, db: Shelf, order: seq<Resource>) returns (n: nat)
    requires Midway(base, op, pc, db) && (pc.SweepList? ==> Lists(order, db))
    ensures CanAdvance(op, pc, db, order, n)
    ensures AdvanceMany(op, pc, db, order, n) == (After(base, op), Returned(Result(base, op)))
    decreases StepsLeft(pc, order)
  {
    if pc.Returned? {
      n := 0;
    } else {
      var (db', pc') := Advance(op, pc, db, order);
      MidwayAdvances(base, op, pc, db, order);
      n := OperationEnds(base, op, pc', db', order);
      n := n + 1;
    }
  }

  /** An operation that is not interrupted, from its call to its return. */
  lemma RunAlone(shelf: string, t: Test, s: State, w: Worker, op: Op)
    requires Reaches(shelf, t, s) && !op.Sweep?
    requires LocalOf(s, w).Idle? && LockOf(shelf, op) !in s.locks
    ensures Reaches(shelf, t, State(After(s.db, op), s.locks, s.locals[w := Idle],
                                    s.history + [Entry(op, Result(s.db, op))]))
  {
    var called := Apply(shelf, s, Acquire(w, op));
    Extend(shelf, t, s, Acquire(w, op));
    var n := OperationEnds(s.db, op, FirstPc(op), s.db, []);
    AdvanceAlone(shelf, t, called, w, op, FirstPc(op), [], n);
    var returned := With(called, w, op, (After(s.db, op), Returned(Result(s.db, op))));
    Extend(shelf, t, returned, Release(w));
    var released := Apply(shelf, returned, Release(w));
    assert released.locks == s.locks && released.locals == s.locals[w := Idle];
  }

  const SHARED: Resource := "r"

  function SweepReading(shelf: string, t: Test, users: set<Test>, history: seq<Entry>): State {
    State(map[SHARED := users], map[LockOf(shelf, Sweep(t)) := 1],
          map[0 := Idle, 1 := Running(Sweep(t), SweepWrite([SHARED], {t}))], history)
  }

  lemma SharedByOne(shelf: string, t: Test)
    requires t != shelf
    ensures Reaches(shelf, t, State(map[SHARED := {t}], map[], map[0 := Idle], [Entry(AddMe(SHARED, t), {t})]))
  {
    var r := SHARED;
    var s0 := State(map[], map[], map[], []);
    assert Run(shelf, map[], []) == Some(s0) && OnlySweepsOf(t, []);
    RunAlone(shelf, t, s0, 0, AddMe(r, t));
    var s1 := State(map[r := {t}], map[], map[0 := Idle], [Entry(AddMe(r, t), {t})]);
    assert Members(s0.db, r) + {t} == {t};
    assert After(s0.db, AddMe(r, t)) == s1.db;
    assert State(After(s0.db, AddMe(r, t)), s0.locks, s0.locals[0 := Idle],
                 s0.history + [Entry(AddMe(r, t), Result(s0.db, AddMe(r, t)))]) == s1;
  }

  lemma SweepReads(shelf: string, t: Test)
    requires t != shelf
    ensures Reaches(shelf, t, SweepReading(shelf, t, {t}, [Entry(AddMe(SHARED, t), {t})]))
  {
    var r, sweep := SHARED, Sweep(t);
    var lock := LockOf(shelf, sweep);
    SharedByOne(shelf, t);
    var s1 := State(map[r := {t}], map[], map[0 := Idle], [Entry(AddMe(r, t), {t})]);
    Extend(shelf, t, s1, Acquire(1, sweep));
    var s2 := s1.(locks := map[lock := 1], locals := map[0 := Idle, 1 := Running(sweep, SweepList)]);
    assert Apply(shelf, s1, Acquire(1, sweep)) == s2;
    SweepSteps(t);
    AdvanceAlone(shelf, t, s2, 1, sweep, SweepList, [r], 3);
    var s3 := s2.(locals := map[0 := Idle, 1 := Running(sweep, SweepWrite([r], {t}))]);
    assert With(s2, 1, sweep, (s2.db, SweepWrite([r], {t}))) == s3;
  }

  /** The shelf's users are read by a sweep of `t` that then waits; meanwhile `u` is added. */
  lemma SweepInterrupted(shelf: string, t: Test, u: Test)
    requires t != shelf && t != u
    ensures Reaches(shelf, t, SweepReading(shelf, t, {t, u}, [Entry(AddMe(SHARED, t), {t}), Entry(AddMe(SHARED, u), {t, u})]))
  {
    var r := SHARED;
    LockNamesDiffer("shelves", shelf, t);
    SweepReads(shelf, t);
    var s3 := SweepReading(shelf, t, {t}, [Entry(AddMe(r, t), {t})]);
    RunAlone(shelf, t, s3, 0, AddMe(r, u));
    assert {t} + {u} == {t, u};
    assert After(s3.db, AddMe(r, u)) == map[r := {t, u}];
    assert s3.locals[0 := Idle] == s3.locals;
    assert s3.history + [Entry(AddMe(r, u), {t, u})] == [Entry(AddMe(r, t), {t}), Entry(AddMe(r, u), {t, u})];
  }

  lemma SweepSteps(t: Test)
    ensures var db, sweep, r: Resource := map[SHARED := {t}], Sweep(t), SHARED;
            && CanAdvance(sweep, SweepList, db, [r], 3)
            && AdvanceMany(sweep, SweepList, db, [r], 3) == (db, SweepWrite([r], {t}))
  {
  }

  lemma SweepEndSteps(t: Test, u: Test)
    ensures var db, sweep, r: Resource, none: set<Test> := map[SHARED := {t, u}], Sweep(t), SHARED, {};
            && CanAdvance(sweep, SweepWrite([r], {t}), db, [], 2)
            && AdvanceMany(sweep, SweepWrite([r], {t}), db, [], 2) == (map[r := none], Returned({}))
  {
    var db, sweep, r, none: set<Test> := map[SHARED := {t, u}], Sweep(t), SHARED, {};
    assert {t} - {t} == none && [r][1..] == [] && db[r := none] == map[r := none];
    assert Advance(sweep, SweepWrite([r], {t}), db, []) == (map[r := none], SweepCheck([]));
    assert AdvanceMany(sweep, SweepCheck([]), map[r := none], [], 1) == (map[r := none], Returned({}));
    assert CanAdvance(sweep, SweepCheck([]), map[r := none], [], 1);
  }

  lemma SweepWritesBack(shelf: string, t: Test, u: Test)
    requires t != shelf && t != u
    ensures var none: set<Test> := {};
            Reaches(shelf, t, State(map[SHARED := none], map[LockOf(shelf, Sweep(t)) := 1],
                                    map[0 := Idle, 1 := Running(Sweep(t), Returned({}))],
                                    [Entry(AddMe(SHARED, t), {t}), Entry(AddMe(SHARED, u), {t, u})]))
  {
    var r, sweep, none: set<Test> := SHARED, Sweep(t), {};
    var added := [Entry(AddMe(r, t), {t}), Entry(AddMe(r, u), {t, u})];
    SweepInterrupted(shelf, t, u);
    var s4 := SweepReading(shelf, t, {t, u}, added);
    SweepEndSteps(t, u);
    AdvanceAlone(shelf, t, s4, 1, sweep, SweepWrite([r], {t}), [], 2);
    var s5 := s4.(db := map[r := none], locals := map[0 := Idle, 1 := Running(sweep, Returned({}))]);
    assert With(s4, 1, sweep, (map[r := none], Returned({}))) == s5;
  }

  /** The users that the sweep writes back do not include the added one. */
  lemma SweepFinishes(shelf: string, t: Test, u: Test)
    requires t != shelf && t != u
    ensures var r, none: set<Test> := SHARED, {};
            Reaches(shelf, t, State(map[r := none], map[], map[0 := Idle, 1 := Idle],
                                    [Entry(AddMe(r, t), {t}), Entry(AddMe(r, u), {t, u}), Entry(Sweep(t), {})]))
  {
    var r, sweep, none: set<Test> := SHARED, Sweep(t), {};
    var lock := LockOf(shelf, sweep);
    var added := [Entry(AddMe(r, t), {t}), Entry(AddMe(r, u), {t, u})];
    SweepWritesBack(shelf, t, u);
    var s5 := State(map[r := none], map[lock := 1], map[0 := Idle, 1 := Running(sweep, Returned({}))], added);
    Extend(shelf, t, s5, Release(1));
    var s6 := State(s5.db, map[], map[0 := Idle, 1 := Idle], added + [Entry(sweep, {})]);
    assert Apply(shelf, s5, Release(1)) == s6;
    assert s6.history == [Entry(AddMe(r, t), {t}), Entry(AddMe(r, u), {t, u}), Entry(Sweep(t), {})];
  }

  /** A sweep that has read a set of users writes it back after another worker added itself
      to that set: the addition is lost, and the next removal is told that nobody is left. */
  lemma SweepLosesAnAddition(shelf: string, t: Test, u: Test)
    returns (s: State)
    requires t != shelf && t != u
    ensures Reaches(shelf, t, s)
    ensures |s.history| == 4 && s.history[3] == Entry(RemoveMe(SHARED, t), {})
    ensures Uses(s.history, SHARED, u) && !Serial(map[], s.history)
  {
    var r, none: set<Test> := SHARED, {};
    SweepFinishes(shelf, t, u);
    var s6 := State(map[r := none], map[], map[0 := Idle, 1 := Idle],
                    [Entry(AddMe(r, t), {t}), Entry(AddMe(r, u), {t, u}), Entry(Sweep(t), {})]);
    RunAlone(shelf, t, s6, 0, RemoveMe(r, t));
    assert Result(s6.db, RemoveMe(r, t)) == {};
    s := State(After(s6.db, RemoveMe(r, t)), s6.locks, s6.locals[0 := Idle], s6.history + [Entry(RemoveMe(r, t), {})]);
    LostAddition(s.history, t, u);
  }

  lemma LostAddition(history: seq<Entry>, t: Test, u: Test)
    requires t != u
    requires history == [Entry(AddMe(SHARED, t), {t}), Entry(AddMe(SHARED, u), {t, u}), Entry(Sweep(t), {}),
                         Entry(RemoveMe(SHARED, t), {})]
    ensures Uses(history, SHARED, u) && !Serial(map[], history)
  {
    assert history[1].op == AddMe(SHARED, u);
    assert Uses(history[..4], SHARED, u);
    assert history[..4] == history;
    if Serial(map[], history) {
      CleanupDecision(history, 3);
      assert false;
    }
  }

  ghost predicate SweepsAreSerial(shelf: string, t: Test) {
    forall s :: Reaches(shelf, t, s) ==> Serial(map[], s.history)
  }

  /** Sweeps of a test keep the interleavings serial exactly when the test is named like
      the shelf, because only then do they take the shelf's lock. */
  lemma SweepsAreSerialIffUnderTheShelfLock(shelf: string, t: Test)
    ensures t == shelf <==> SweepsAreSerial(shelf, t)
  {
    if t == shelf {
      forall s | Reaches(shelf, t, s)
        ensures Serial(map[], s.history)
      {
        var actions :| Run(shelf, map[], actions) == Some(s) && OnlySweepsOf(t, actions);
        InterleavingsAreSerial(shelf, map[], actions);
      }
    } else {
      var u := t + "x";
      assert |u| > |t|;
      var s := SweepLosesAnAddition(shelf, t, u);
    }
  }
}

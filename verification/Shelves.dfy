/** The shelf on which the workers of a test run record which tests use a shared resource:
    what each operation does when it runs alone. */
module Shelves {
  type Test = string
  type Resource = string

  /** The content of one shelf: the tests that use each resource. */
  type Shelf = map<Resource, set<Test>>

  /** The operations on one shelf.  `Sweep` is `remove_test_from_shelf_resources`. */
  datatype Op = AddMe(resource: Resource, test: Test) | RemoveMe(resource: Resource, test: Test) | Sweep(test: Test)

  function Members(db: Shelf, resource: Resource): set<Test> {
    if resource in db then db[resource] else {}
  }

  function Swept(db: Shelf, test: Test): Shelf {
    map resource | resource in db :: db[resource] - {test}
  }

  /** The shelf after an operation that runs alone. */
  function After(db: Shelf, op: Op): Shelf {
    match op
    case AddMe(r, t) => db[r := Members(db, r) + {t}]
    case RemoveMe(r, t) => db[r := Members(db, r) - {t}]
    case Sweep(t) => Swept(db, t)
  }

  /** The set that an operation on one resource returns; a sweep's caller ignores its result. */
  function Result(db: Shelf, op: Op): set<Test> {
    match op
    case AddMe(r, _) => Members(After(db, op), r)
    case RemoveMe(r, _) => Members(After(db, op), r)
    case Sweep(_) => {}
  }

  class ShelfFile {
    var db: Shelf

    method AddMeToSharedResource(resource: Resource, test: Test) returns (users: set<Test>)
      modifies this
      ensures db == After(old(db), AddMe(resource, test)) && users == Result(old(db), AddMe(resource, test))
    {
      if resource !in db {
        db := db[resource := {}];
      }
      var aux := db[resource];
      aux := aux + {test};
      db := db[resource := aux];
      users := db[resource];
    }

    method RemoveMeFromSharedResource(resource: Resource, test: Test) returns (users: set<Test>)
      modifies this
      ensures db == After(old(db), RemoveMe(resource, test)) && users == Result(old(db), RemoveMe(resource, test))
    {
      db := db[resource := if resource in db then db[resource] else {}];
      if test in db[resource] {
        var aux := db[resource];
        aux := aux - {test};
        db := db[resource := aux];
      }
      assert db[resource] == Members(old(db), resource) - {test};
      users := db[resource];
    }

    /** Goes through the resources one by one and rewrites those that the test uses. */
    method RemoveTestFromShelfResources(test: Test)
      modifies this
      ensures db == After(old(db), Sweep(test))
    {
      var todo := db.Keys;
      while todo != {}
        invariant todo <= db.Keys == old(db).Keys
        invariant forall r :: r in db ==> db[r] == if r in todo then old(db)[r] else old(db)[r] - {test}
        decreases todo
      {
        var resource :| resource in todo;
        todo := todo - {resource};
        if test in db[resource] {
          var aux := db[resource];
          aux := aux - {test};
          db := db[resource := aux];
        }
      }
    }
  }

  // ---------------------------------------------------------------- histories of calls

  datatype Entry = Entry(op: Op, result: set<Test>)

  /** The shelf after the calls of a history, run one by one. */
  function AfterAll(db: Shelf, history: seq<Entry>): Shelf {
    if history == [] then db
    else After(AfterAll(db, history[..|history| - 1]), history[|history| - 1].op)
  }

  /** Each call returned what it would have returned, had the calls run one by one. */
  predicate Serial(db: Shelf, history: seq<Entry>) {
    history == []
    || (&& Serial(db, history[..|history| - 1])
        && var last := history[|history| - 1];
           last.result == Result(AfterAll(db, history[..|history| - 1]), last.op))
  }

  lemma {:induction false} SerialPrefix(db: Shelf, history: seq<Entry>, n: nat)
    requires Serial(db, history) && n <= |history|
    ensures Serial(db, history[..n])
    ensures n < |history| ==> history[n].result == Result(AfterAll(db, history[..n]), history[n].op)
  {
    var last := |history| - 1;
    if n < last {
      SerialPrefix(db, history[..last], n);
      assert history[..last][..n] == history[..n];
    } else {
      assert n <= last || history[..n] == history;
    }
  }

  predicate Removes(op: Op, resource: Resource, test: Test) {
    op == RemoveMe(resource, test) || op == Sweep(test)
  }

  ghost predicate NotRemovedSince(history: seq<Entry>, i: nat, resource: Resource, test: Test) {
    forall j :: i < j < |history| ==> !Removes(history[j].op, resource, test)
  }

  /** The test added itself to the resource and was not removed since. */
  ghost predicate Uses(history: seq<Entry>, resource: Resource, test: Test) {
    exists i :: 0 <= i < |history| && history[i].op == AddMe(resource, test)
                && NotRemovedSince(history, i, resource, test)
  }

  lemma UsesExtends(history: seq<Entry>, resource: Resource, test: Test)
    requires history != []
    ensures var n := |history| - 1;
            var op := history[n].op;
            Uses(history, resource, test)
            <==> op == AddMe(resource, test) || (Uses(history[..n], resource, test) && !Removes(op, resource, test))
  {
  }

  lemma {:induction false} MembersAreUsers(history: seq<Entry>, resource: Resource, test: Test)
    ensures test in Members(AfterAll(map[], history), resource) <==> Uses(history, resource, test)
  {
    if history == [] {
    } else {
      MembersAreUsers(history[..|history| - 1], resource, test);
      UsesExtends(history, resource, test);
    }
  }

  ghost predicate NobodyUses(history: seq<Entry>, resource: Resource) {
    forall test :: !Uses(history, resource, test)
  }

  lemma EmptyMeansUnused(history: seq<Entry>, resource: Resource)
    ensures Members(AfterAll(map[], history), resource) == {} <==> NobodyUses(history, resource)
  {
    var members := Members(AfterAll(map[], history), resource);
    forall test
      ensures test in members <==> Uses(history, resource, test)
    {
      MembersAreUsers(history, resource, test);
    }
    if members != {} {
      var test :| test in members;
      assert Uses(history, resource, test);
    }
  }

  /** A fixture's clean-up deletes the resource when its removal returns the empty set:
      in a serial history, exactly when every test that added itself, the removing one
      included, was removed since. */
  lemma CleanupDecision(history: seq<Entry>, n: nat)
    requires Serial(map[], history) && n < |history| && history[n].op.RemoveMe?
    ensures history[n].result == {} <==> NobodyUses(history[..n + 1], history[n].op.resource)
  {
    SerialPrefix(map[], history, n);
    assert history[..n + 1][..n] == history[..n];
    EmptyMeansUnused(history[..n + 1], history[n].op.resource);
  }
}

/** Listing the fixtures that test cases require, directly or through other fixtures. */
module RequiredFixtures {
  import opened Prelude
  import opened Names
  import opened Sorting

  datatype Kind = Fixture | TestMethod | OtherObject

  /** A loadable object and the names that `get_required_fixtures` gives for it, for a
      fixture those of its class. */
  datatype Node = Node(kind: Kind, required: seq<Name>)

  /** The objects that can be loaded; any other name fails to load. */
  type Env = map<Name, Node>

  // ---------------------------------------------------------------- reachability

  /** Loading `a` leads to `b`: a test method also leads to what it is a member of. */
  ghost predicate Edge(env: Env, a: Name, b: Name) {
    a in env && (b in env[a].required || (env[a].kind.TestMethod? && Parent(a) == Some(b)))
  }

  ghost predicate Chain(env: Env, roots: seq<Name>, p: seq<Name>) {
    && p != [] && p[0] in roots
    && forall i :: 0 <= i < |p| - 1 ==> Edge(env, p[i], p[i + 1])
  }

  ghost predicate Reachable(env: Env, roots: seq<Name>, n: Name) {
    exists p :: Chain(env, roots, p) && p[|p| - 1] == n
  }

  lemma RootsAreReachable(env: Env, roots: seq<Name>)
    ensures forall n :: n in roots ==> Reachable(env, roots, n)
  {
    forall n | n in roots
      ensures Reachable(env, roots, n)
    {
      assert Chain(env, roots, [n]);
    }
  }

  lemma EdgesReach(env: Env, roots: seq<Name>, a: Name)
    requires Reachable(env, roots, a)
    ensures forall b :: Edge(env, a, b) ==> Reachable(env, roots, b)
  {
    var p :| Chain(env, roots, p) && p[|p| - 1] == a;
    forall b | Edge(env, a, b)
      ensures Reachable(env, roots, b)
    {
      var q := p + [b];
      assert forall i :: 0 <= i < |p| ==> q[i] == p[i];
      assert Chain(env, roots, q) && q[|q| - 1] == b;
    }
  }

  /** A set of loadable names that contains the loadable roots and what its members lead to
      contains everything loadable that is reachable. */
  ghost predicate Closed(env: Env, roots: seq<Name>, s: set<Name>) {
    && (forall n :: n in roots && n in env ==> n in s)
    && (forall a, b :: a in s && Edge(env, a, b) && b in env ==> b in s)
  }

  lemma {:induction false} ClosedContainsChain(env: Env, roots: seq<Name>, s: set<Name>, p: seq<Name>, n: nat)
    requires Closed(env, roots, s) && Chain(env, roots, p) && n < |p| && p[n] in env
    ensures p[n] in s
  {
    if n == 0 {
    } else {
      assert Edge(env, p[n - 1], p[n]);
      ClosedContainsChain(env, roots, s, p, n - 1);
    }
  }

  // ---------------------------------------------------------------- the worklist

  ghost predicate IsClosure(env: Env, roots: seq<Name>, result: seq<Name>) {
    && Sorted(result) && Distinct(result)
    && forall n :: n in result <==> n in env && env[n].kind.Fixture? && Reachable(env, roots, n)
  }

  /** What was visited and what is listed is reachable, and nothing else is but through the
      listed objects. */
  ghost predicate Frontier(env: Env, roots: seq<Name>, objects: seq<Name>, visited: set<Name>) {
    && visited <= env.Keys
    && (forall n :: n in objects || n in visited ==> Reachable(env, roots, n))
    && (forall n :: n in roots && n in env ==> n in visited || n in objects)
    && (forall a, b :: a in visited && Edge(env, a, b) && b in env ==> b in visited || b in objects)
  }

  lemma SkipName(env: Env, roots: seq<Name>, objects: seq<Name>, visited: set<Name>)
    requires objects != [] && Frontier(env, roots, objects, visited)
    requires objects[|objects| - 1] !in env || objects[|objects| - 1] in visited
    ensures Frontier(env, roots, objects[..|objects| - 1], visited)
  {
  }

  lemma VisitName(env: Env, roots: seq<Name>, objects: seq<Name>, visited: set<Name>, more: seq<Name>)
    requires objects != [] && Frontier(env, roots, objects, visited)
    requires var name := objects[|objects| - 1]; name in env && forall n :: n in more <==> Edge(env, name, n)
    ensures Frontier(env, roots, objects[..|objects| - 1] + more, visited + {objects[|objects| - 1]})
  {
    var name, rest := objects[|objects| - 1], objects[..|objects| - 1];
    EdgesReach(env, roots, name);
    assert forall n :: n in objects ==> n in rest || n == name;
  }

  lemma NoFrontierLeft(env: Env, roots: seq<Name>, visited: set<Name>)
    requires Frontier(env, roots, [], visited)
    ensures forall n :: n in visited <==> n in env && Reachable(env, roots, n)
  {
    forall n | n in env && Reachable(env, roots, n)
      ensures n in visited
    {
      var p :| Chain(env, roots, p) && p[|p| - 1] == n;
      ClosedContainsChain(env, roots, visited, p, |p| - 1);
    }
  }

  ghost predicate Found(env: Env, visited: set<Name>, result: seq<Name>) {
    Distinct(result) && forall n :: n in result <==> n in visited && n in env && env[n].kind.Fixture?
  }

  lemma FoundMore(env: Env, visited: set<Name>, result: seq<Name>, name: Name)
    requires Found(env, visited, result) && name in env && name !in visited
    ensures Found(env, visited + {name}, if env[name].kind.Fixture? then result + [name] else result)
  {
  }

  /** The names that a visited object adds to the worklist. */
  method NamesToFollow(env: Env, name: Name) returns (more: seq<Name>)
    requires name in env
    ensures forall n :: n in more <==> Edge(env, name, n)
  {
    more := [];
    if env[name].kind.TestMethod? {
      var parent := Parent(name);
      if parent.Some? {
        more := [parent.value];
      }
    }
    more := more + env[name].required;
  }

  /** One turn of the loop: takes an object off the end of the list; one that cannot be
      loaded is skipped, a name is visited once. */
  method VisitNext(env: Env, ghost roots: seq<Name>, objects: seq<Name>, visited: set<Name>, result: seq<Name>)
      returns (objects': seq<Name>, visited': set<Name>, result': seq<Name>)
    requires objects != [] && Frontier(env, roots, objects, visited) && Found(env, visited, result)
    ensures Frontier(env, roots, objects', visited') && Found(env, visited', result')
    ensures env.Keys - visited' < env.Keys - visited || (visited' == visited && |objects'| < |objects|)
  {
    var name := objects[|objects| - 1];
    objects', visited', result' := objects[..|objects| - 1], visited, result;
    if name in env && name !in visited {
      if env[name].kind.Fixture? {
        result' := result + [name];
      }
      var more := NamesToFollow(env, name);
      objects' := objects' + more;
      visited' := visited + {name};
      VisitName(env, roots, objects, visited, more);
      FoundMore(env, visited, result, name);
      assert name in env.Keys - visited;
    } else {
      SkipName(env, roots, objects, visited);
    }
  }

  /** The list of objects grows while it is visited. */
  method ListRequiredFixtures(env: Env, roots: seq<Name>) returns (result: seq<Name>)
    ensures IsClosure(env, roots, result)
  {
    result := [];
    var objects := roots;
    var visited: set<Name> := {};
    RootsAreReachable(env, roots);
    while objects != []
      invariant Frontier(env, roots, objects, visited) && Found(env, visited, result)
      decreases env.Keys - visited, |objects|
    {
      objects, visited, result := VisitNext(env, roots, objects, visited, result);
    }
    NoFrontierLeft(env, roots, visited);
    SortKeeps(result);
    result := Sort(result);
  }

  /** A set of names that has the roots, what its objects require, and the class of each of
      its test methods, as far as they can be loaded. */
  ghost predicate Covers(env: Env, roots: seq<Name>, s: set<Name>) {
    && (forall n :: n in roots && n in env ==> n in s)
    && (forall a, b :: a in s && a in env && b in env[a].required && b in env ==> b in s)
    && (forall a, parent, base :: a in s && a in env && env[a].kind == TestMethod && IsDotted(a, parent, base) && parent in env ==>
          parent in s)
  }

  lemma CoversIffClosed(env: Env, roots: seq<Name>, s: set<Name>)
    ensures Covers(env, roots, s) <==> Closed(env, roots, s)
  {
    forall a, b
      ensures Parent(a) == Some(b) <==> exists base :: IsDotted(a, b, base)
    {
      ParentIffDotted(a, b);
    }
    if Covers(env, roots, s) {
      forall a, b | a in s && Edge(env, a, b) && b in env
        ensures b in s
      {
        if b !in env[a].required {
          var base :| IsDotted(a, b, base);
        }
      }
    }
    if Closed(env, roots, s) {
      forall a, parent, base | a in s && a in env && env[a].kind == TestMethod && IsDotted(a, parent, base) && parent in env
        ensures parent in s
      {
        assert Edge(env, a, parent);
      }
    }
  }

  /** The fixtures listed are exactly those in all such sets, so those in the least one. */
  lemma ListedIffCovered(env: Env, roots: seq<Name>, result: seq<Name>, n: Name)
    requires IsClosure(env, roots, result)
    ensures n in result <==> n in env && env[n].kind == Fixture && forall s :: Covers(env, roots, s) ==> n in s
  {
    forall s | Covers(env, roots, s) && n in result
      ensures n in s
    {
      CoversIffClosed(env, roots, s);
      var p :| Chain(env, roots, p) && p[|p| - 1] == n;
      ClosedContainsChain(env, roots, s, p, |p| - 1);
    }
    var all := set m | m in env && Reachable(env, roots, m);
    assert Closed(env, roots, all) by {
      RootsAreReachable(env, roots);
      forall a | a in all
        ensures forall b :: Edge(env, a, b) ==> Reachable(env, roots, b)
      {
        EdgesReach(env, roots, a);
      }
    }
    CoversIffClosed(env, roots, all);
  }

  /** The list depends on the set of roots only. */
  lemma RootOrderDoesNotMatter(env: Env, roots: seq<Name>, roots': seq<Name>, a: seq<Name>, b: seq<Name>)
    requires forall n :: n in roots <==> n in roots'
    requires IsClosure(env, roots, a) && IsClosure(env, roots', b)
    ensures a == b
  {
    forall n
      ensures n in a <==> n in b
    {
      if p :| Chain(env, roots, p) && p[|p| - 1] == n { assert Chain(env, roots', p); }
      if p :| Chain(env, roots', p) && p[|p| - 1] == n { assert Chain(env, roots, p); }
    }
    SortedIsUnique(a, b);
  }

  /** More roots require more fixtures, and what several roots require is what one or the
      other of them requires. */
  lemma RootsAddUp(env: Env, some: seq<Name>, others: seq<Name>, n: Name)
    ensures Reachable(env, some + others, n) <==> Reachable(env, some, n) || Reachable(env, others, n)
  {
  }
}

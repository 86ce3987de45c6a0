/** Flattening an exception that wraps several others, and handling each of them. */
module ExcInfos {
  import opened Prelude

  /** Exceptions, up to Python equality. */
  type Exc = string

  datatype ExcInfo = ExcInfo(exc: Exc, traceback: int)

  /** The exceptions that are `MultipleExceptions`, with what they wrap. */
  type Wrapping = map<Exc, seq<ExcInfo>>

  predicate IsLeaf(g: Wrapping, info: ExcInfo) {
    info.exc !in g
  }

  // ---------------------------------------------------------------- the recursive flattening

  /** All exceptions in sight. */
  ghost function Universe(g: Wrapping, infos: seq<ExcInfo>): set<Exc> {
    g.Keys + (set k, i | k in g && i in g[k] :: i.exc) + (set i | i in infos :: i.exc)
  }

  lemma UniverseSplits(g: Wrapping, infos: seq<ExcInfo>)
    requires infos != []
    ensures Universe(g, infos[1..]) <= Universe(g, infos) && infos[0].exc in Universe(g, infos)
    ensures infos[0].exc in g ==> Universe(g, g[infos[0].exc]) <= Universe(g, infos)
  {
  }

  lemma MeasureDrops(u: set<Exc>, v: set<Exc>, visited: set<Exc>, visited': set<Exc>)
    requires u <= v && visited <= visited'
    ensures |u - visited'| <= |v - visited|
    ensures forall e :: e in v && e in visited' && e !in visited ==> |u - visited'| < |v - visited|
  {
    Smaller(u - visited', v - visited);
  }

  lemma Smaller(a: set<Exc>, b: set<Exc>)
    requires a <= b
    ensures |a| <= |b| && (forall e :: e in b && e !in a ==> |a| < |b|)
  {
    assert b == a + (b - a);
    if e :| e in b && e !in a { assert b - a != {}; }
  }

  /** Left to right, an exception's own wrapped exceptions in its place; exceptions that were
      visited before are left out.  Returns the leaves and all that was visited. */
  ghost function Flatten(g: Wrapping, infos: seq<ExcInfo>, visited: set<Exc>): (r: (seq<ExcInfo>, set<Exc>))
    ensures visited <= r.1
    decreases |Universe(g, infos) - visited|, |infos|
  {
    if infos == [] then ([], visited)
    else
      var info := infos[0];
      UniverseSplits(g, infos);
      MeasureDrops(Universe(g, infos[1..]), Universe(g, infos), visited, visited);
      MeasureDrops(Universe(g, infos[1..]), Universe(g, infos), visited, visited + {info.exc});
      if info.exc in visited then Flatten(g, infos[1..], visited)
      else if IsLeaf(g, info) then
        var (leaves, seen) := Flatten(g, infos[1..], visited + {info.exc});
        ([info] + leaves, seen)
      else
        MeasureDrops(Universe(g, g[info.exc]), Universe(g, infos), visited, visited + {info.exc});
        var (inner, seen) := Flatten(g, g[info.exc], visited + {info.exc});
        MeasureDrops(Universe(g, infos[1..]), Universe(g, infos), visited, seen);
        var (leaves, seen') := Flatten(g, infos[1..], seen);
        (inner + leaves, seen')
  }

  /** What the first exception of a list contributes. */
  ghost function FlattenOne(g: Wrapping, info: ExcInfo, visited: set<Exc>): (seq<ExcInfo>, set<Exc>) {
    if info.exc in visited then ([], visited)
    else if IsLeaf(g, info) then ([info], visited + {info.exc})
    else Flatten(g, g[info.exc], visited + {info.exc})
  }

  lemma FlattenStep(g: Wrapping, infos: seq<ExcInfo>, visited: set<Exc>)
    requires infos != []
    ensures var (first, seen) := FlattenOne(g, infos[0], visited);
            var (leaves, seen') := Flatten(g, infos[1..], seen);
            Flatten(g, infos, visited) == (first + leaves, seen')
  {
    var (first, seen) := FlattenOne(g, infos[0], visited);
    assert [] + Flatten(g, infos[1..], seen).0 == Flatten(g, infos[1..], seen).0;
  }

  lemma {:induction false} FlattenAppend(g: Wrapping, a: seq<ExcInfo>, b: seq<ExcInfo>, visited: set<Exc>)
    ensures var (leaves, seen) := Flatten(g, a, visited);
            var (leaves', seen') := Flatten(g, b, seen);
            Flatten(g, a + b, visited) == (leaves + leaves', seen')
    decreases |a|
  {
    if a == [] {
      assert a + b == b;
      assert [] + Flatten(g, b, visited).0 == Flatten(g, b, visited).0;
    } else {
      assert (a + b)[1..] == a[1..] + b && (a + b)[0] == a[0];
      FlattenStep(g, a, visited);
      FlattenStep(g, a + b, visited);
      var (first, seen) := FlattenOne(g, a[0], visited);
      FlattenAppend(g, a[1..], b, seen);
      var leaves := Flatten(g, a[1..], seen).0;
      var leaves' := Flatten(g, b, Flatten(g, a[1..], seen).1).0;
      assert first + (leaves + leaves') == (first + leaves) + leaves';
    }
  }

  /** One that wraps nothing is listed unless it was visited. */
  lemma FlattenLeaf(g: Wrapping, info: ExcInfo, visited: set<Exc>)
    requires IsLeaf(g, info)
    ensures Flatten(g, [info], visited) == (if info.exc in visited then [] else [info], visited + {info.exc})
  {
    FlattenStep(g, [info], visited);
    var first := FlattenOne(g, info, visited).0;
    assert [info][1..] == [] && first + [] == first;
    assert info.exc in visited ==> visited + {info.exc} == visited;
  }

  /** Replacing the first exception of the list by the ones it wraps. */
  lemma FlattenUnwrap(g: Wrapping, info: ExcInfo, rest: seq<ExcInfo>, visited: set<Exc>)
    requires info.exc !in visited && !IsLeaf(g, info)
    ensures Flatten(g, [info] + rest, visited) == Flatten(g, g[info.exc] + rest, visited + {info.exc})
  {
    assert ([info] + rest)[1..] == rest;
    FlattenStep(g, [info] + rest, visited);
    FlattenAppend(g, g[info.exc], rest, visited + {info.exc});
  }

  // ---------------------------------------------------------------- the loop with its stack

  function Reversed(s: seq<ExcInfo>): seq<ExcInfo> {
    if s == [] then [] else [s[|s| - 1]] + Reversed(s[..|s| - 1])
  }

  lemma {:induction false} ReversedAppend(a: seq<ExcInfo>, b: seq<ExcInfo>)
    ensures Reversed(a + b) == Reversed(b) + Reversed(a)
  {
    if b == [] {
      assert a + b == a;
    } else {
      assert (a + b)[..|a + b| - 1] == a + b[..|b| - 1];
      ReversedAppend(a, b[..|b| - 1]);
    }
  }

  lemma {:induction false} ReversedTwice(s: seq<ExcInfo>)
    ensures Reversed(Reversed(s)) == s
    ensures forall i :: i in Reversed(s) <==> i in s
  {
    if s == [] {
    } else {
      var init, last := s[..|s| - 1], s[|s| - 1];
      ReversedTwice(init);
      ReversedAppend([last], Reversed(init));
      assert s == init + [last] && Reversed([last]) == [last] + Reversed([]);
    }
  }

  /** Pushing arguments in reverse puts the first one on top. */
  lemma ReversedPush(stack: seq<ExcInfo>, args: seq<ExcInfo>)
    ensures Reversed(stack + Reversed(args)) == args + Reversed(stack)
    ensures forall i :: i in Reversed(args) <==> i in args
  {
    ReversedAppend(stack, Reversed(args));
    ReversedTwice(args);
  }

  ghost predicate Covers(all: set<Exc>, g: Wrapping, infos: seq<ExcInfo>) {
    (forall i :: i in infos ==> i.exc in all) && (forall k, i :: k in g && i in g[k] ==> i.exc in all)
  }

  /** What is still to be added to the result, as the recursive flattening sees it. */
  ghost function ToCome(g: Wrapping, visiting: seq<ExcInfo>, visited: set<Exc>): seq<ExcInfo> {
    Flatten(g, Reversed(visiting), visited).0
  }

  lemma ReversedPop(stack: seq<ExcInfo>)
    requires stack != []
    ensures Reversed(stack) == [stack[|stack| - 1]] + Reversed(stack[..|stack| - 1])
  {
  }

  lemma PopVisited(g: Wrapping, stack: seq<ExcInfo>, visited: set<Exc>)
    requires stack != [] && stack[|stack| - 1].exc in visited
    ensures ToCome(g, stack, visited) == ToCome(g, stack[..|stack| - 1], visited)
  {
  }

  lemma PopLeaf(g: Wrapping, stack: seq<ExcInfo>, visited: set<Exc>, result: seq<ExcInfo>)
    requires stack != [] && stack[|stack| - 1].exc !in visited && IsLeaf(g, stack[|stack| - 1])
    ensures var info := stack[|stack| - 1];
            result + ToCome(g, stack, visited)
            == result + [info] + ToCome(g, stack[..|stack| - 1], visited + {info.exc})
  {
  }

  lemma PopWrapping(g: Wrapping, stack: seq<ExcInfo>, visited: set<Exc>)
    requires stack != [] && stack[|stack| - 1].exc !in visited && !IsLeaf(g, stack[|stack| - 1])
    ensures var info := stack[|stack| - 1];
            && ToCome(g, stack, visited)
               == ToCome(g, stack[..|stack| - 1] + Reversed(g[info.exc]), visited + {info.exc})
            && forall i :: i in Reversed(g[info.exc]) <==> i in g[info.exc]
  {
    var info, rest := stack[|stack| - 1], stack[..|stack| - 1];
    ReversedPop(stack);
    FlattenUnwrap(g, info, Reversed(rest), visited);
    ReversedPush(rest, g[info.exc]);
  }

  /** One turn of the loop below. */
  method VisitNext(g: Wrapping, visiting: seq<ExcInfo>, visited: set<Exc>, result: seq<ExcInfo>, ghost all: set<Exc>)
      returns (visiting': seq<ExcInfo>, visited': set<Exc>, result': seq<ExcInfo>)
    requires visiting != [] && Covers(all, g, visiting)
    ensures Covers(all, g, visiting')
    ensures result' + ToCome(g, visiting', visited') == result + ToCome(g, visiting, visited)
    ensures |all - visited'| < |all - visited| || (visited' == visited && |visiting'| < |visiting|)
  {
    var info := visiting[|visiting| - 1];
    visiting', visited', result' := visiting[..|visiting| - 1], visited, result;
    if info.exc !in visited {
      Smaller(all - (visited + {info.exc}), all - visited);
      if !IsLeaf(g, info) {
        PopWrapping(g, visiting, visited);
        visiting' := visiting' + Reversed(g[info.exc]);
      } else {
        PopLeaf(g, visiting, visited, result);
        result' := result + [info];
      }
      visited' := visited + {info.exc};
    } else {
      PopVisited(g, visiting, visited);
    }
  }

  lemma VisitFirst(g: Wrapping, root: ExcInfo)
    ensures Covers(Universe(g, [root]), g, [root]) && Flatten(g, [root], {}).0 == [] + ToCome(g, [root], {})
  {
    assert Reversed([root]) == [root] + Reversed([]) == [root];
  }

  /** The explicit stack visits exactly what the recursive flattening does. */
  method ListExcInfos(g: Wrapping, root: Option<ExcInfo>) returns (result: seq<ExcInfo>)
    ensures result == if root.Some? then Flatten(g, [root.value], {}).0 else []
  {
    result := [];
    if root.Some? {
      var visited: set<Exc> := {};
      var visiting := [root.value];
      ghost var all := Universe(g, visiting);
      VisitFirst(g, root.value);
      while visiting != []
        invariant Flatten(g, [root.value], {}).0 == result + ToCome(g, visiting, visited)
        invariant Covers(all, g, visiting)
        decreases |all - visited|, |visiting|
      {
        visiting, visited, result := VisitNext(g, visiting, visited, result, all);
      }
    }
  }

  // ---------------------------------------------------------------- what the result is

  ghost predicate Wraps(g: Wrapping, infos: seq<ExcInfo>, e: Exc) {
    exists i :: i in infos && i.exc == e
  }

  /** A chain of exceptions, the first one listed in `infos`, each wrapping the next one. */
  ghost predicate Chain(g: Wrapping, infos: seq<ExcInfo>, p: seq<Exc>) {
    && p != [] && Wraps(g, infos, p[0])
    && forall i :: 0 <= i < |p| - 1 ==> p[i] in g && Wraps(g, g[p[i]], p[i + 1])
  }

  ghost predicate Reachable(g: Wrapping, infos: seq<ExcInfo>, e: Exc) {
    exists p :: Chain(g, infos, p) && p[|p| - 1] == e
  }

  lemma ReachableFirst(g: Wrapping, infos: seq<ExcInfo>)
    requires infos != []
    ensures Reachable(g, infos, infos[0].exc)
    ensures forall e :: Reachable(g, infos[1..], e) ==> Reachable(g, infos, e)
    ensures infos[0].exc in g ==> forall e :: Reachable(g, g[infos[0].exc], e) ==> Reachable(g, infos, e)
  {
    var x := infos[0].exc;
    assert infos[0] in infos;
    assert Chain(g, infos, [x]) && [x][|[x]| - 1] == x;
    forall e | Reachable(g, infos[1..], e)
      ensures Reachable(g, infos, e)
    {
      var p :| Chain(g, infos[1..], p) && p[|p| - 1] == e;
      assert Chain(g, infos, p);
    }
    if x in g {
      forall e | Reachable(g, g[x], e)
        ensures Reachable(g, infos, e)
      {
        var p :| Chain(g, g[x], p) && p[|p| - 1] == e;
        var q := [x] + p;
        assert forall i :: 0 < i < |q| ==> q[i] == p[i - 1];
        assert Chain(g, infos, q) && q[|q| - 1] == e;
      }
    }
  }

  /** `seen` grew from `visited` by what the listed exceptions lead to. */
  ghost predicate Grown(g: Wrapping, infos: seq<ExcInfo>, visited: set<Exc>, seen: set<Exc>) {
    && visited <= seen
    && (forall i :: i in infos ==> i.exc in seen)
    && (forall k, i :: k in seen && k !in visited && k in g && i in g[k] ==> i.exc in seen)
    && (forall e :: e in seen && e !in visited ==> Reachable(g, infos, e))
  }

  /** The leaves are those that are newly seen, each of them once. */
  ghost predicate LeavesOf(g: Wrapping, leaves: seq<ExcInfo>, visited: set<Exc>, seen: set<Exc>) {
    && (forall i :: i in leaves ==> i.exc in seen && i.exc !in visited && IsLeaf(g, i))
    && (forall e :: e in seen && e !in visited && e !in g ==> Wraps(g, leaves, e))
    && (forall i, j :: 0 <= i < j < |leaves| ==> leaves[i].exc != leaves[j].exc)
  }

  lemma LeavesAppend(g: Wrapping, a: seq<ExcInfo>, b: seq<ExcInfo>, visited: set<Exc>, mid: set<Exc>, seen: set<Exc>)
    requires visited <= mid <= seen && LeavesOf(g, a, visited, mid) && LeavesOf(g, b, mid, seen)
    ensures LeavesOf(g, a + b, visited, seen)
  {
  }

  /** `Grown` by the first exception of the list alone. */
  ghost predicate GrownByFirst(g: Wrapping, infos: seq<ExcInfo>, visited: set<Exc>, seen: set<Exc>)
    requires infos != []
  {
    && visited <= seen && infos[0].exc in seen
    && (forall k, i :: k in seen && k !in visited && k in g && i in g[k] ==> i.exc in seen)
    && (forall e :: e in seen && e !in visited ==> Reachable(g, infos, e))
  }

  lemma FirstGrows(g: Wrapping, infos: seq<ExcInfo>, visited: set<Exc>)
    requires infos != []
    requires var info := infos[0];
             info.exc !in visited && !IsLeaf(g, info) ==>
               var (leaves, seen) := Flatten(g, g[info.exc], visited + {info.exc});
               && Grown(g, g[info.exc], visited + {info.exc}, seen)
               && LeavesOf(g, leaves, visited + {info.exc}, seen)
    ensures var (first, mid) := FlattenOne(g, infos[0], visited);
            GrownByFirst(g, infos, visited, mid) && LeavesOf(g, first, visited, mid)
  {
    var info := infos[0];
    ReachableFirst(g, infos);
    if info.exc !in visited && IsLeaf(g, info) {
      assert info in [info];
    }
  }

  lemma GrownAppend(g: Wrapping, infos: seq<ExcInfo>, visited: set<Exc>, mid: set<Exc>, seen: set<Exc>)
    requires infos != [] && GrownByFirst(g, infos, visited, mid) && Grown(g, infos[1..], mid, seen)
    ensures Grown(g, infos, visited, seen)
  {
  }

  lemma {:induction false} FlattenGrows(g: Wrapping, infos: seq<ExcInfo>, visited: set<Exc>)
    ensures var (leaves, seen) := Flatten(g, infos, visited);
            Grown(g, infos, visited, seen) && LeavesOf(g, leaves, visited, seen)
    decreases |Universe(g, infos) - visited|, |infos|
  {
    if infos == [] {
    } else {
      var info, rest := infos[0], infos[1..];
      UniverseSplits(g, infos);
      var (first, mid) := FlattenOne(g, info, visited);
      if info.exc !in visited && !IsLeaf(g, info) {
        MeasureDrops(Universe(g, g[info.exc]), Universe(g, infos), visited, visited + {info.exc});
        FlattenGrows(g, g[info.exc], visited + {info.exc});
      }
      FirstGrows(g, infos, visited);
      MeasureDrops(Universe(g, rest), Universe(g, infos), visited, mid);
      FlattenGrows(g, rest, mid);
      FlattenStep(g, infos, visited);
      var (leaves, seen) := Flatten(g, rest, mid);
      GrownAppend(g, infos, visited, mid, seen);
      LeavesAppend(g, first, leaves, visited, mid, seen);
    }
  }

  lemma {:induction false} ChainIsSeen(g: Wrapping, infos: seq<ExcInfo>, seen: set<Exc>, p: seq<Exc>, n: nat)
    requires Grown(g, infos, {}, seen) && Chain(g, infos, p) && n < |p|
    ensures p[n] in seen
  {
    if n == 0 {
    } else {
      ChainIsSeen(g, infos, seen, p, n - 1);
      assert p[n - 1] in g && Wraps(g, g[p[n - 1]], p[n]);
    }
  }

  /** Flattening lists exactly the exceptions that are reachable through wrapping ones and
      wrap nothing themselves, each of them once, on cyclic structures too. */
  lemma FlattenListsReachableLeaves(g: Wrapping, root: ExcInfo)
    ensures var leaves := Flatten(g, [root], {}).0;
            && (forall e :: Wraps(g, leaves, e) <==> Reachable(g, [root], e) && e !in g)
            && (forall i, j :: 0 <= i < j < |leaves| ==> leaves[i].exc != leaves[j].exc)
  {
    FlattenGrows(g, [root], {});
    var (leaves, seen) := Flatten(g, [root], {});
    forall e | Reachable(g, [root], e) && e !in g
      ensures Wraps(g, leaves, e)
    {
      var p :| Chain(g, [root], p) && p[|p| - 1] == e;
      ChainIsSeen(g, [root], seen, p, |p| - 1);
    }
  }

  // ---------------------------------------------------------------- handling each of them

  /** The given handler: it may raise, each call is logged. */
  class Handler {
    var log: seq<ExcInfo>

    method Handle(info: ExcInfo) returns (raises: bool)
      modifies this
      ensures log == old(log) + [info]
    {
      log := log + [info];
      raises := *;
    }
  }

  /** What leaves the `with` block, given what its body raised: of several exceptions the
      first one is raised again and the others are handled in order, whether or not the
      handler raises; an empty wrapping is swallowed. */
  method HandleMultipleExceptions(g: Wrapping, raised: Option<ExcInfo>, handler: Handler)
    returns (r: Option<ExcInfo>)
    modifies handler
    ensures raised.None? || IsLeaf(g, raised.value) ==> r == raised && handler.log == old(handler.log)
    ensures raised.Some? && !IsLeaf(g, raised.value) ==>
              var leaves := Flatten(g, [raised.value], {}).0;
              && r == (if leaves == [] then None else Some(leaves[0]))
              && handler.log == old(handler.log) + (if leaves == [] then [] else leaves[1..])
  {
    if raised.None? || IsLeaf(g, raised.value) { return raised; }
    var excInfos := ListExcInfos(g, raised);
    r := None;
    if excInfos != [] {
      r := Some(excInfos[0]);
      var others := excInfos[1..];
      var n := 0;
      while n < |others|
        invariant n <= |others| && handler.log == old(handler.log) + others[..n]
      {
        var ignored := handler.Handle(others[n]);
        n := n + 1;
      }
    }
  }

  /** The swallowed case: a wrapping that leads to no other exception. */
  lemma EmptyWrappingIsSwallowed(g: Wrapping, root: ExcInfo)
    ensures Flatten(g, [root], {}).0 == [] <==> forall e :: Reachable(g, [root], e) ==> e in g
  {
    FlattenListsReachableLeaves(g, root);
    var leaves := Flatten(g, [root], {}).0;
    if leaves != [] {
      assert leaves[0] in leaves && Wraps(g, leaves, leaves[0].exc);
    }
  }
}

/** Merging one nested configuration into another one. */
module DeepMerge {
  import opened Prelude

  /** A value of a configuration: a dictionary or anything else. */
  datatype Value = Leaf(text: string) | Dict(entries: map<string, Value>)

  /** The override wins, except that two dictionaries are merged key by key. */
  function Merge(base: Value, override: Value): Value
    decreases override
  {
    if base.Leaf? || override.Leaf? then override
    else
      Dict(map key | key in base.entries.Keys + override.entries.Keys ::
        if key !in override.entries then base.entries[key]
        else if key !in base.entries then override.entries[key]
        else Merge(base.entries[key], override.entries[key]))
  }

  /** `deep_merge`: a copy of the base, updated by a loop over the override's items. */
  method MergeInto(base: Value, override: Value) returns (result: Value)
    requires base.Dict? && override.Dict?
    ensures result == Merge(base, override)
    decreases override
  {
    var entries := base.entries;
    var todo := override.entries.Keys;
    while todo != {}
      invariant todo <= override.entries.Keys
      invariant entries.Keys == base.entries.Keys + (override.entries.Keys - todo)
      invariant forall k :: k in entries ==>
                  entries[k] == if k in todo then base.entries[k] else Merge(base, override).entries[k]
      decreases todo
    {
      var key :| key in todo;
      todo := todo - {key};
      var value := override.entries[key];
      if key in entries && entries[key].Dict? && value.Dict? {
        var inner := MergeInto(entries[key], value);
        entries := entries[key := inner];
      } else {
        entries := entries[key := value];
      }
    }
    assert entries == Merge(base, override).entries;
    result := Dict(entries);
  }

  // ---------------------------------------------------------------- what is found where

  type Path = seq<string>

  function Lookup(v: Value, p: Path): Option<Value> {
    if p == [] then Some(v)
    else if v.Dict? && p[0] in v.entries then Lookup(v.entries[p[0]], p[1..])
    else None
  }

  /** Some value that is not a dictionary stands in the way of the path. */
  predicate Blocked(v: Value, p: Path) {
    p != [] && (v.Leaf? || (p[0] in v.entries && Blocked(v.entries[p[0]], p[1..])))
  }

  /** What the merge holds along any path: nothing where the override has a leaf in the way,
      what the base holds where the override has nothing, what the override holds where the
      base has nothing, and the merge of both where both have something. */
  lemma {:induction false} MergeAlongPath(base: Value, override: Value, p: Path)
    ensures Lookup(Merge(base, override), p)
            == if Blocked(override, p) then None
               else match (Lookup(base, p), Lookup(override, p))
                 case (below, None) => below
                 case (None, Some(above)) => Some(above)
                 case (Some(below), Some(above)) => Some(Merge(below, above))
    decreases p
  {
    if p == [] {
    } else if override.Dict? && p[0] in override.entries {
      var above := override.entries[p[0]];
      if base.Dict? && p[0] in base.entries {
        MergeAlongPath(base.entries[p[0]], above, p[1..]);
      } else {
        BlockedFindsNothing(above, p[1..]);
      }
    }
  }

  lemma {:induction false} BlockedFindsNothing(v: Value, p: Path)
    ensures Blocked(v, p) ==> Lookup(v, p) == None
  {
    if p == [] || v.Leaf? {
    } else if p[0] in v.entries {
      BlockedFindsNothing(v.entries[p[0]], p[1..]);
    }
  }

  /** A leaf of the override is found in the merge, wherever it is. */
  lemma {:induction false} OverrideLeavesWin(base: Value, override: Value, p: Path)
    requires Lookup(override, p).Some? && Lookup(override, p).value.Leaf?
    ensures Lookup(Merge(base, override), p) == Lookup(override, p)
  {
    MergeAlongPath(base, override, p);
    BlockedFindsNothing(override, p);
  }

  // ---------------------------------------------------------------- merging again

  lemma {:induction false} MergeWithItself(v: Value)
    ensures Merge(v, v) == v
  {
    if v.Leaf? {
    } else {
      forall k | k in v.entries
        ensures Merge(v.entries[k], v.entries[k]) == v.entries[k]
      {
        MergeWithItself(v.entries[k]);
      }
      assert Merge(v, v).entries == v.entries;
    }
  }

  /** Everything in `small` is replaced or kept as it is by a merge of `large` into it. */
  predicate Covered(small: Value, large: Value) {
    small.Leaf? || large.Leaf?
    || forall k :: k in small.entries ==> k in large.entries && Covered(small.entries[k], large.entries[k])
  }

  lemma {:induction false} MergeIsOverrideIffCovered(base: Value, override: Value)
    ensures Merge(base, override) == override <==> Covered(base, override)
    decreases override
  {
    if base.Leaf? || override.Leaf? {
    } else {
      forall k | k in base.entries && k in override.entries
        ensures Merge(base.entries[k], override.entries[k]) == override.entries[k]
                <==> Covered(base.entries[k], override.entries[k])
      {
        MergeIsOverrideIffCovered(base.entries[k], override.entries[k]);
      }
      var merged := Merge(base, override);
      if Covered(base, override) {
        assert merged.entries == override.entries;
      } else {
        var k :| k in base.entries && !(k in override.entries && Covered(base.entries[k], override.entries[k]));
        assert k in merged.entries;
        assert k in override.entries ==> merged.entries[k] != override.entries[k];
      }
    }
  }

  /** Applying the same override again changes nothing. */
  lemma {:induction false} MergeTwice(base: Value, override: Value)
    ensures Merge(Merge(base, override), override) == Merge(base, override)
    decreases override
  {
    if base.Leaf? || override.Leaf? {
      MergeWithItself(override);
    } else {
      var once := Merge(base, override);
      var twice := Merge(once, override);
      forall k | k in twice.entries
        ensures twice.entries[k] == once.entries[k]
      {
        if k in override.entries {
          if k in base.entries {
            MergeTwice(base.entries[k], override.entries[k]);
          } else {
            MergeWithItself(override.entries[k]);
          }
        }
      }
      assert twice.entries == once.entries;
    }
  }

  /** Where a leaf comes between two dictionaries, the last one covers the first one. */
  predicate NothingResurfaces(a: Value, b: Value, c: Value)
    decreases b
  {
    if a.Leaf? || c.Leaf? then true
    else if b.Leaf? then Covered(a, c)
    else forall k :: k in a.entries && k in b.entries && k in c.entries ==>
           NothingResurfaces(a.entries[k], b.entries[k], c.entries[k])
  }

  lemma MergeAtKey(base: Value, override: Value, k: string)
    requires base.Dict? && override.Dict?
    ensures var merged := Merge(base, override).entries;
            && (k in merged <==> k in base.entries || k in override.entries)
            && (k in override.entries && k in base.entries ==>
                  merged[k] == Merge(base.entries[k], override.entries[k]))
            && (k in override.entries && k !in base.entries ==> merged[k] == override.entries[k])
            && (k !in override.entries && k in base.entries ==> merged[k] == base.entries[k])
  {
  }

  /** The order of merging does not matter exactly when nothing that the second value hides
      of the first one resurfaces in the third one. */
  lemma {:induction false} MergeIsAssociativeIff(a: Value, b: Value, c: Value)
    ensures Merge(Merge(a, b), c) == Merge(a, Merge(b, c)) <==> NothingResurfaces(a, b, c)
    decreases b
  {
    if a.Leaf? || c.Leaf? {
    } else if b.Leaf? {
      MergeIsOverrideIffCovered(a, c);
    } else {
      var left, right := Merge(Merge(a, b), c), Merge(a, Merge(b, c));
      assert left.entries.Keys == right.entries.Keys;
      forall k | k in left.entries
        ensures left.entries[k] == right.entries[k]
                <==> (k in a.entries && k in b.entries && k in c.entries ==>
                        NothingResurfaces(a.entries[k], b.entries[k], c.entries[k]))
      {
        MergeAtKey(a, b, k);
        MergeAtKey(b, c, k);
        MergeAtKey(Merge(a, b), c, k);
        MergeAtKey(a, Merge(b, c), k);
        if k in a.entries && k in b.entries && k in c.entries {
          MergeIsAssociativeIff(a.entries[k], b.entries[k], c.entries[k]);
        }
      }
      if NothingResurfaces(a, b, c) {
        assert left.entries == right.entries;
      }
    }
  }

  ghost predicate LeafBetween(a: Value, b: Value, c: Value, p: Path) {
    && Lookup(a, p).Some? && Lookup(b, p).Some? && Lookup(c, p).Some?
    && Lookup(a, p).value.Dict? && Lookup(b, p).value.Leaf? && Lookup(c, p).value.Dict?
  }

  /** In particular when no path has a leaf between two dictionaries. */
  lemma {:induction false} MergeIsAssociative(a: Value, b: Value, c: Value)
    requires forall p :: !LeafBetween(a, b, c, p)
    ensures Merge(Merge(a, b), c) == Merge(a, Merge(b, c))
  {
    NoLeafBetween(a, b, c);
    MergeIsAssociativeIff(a, b, c);
  }

  lemma {:induction false} NoLeafBetween(a: Value, b: Value, c: Value)
    requires forall p :: !LeafBetween(a, b, c, p)
    ensures NothingResurfaces(a, b, c)
    decreases b
  {
    assert !LeafBetween(a, b, c, []);
    if a.Leaf? || b.Leaf? || c.Leaf? {
    } else {
      forall k | k in a.entries && k in b.entries && k in c.entries
        ensures NothingResurfaces(a.entries[k], b.entries[k], c.entries[k])
      {
        forall p
          ensures !LeafBetween(a.entries[k], b.entries[k], c.entries[k], p)
        {
          assert ([k] + p)[1..] == p;
          assert !LeafBetween(a, b, c, [k] + p);
        }
        NoLeafBetween(a.entries[k], b.entries[k], c.entries[k]);
      }
    }
  }
}

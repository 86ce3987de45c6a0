/** Dotted names of objects, such as package.module.Class. */
module Names {
  import opened Prelude

  type Name = string

  /** Python's `name.rsplit('.', 1)[0]`, if there is a dot. */
  function Parent(name: Name): (parent: Option<Name>)
    ensures parent.Some? ==> |parent.value| < |name|
  {
    if name == "" then None
    else if name[|name| - 1] == '.' then Some(name[..|name| - 1])
    else Parent(name[..|name| - 1])
  }

  lemma {:induction false} ParentEndsAtLastDot(name: Name)
    ensures Parent(name).None? ==> '.' !in name
    ensures Parent(name).Some? ==>
              var parent := Parent(name).value;
              parent + "." <= name && '.' !in name[|parent| + 1..]
  {
    if name == "" {
    } else {
      var init := name[..|name| - 1];
      assert name == init + [name[|name| - 1]];
      ParentEndsAtLastDot(init);
      if name[|name| - 1] != '.' && Parent(init).Some? {
        var parent := Parent(init).value;
        assert name[|parent| + 1..] == init[|parent| + 1..] + [name[|name| - 1]];
        assert parent + "." <= init <= name;
      }
    }
  }

  predicate IsDotted(name: Name, parent: Name, base: string) {
    name == parent + "." + base && '.' !in base
  }

  /** What comes before the last dot is the parent. */
  lemma {:induction false} ParentOf(parent: Name, base: string)
    requires '.' !in base
    ensures Parent(parent + "." + base) == Some(parent)
  {
    var name := parent + "." + base;
    if base == "" {
      assert name[..|name| - 1] == parent;
    } else {
      ParentOf(parent, base[..|base| - 1]);
      assert name[..|name| - 1] == parent + "." + base[..|base| - 1];
    }
  }

  lemma ParentIffDotted(name: Name, parent: Name)
    ensures Parent(name) == Some(parent) <==> exists base :: IsDotted(name, parent, base)
  {
    ParentEndsAtLastDot(name);
    if Parent(name) == Some(parent) {
      assert name == parent + "." + name[|parent| + 1..];
      assert IsDotted(name, parent, name[|parent| + 1..]);
    }
    if base :| IsDotted(name, parent, base) {
      ParentOf(parent, base);
    }
  }
}

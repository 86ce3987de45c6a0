/** Loading objects by their dotted names, with a cache of weak references. */
module Loader {
  import opened Prelude
  import opened Names

  // ---------------------------------------------------------------- the interpreter

  /** An object is None, a module, or anything else, which may refuse weak references. */
  datatype Object = NoneObject | Module(key: nat) | Plain(key: nat, weak: bool)

  datatype Error = ImportError | AttributeError | TypeError

  type Loaded = Outcome<Object, Error>

  /** What importing a name gives and what attributes objects have. */
  datatype Env = Env(modules: map<Name, Object>, attributes: map<(Object, string), Object>)

  class Interpreter {
    const env: Env
    /** The keys of `sys.modules`. */
    var imported: set<Name>

    constructor (env: Env)
      ensures this.env == env && imported == {}
    {
      this.env, imported := env, {};
    }

    /** `importlib.import_module`; it may import other modules. */
    method ImportModule(id: Name) returns (r: Loaded)
      modifies this
      ensures r == if id in env.modules then Ok(env.modules[id]) else Raise(ImportError)
      ensures r.Ok? ==> id in imported
    {
      var others :| others <= env.modules.Keys;
      imported := imported + others;
      if id !in env.modules { return Raise(ImportError); }
      imported := imported + {id};
      r := Ok(env.modules[id]);
    }

    /** `sys.modules[id]`. */
    method SysModule(id: Name) returns (r: Option<Object>)
      ensures r == if id in imported && id in env.modules then Some(env.modules[id]) else None
    {
      r := if id in imported && id in env.modules then Some(env.modules[id]) else None;
    }
  }

  // ---------------------------------------------------------------- without a cache

  /** The parent's name; an empty one counts as none. */
  function ParentId(id: Name): (parent: Option<Name>)
    ensures parent.Some? ==> |parent.value| < |id|
  {
    if Parent(id) == Some("") then None else Parent(id)
  }

  /** What follows the last dot. */
  function BaseName(id: Name): string {
    match Parent(id)
    case None => id
    case Some(parent) => id[|parent| + 1..]
  }

  /** An object that is to be kept needs to allow weak references, unless it is None or a module. */
  function Kept(obj: Object): Loaded {
    if obj.Plain? && !obj.weak then Raise(TypeError) else Ok(obj)
  }

  function Import(env: Env, id: Name): Loaded {
    if id in env.modules then Kept(env.modules[id]) else Raise(ImportError)
  }

  /** An attribute of the parent comes first, a module that can be imported second if the
      parent is one. */
  function Child(env: Env, id: Name, parent: Object, parentIsModule: bool): Loaded {
    if (parent, BaseName(id)) in env.attributes then Kept(env.attributes[(parent, BaseName(id))])
    else if parentIsModule then Import(env, id)
    else Raise(AttributeError)
  }

  /** Resolves a name from its root. */
  function Resolve(env: Env, id: Name): Loaded
    decreases |id|
  {
    match ParentId(id)
    case None => Import(env, id)
    case Some(parent) =>
      match Resolve(env, parent)
      case Raise(e) => Raise(e)
      case Ok(obj) => Child(env, id, obj, obj.Module?)
  }

  /** An object that refuses weak references is not given. */
  predicate Gives(r: Loaded, obj: Object) {
    match obj
    case Plain(_, false) => r == Raise(TypeError)
    case _ => r == Ok(obj)
  }

  predicate GivesModule(env: Env, r: Loaded, id: Name) {
    if id in env.modules then Gives(r, env.modules[id]) else r == Raise(ImportError)
  }

  /** What `parent` and `base` with a dot between them are to give, by what the parent
      resolves to: an attribute of that object, or else the module of the whole name if the
      object is a module.  With no parent before the dot it is imported. */
  predicate GivesMember(env: Env, r: Loaded, parent: Name, base: string) {
    if parent == "" then GivesModule(env, r, "." + base)
    else
      match Resolve(env, parent)
      case Raise(error) => r == Raise(error)
      case Ok(obj) =>
        if (obj, base) in env.attributes then Gives(r, env.attributes[(obj, base)])
        else if obj.Module? then GivesModule(env, r, parent + "." + base)
        else r == Raise(AttributeError)
  }

  /** A name without a dot is imported. */
  ghost predicate Obeys(env: Env, id: Name, r: Loaded) {
    && ('.' !in id ==> GivesModule(env, r, id))
    && forall parent, base :: IsDotted(id, parent, base) ==> GivesMember(env, r, parent, base)
  }

  /** Names resolve to what they are to give, and to nothing else. */
  lemma ResolveObeys(env: Env, id: Name, r: Loaded)
    ensures Obeys(env, id, r) <==> r == Resolve(env, id)
  {
    ParentEndsAtLastDot(id);
    forall parent: Name, base: string | IsDotted(id, parent, base)
      ensures Parent(id) == Some(parent) && BaseName(id) == base
    {
      ParentOf(parent, base);
    }
    if Parent(id).Some? {
      var parent, base := Parent(id).value, BaseName(id);
      assert id == parent + "." + base && id[|parent|] == '.';
      assert IsDotted(id, parent, base) && (parent == "" ==> id == "." + base);
      assert Obeys(env, id, r) <==> GivesMember(env, r, parent, base);
    } else {
      assert Obeys(env, id, r) <==> GivesModule(env, r, id);
    }
  }

  /** A module found as an attribute is not another one than that registered for the name. */
  predicate Coherent(env: Env, id: Name) {
    var r := Resolve(env, id);
    r.Ok? && r.value.Module? && id in env.modules ==> env.modules[id] == r.value
  }

  /** So are the name and those of its ancestors. */
  predicate Trusted(env: Env, id: Name)
    decreases |id|
  {
    Coherent(env, id) && (ParentId(id).None? || Trusted(env, ParentId(id).value))
  }

  predicate ParentTrusted(env: Env, id: Name) {
    ParentId(id).Some? ==> Trusted(env, ParentId(id).value)
  }

  // ---------------------------------------------------------------- the cache

  /** The method that is installed as `get`. */
  datatype Getter = GetNotCached | GetNone | GetModule | GetObject

  function Remembering(obj: Object): Getter {
    match obj
    case NoneObject => GetNone
    case Module(_) => GetModule
    case Plain(_, _) => GetObject
  }

  class ObjectLoader {
    const id: Name
    const name: string
    const parentId: Option<Name>
    var get: Getter
    /** None when the referent expired, or before there is one. */
    var ref: Option<Object>
    var isModule: Option<bool>

    constructor (id: Name)
      ensures this.id == id && name == BaseName(id) && parentId == Parent(id)
      ensures get == GetNotCached && ref == None && isModule == None
    {
      this.id, this.name, this.parentId := id, BaseName(id), Parent(id);
      get, ref, isModule := GetNotCached, None, None;
    }

    ghost predicate Remembers(obj: Object)
      reads this
    {
      get == Remembering(obj) && isModule == Some(obj.Module?) && (get == GetObject && ref.Some? ==> ref.value == obj)
    }

    /** What the loader remembers is what its name resolves to. */
    ghost predicate Faithful(env: Env)
      reads this
    {
      && name == BaseName(id) && parentId == Parent(id)
      && (Trusted(env, id) && get != GetNotCached ==>
            var r := Resolve(env, id);
            r.Ok? && Remembers(r.value))
    }

    method Set(obj: Object) returns (r: Loaded)
      modifies this
      ensures r == Kept(obj) && isModule == Some(obj.Module?)
      ensures r.Ok? ==> Remembers(obj)
      ensures r.Raise? ==> get == old(get) && ref == old(ref)
    {
      if obj.NoneObject? {
        isModule := Some(false);
        get := GetNone;
      } else if obj.Module? {
        isModule := Some(true);
        get := GetModule;
      } else {
        isModule := Some(false);
        if !obj.weak { return Raise(TypeError); }
        ref := Some(obj);
        get := GetObject;
      }
      r := Ok(obj);
    }

    /** None stands for the RuntimeError of an object that is not cached. */
    method Get(sys: Interpreter) returns (r: Option<Object>)
      ensures r == match get
                   case GetNotCached => None
                   case GetNone => Some(NoneObject)
                   case GetModule => if id in sys.imported && id in sys.env.modules then Some(sys.env.modules[id]) else None
                   case GetObject => ref
    {
      match get
      case GetNotCached => r := None;
      case GetNone => r := Some(NoneObject);
      case GetModule => r := sys.SysModule(id);
      case GetObject => r := ref;
    }

    method LoadModule(sys: Interpreter) returns (r: Loaded)
      modifies this, sys
      ensures r == Import(sys.env, id)
      ensures r.Ok? ==> Remembers(r.value)
      ensures r.Raise? ==> get == old(get) && ref == old(ref)
    {
      var obj := sys.ImportModule(id);
      if obj.Raise? { return obj; }
      r := Set(obj.value);
    }

    /** Looks for the object among its parent's attributes, then, if the parent is known as a
        module, among the modules. */
    method LoadFrom(parent: Object, parentIsModule: bool, sys: Interpreter) returns (r: Loaded)
      requires name == BaseName(id)
      modifies this, sys
      ensures r == Child(sys.env, id, parent, parentIsModule)
      ensures r.Ok? ==> Remembers(r.value)
      ensures r.Raise? ==> get == old(get) && ref == old(ref)
    {
      if (parent, name) in sys.env.attributes {
        r := Set(sys.env.attributes[(parent, name)]);
      } else if parentIsModule {
        r := LoadModule(sys);
      } else {
        r := Raise(AttributeError);
      }
    }

    method LoadParent(manager: LoaderManager, sys: Interpreter, cached: bool) returns (parent: Loaded, isModule: bool)
      requires manager.Valid(sys.env) && ParentId(id).Some?
      modifies manager, manager.loaders.Values, sys
      ensures manager.Valid(sys.env) && manager.Extends(old(manager.loaders))
      ensures forall k :: k in manager.loaders && k !in old(manager.loaders) ==> fresh(manager.loaders[k])
      ensures !cached || ParentTrusted(sys.env, id) ==>
                parent == Resolve(sys.env, ParentId(id).value) && (parent.Ok? ==> isModule == parent.value.Module?)
      decreases |id|, 0
    {
      var parentLoader := manager.GetLoader(ParentId(id).value, sys.env);
      parent := parentLoader.Load(manager, sys, cached);
      isModule := parentLoader.isModule == Some(true);
    }

    /** The object is looked for where it should be and remembered. */
    method LoadHere(manager: LoaderManager, sys: Interpreter, parent: Option<Object>, isModule: bool) returns (r: Loaded)
      requires manager.Valid(sys.env) && id in manager.loaders && manager.loaders[id] == this
      requires parent.None? <==> ParentId(id).None?
      requires parent.Some? && Trusted(sys.env, id) ==>
                 Resolve(sys.env, ParentId(id).value) == Ok(parent.value) && isModule == parent.value.Module?
      modifies this, sys
      ensures manager.Valid(sys.env)
      ensures r == if parent.None? then Import(sys.env, id) else Child(sys.env, id, parent.value, isModule)
      ensures r.Ok? ==> Remembers(r.value)
    {
      if parent.None? {
        r := LoadModule(sys);
      } else {
        r := LoadFrom(parent.value, isModule, sys);
      }
      assert old(Faithful(sys.env));
      assert Faithful(sys.env);
    }

    /** Without the cache for the object itself. */
    method LoadAnew(manager: LoaderManager, sys: Interpreter, cached: bool) returns (r: Loaded)
      requires manager.Valid(sys.env) && id in manager.loaders && manager.loaders[id] == this
      modifies manager, manager.loaders.Values, sys
      ensures manager.Valid(sys.env) && manager.Extends(old(manager.loaders))
      ensures forall k :: k in manager.loaders && k !in old(manager.loaders) ==> fresh(manager.loaders[k])
      ensures !cached || ParentTrusted(sys.env, id) ==> Answers(sys.env, r)
      decreases |id|, 1
    {
      if ParentId(id).None? {
        r := LoadHere(manager, sys, None, false);
      } else {
        var parent, isModule := LoadParent(manager, sys, cached);
        if parent.Raise? { return parent; }
        r := LoadHere(manager, sys, Some(parent.value), isModule);
      }
    }

    /** Asks the cache first if it is to be used; then the parent is loaded, and the object
        is looked for among its attributes and, if the parent is a module, among the modules. */
    method Load(manager: LoaderManager, sys: Interpreter, cached: bool) returns (r: Loaded)
      requires manager.Valid(sys.env) && id in manager.loaders && manager.loaders[id] == this
      modifies manager, manager.loaders.Values, sys
      ensures manager.Valid(sys.env) && manager.Extends(old(manager.loaders))
      ensures forall k :: k in manager.loaders && k !in old(manager.loaders) ==> fresh(manager.loaders[k])
      ensures !cached || Trusted(sys.env, id) ==> Answers(sys.env, r)
      ensures old(get) == GetNotCached && ParentTrusted(sys.env, id) ==> Answers(sys.env, r)
      ensures cached && old(get) == GetModule && id in old(sys.imported) && id in sys.env.modules ==>
                r == Ok(sys.env.modules[id])
      decreases |id|, 2
    {
      if cached {
        var obj := Get(sys);
        if obj.Some? { return Ok(obj.value); }
      }
      r := LoadAnew(manager, sys, cached);
    }

    /** The object that the name resolves to, which is remembered. */
    ghost predicate Answers(env: Env, r: Loaded)
      reads this
    {
      r == Resolve(env, id) && (r.Ok? ==> Remembers(r.value))
    }

    /** The referent was collected. */
    method Expire()
      modifies this
      ensures ref == None && get == old(get) && isModule == old(isModule)
    {
      ref := None;
    }
  }

  class LoaderManager {
    var loaders: map<Name, ObjectLoader>

    constructor ()
      ensures loaders == map[]
    {
      loaders := map[];
    }

    ghost predicate Valid(env: Env)
      reads this, loaders.Values
    {
      forall id :: id in loaders ==> loaders[id].id == id && loaders[id].Faithful(env)
    }

    ghost predicate Extends(earlier: map<Name, ObjectLoader>)
      reads this
    {
      forall id :: id in earlier ==> id in loaders && loaders[id] == earlier[id]
    }

    /** A loader is created when its name is first asked for, and stays the one of the name. */
    method GetLoader(id: Name, ghost env: Env) returns (loader: ObjectLoader)
      requires Valid(env)
      modifies this
      ensures Valid(env) && id in loaders && loaders[id] == loader
      ensures id in old(loaders) ==> loaders == old(loaders)
      ensures id !in old(loaders) ==>
                fresh(loader) && loader.get == GetNotCached && loaders == old(loaders)[id := loader]
    {
      if id in loaders { return loaders[id]; }
      loader := new ObjectLoader(id);
      loaders := loaders[id := loader];
    }
  }

  // ---------------------------------------------------------------- whole runs

  /** `load_object` */
  method LoadObject(manager: LoaderManager, sys: Interpreter, id: Name, cached: bool) returns (r: Loaded)
    requires manager.Valid(sys.env)
    modifies manager, manager.loaders.Values, sys
    ensures manager.Valid(sys.env)
    ensures forall k :: k in manager.loaders && k !in old(manager.loaders) ==> fresh(manager.loaders[k])
    ensures manager.Extends(old(manager.loaders))
    ensures !cached || Trusted(sys.env, id) ==> r == Resolve(sys.env, id) && Obeys(sys.env, id, r)
  {
    var loader := manager.GetLoader(id, sys.env);
    r := loader.Load(manager, sys, cached);
    ResolveObeys(sys.env, id, r);
  }

  datatype Event = Load(id: Name, cached: bool) | Expire(id: Name) | Change(imported: set<Name>)

  /** Whatever was loaded before, whatever expired and however `sys.modules` grew or shrank,
      a load without the cache resolves the name, and so does one with the cache whose name
      and ancestors are coherent. */
  method Run(env: Env, history: seq<Event>) returns (answers: seq<Option<Loaded>>)
    ensures |answers| == |history|
    ensures forall k :: 0 <= k < |history| && history[k].Load? && (!history[k].cached || Trusted(env, history[k].id)) ==>
              && answers[k] == Some(Resolve(env, history[k].id))
              && Obeys(env, history[k].id, answers[k].value)
  {
    var sys := new Interpreter(env);
    var manager := new LoaderManager();
    answers := [];
    for k := 0 to |history|
      invariant sys.env == env && fresh(sys) && fresh(manager) && manager.Valid(env)
      invariant forall id :: id in manager.loaders ==> fresh(manager.loaders[id])
      invariant |answers| == k
      invariant forall j :: 0 <= j < k && history[j].Load? && (!history[j].cached || Trusted(env, history[j].id)) ==>
                  && answers[j] == Some(Resolve(env, history[j].id))
                  && Obeys(env, history[j].id, answers[j].value)
    {
      var answer: Option<Loaded> := None;
      match history[k] {
        case Load(id, cached) =>
          var loaded := LoadObject(manager, sys, id, cached);
          answer := Some(loaded);
        case Expire(id) =>
          if id in manager.loaders { manager.loaders[id].Expire(); }
        case Change(imported) =>
          sys.imported := imported;
      }
      answers := answers + [answer];
    }
  }

  /** A load by a new manager, in a new interpreter. */
  method LoadOnce(env: Env, id: Name)
    returns (manager: LoaderManager, sys: Interpreter, loader: ObjectLoader, r: Loaded)
    requires ParentTrusted(env, id)
    ensures fresh(manager) && fresh(sys) && fresh(manager.loaders.Values)
    ensures sys.env == env && manager.Valid(env)
    ensures id in manager.loaders && manager.loaders[id] == loader && loader.id == id && loader.Answers(env, r)
  {
    sys := new Interpreter(env);
    manager := new LoaderManager();
    loader := manager.GetLoader(id, env);
    r := loader.Load(manager, sys, true);
  }

  /** The condition is needed, name by name: two loads in a row, the second one from the
      cache, both resolve the name exactly if it is coherent.  Otherwise an attribute hides
      another module that is registered under the same name: the first load finds the
      attribute and the second one the other module. */
  method LoadTwice(env: Env, id: Name) returns (first: Loaded, second: Loaded)
    requires ParentTrusted(env, id)
    ensures first == Resolve(env, id)
    ensures second == Resolve(env, id) <==> Coherent(env, id)
    ensures !Coherent(env, id) ==> second == Ok(env.modules[id])
  {
    var manager, sys, loader;
    manager, sys, loader, first := LoadOnce(env, id);
    sys.imported := sys.imported + {id};
    second := loader.Load(manager, sys, true);
  }

  /** Wherever the cache is not to be trusted there is such a name. */
  lemma {:induction false} FirstIncoherent(env: Env, id: Name) returns (culprit: Name)
    requires !Trusted(env, id)
    ensures !Coherent(env, culprit) && ParentTrusted(env, culprit)
    decreases |id|
  {
    if ParentTrusted(env, id) {
      culprit := id;
    } else {
      culprit := FirstIncoherent(env, ParentId(id).value);
    }
  }

  /** So the cache is to be trusted for all names exactly if all are coherent. */
  lemma AllTrustedIffAllCoherent(env: Env)
    ensures (forall id :: Trusted(env, id)) <==> (forall id :: Coherent(env, id))
  {
    if forall id :: Trusted(env, id) {
      forall id
        ensures Coherent(env, id)
      {
        assert Trusted(env, id);
      }
    } else {
      var id :| !Trusted(env, id);
      var culprit := FirstIncoherent(env, id);
      assert !Coherent(env, culprit);
    }
  }
}

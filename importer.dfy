/**
  The runtime half: the `InlineImporter` finder/loader that the generated script
  installs on `sys.meta_path`. It owns a flat table from dotted module name to
  `(is_package, source)` and answers the import machinery's questions from it.
*/
module Importer {
  import opened Wrappers
  import opened Strings

  /** One table value, `(is_package, source)`; a source of `None` has nothing to run. */
  datatype ModuleEntry = ModuleEntry(isPackage: bool, source: Option<string>)

  /** The class-level `_inlined_modules` dictionary. */
  type Table = map<string, ModuleEntry>

  /** The two ways the loader raises `ImportError`. */
  datatype ImportError =
    | NotInlined(name: string)   // the name is not in the table
    | NoCode(name: string)       // `get_code` returned None in `exec_module`

  /** The `ModuleSpec` that `find_spec` builds (its loader is always the importer class). */
  datatype ModuleSpec = ModuleSpec(name: string, origin: string, isPackage: bool, hasLocation: bool)

  /**
    What `source_to_code` produces: compiling is the host's business, so a code
    value records the source it came from and the path it was compiled under.
  */
  datatype Code = Code(source: string, path: Option<string>)

  /** A module's `__dict__`: the names its body binds, with opaque values. */
  type Namespace = map<string, string>

  /** The module object the import machinery hands to `exec_module`. */
  class Module {
    const name: string
    var namespace: Namespace

    constructor (name: string)
      ensures this.name == name && namespace == map[]
    {
      this.name := name;
      namespace := map[];
    }
  }

  /** The origin path derived from a dotted name: packages gain `.__init__`, dots become `/`, `.py` is appended. */
  function Origin(fullname: string, isPackage: bool): string
  {
    ReplaceAll(if isPackage then fullname + ".__init__" else fullname, '.', '/') + ".py"
  }

  /** The shape of an origin path: the name with `/` for `.`, then `.py` or `/__init__.py`. */
  lemma OriginShape(fullname: string, isPackage: bool)
    ensures Origin(fullname, isPackage)
         == ReplaceAll(fullname, '.', '/') + (if isPackage then "/__init__.py" else ".py")
  {
    if isPackage {
      var stem := ReplaceAll(fullname, '.', '/');
      var dotted := ReplaceAll(fullname + ".__init__", '.', '/');
      ReplaceAllAppend(fullname, ".__init__", '.', '/');
      InitSuffix();
      assert dotted == stem + "/__init__";
      JoinPy(stem, dotted, Origin(fullname, isPackage));
    }
  }

  lemma JoinPy(stem: string, dotted: string, origin: string)
    requires dotted == stem + "/__init__"
    requires origin == dotted + ".py"
    ensures origin == stem + "/__init__.py"
  {
    assert "/__init__" + ".py" == "/__init__.py";
  }

  lemma InitSuffix()
    ensures ReplaceAll(".__init__", '.', '/') == "/__init__"
  {
    assert ".__init__"[1..] == "__init__";
    ReplaceAllMissing("__init__", '.', '/');
  }

  /** Every origin ends in `.py`, and that is its only `.`. */
  lemma OriginEndsInPy(fullname: string, isPackage: bool)
    ensures var r := Origin(fullname, isPackage);
      |r| >= 3 && r[|r| - 3..] == ".py" && '.' !in r[..|r| - 3]
  {
    OriginShape(fullname, isPackage);
    var r := Origin(fullname, isPackage);
    var stem := ReplaceAll(fullname, '.', '/');
    ReplaceAllAt(fullname, '.', '/');
    if isPackage {
      assert r[..|r| - 3] == stem + "/__init__";
    } else {
      assert r[..|r| - 3] == stem;
    }
  }

  /** For a name without `/`, the origin gives the name back: strip the suffix and turn `/` into `.` again. */
  lemma OriginRoundTrip(fullname: string, isPackage: bool)
    requires '/' !in fullname
    ensures var r := Origin(fullname, isPackage);
      var suffix := if isPackage then 12 else 3;
      |r| >= suffix && ReplaceAll(r[..|r| - suffix], '/', '.') == fullname
  {
    OriginShape(fullname, isPackage);
    var r := Origin(fullname, isPackage);
    var suffix := if isPackage then 12 else 3;
    assert r[..|r| - suffix] == ReplaceAll(fullname, '.', '/');
    ReplaceAllInverse(fullname, '.', '/');
  }

  lemma OriginExamples()
    ensures Origin("a.b.c", false) == "a/b/c.py"
    ensures Origin("a.b.c", true) == "a/b/c/__init__.py"
    ensures Origin("pkg", true) == "pkg/__init__.py"
  {
    OriginShape("a.b.c", false);
    OriginShape("a.b.c", true);
    OriginShape("pkg", true);
    assert ReplaceAll("a.b.c", '.', '/') == "a/b/c";
    assert ReplaceAll("pkg", '.', '/') == "pkg";
  }

  /** `get_filename` without its cache. */
  function FilenameOf(t: Table, fullname: string): (r: Result<string, ImportError>)
    ensures r.Failure? <==> fullname !in t
    ensures r.Failure? ==> r.error == NotInlined(fullname)
    ensures r.Success? ==> r.value == Origin(fullname, t[fullname].isPackage)
  {
    if fullname !in t then Failure(NotInlined(fullname))
    else Success(Origin(fullname, t[fullname].isPackage))
  }

  /** `is_package` without its cache. */
  function PackageFlagOf(t: Table, fullname: string): (r: Result<bool, ImportError>)
    ensures r.Failure? <==> fullname !in t
    ensures r.Failure? ==> r.error == NotInlined(fullname)
    ensures r.Success? ==> r.value == t[fullname].isPackage
  {
    if fullname !in t then Failure(NotInlined(fullname)) else Success(t[fullname].isPackage)
  }

  /** `get_source`: the stored source, exactly, or ImportError. */
  function SourceOf(t: Table, fullname: string): (r: Result<Option<string>, ImportError>)
    ensures r.Failure? <==> fullname !in t
    ensures r.Failure? ==> r.error == NotInlined(fullname)
    ensures r.Success? ==> r.value == t[fullname].source
  {
    if fullname !in t then Failure(NotInlined(fullname)) else Success(t[fullname].source)
  }

  /** `find_spec`: a spec exactly for the names in the table, else None so the next finder is asked. */
  function SpecFor(t: Table, fullname: string): (r: Option<ModuleSpec>)
    ensures r.None? <==> fullname !in t
    ensures r.Some? ==>
      && r.value.name == fullname
      && r.value.hasLocation
      && FilenameOf(t, fullname) == Success(r.value.origin)
      && PackageFlagOf(t, fullname) == Success(r.value.isPackage)
  {
    if fullname in t then
      Some(ModuleSpec(fullname, Origin(fullname, t[fullname].isPackage), t[fullname].isPackage, true))
    else None
  }

  /**
    `get_code`: None when the stored source is None; otherwise the source compiled
    under its origin path. The path-less fallback of the `except ImportError`
    branch is kept, and the contract shows it is never taken.
  */
  function CodeFor(t: Table, fullname: string): (r: Result<Option<Code>, ImportError>)
    ensures r.Failure? <==> fullname !in t
    ensures r.Failure? ==> r.error == NotInlined(fullname)
    ensures r.Success? ==> (r.value.None? <==> t[fullname].source.None?)
    ensures r.Success? && r.value.Some? ==>
      r.value.value == Code(t[fullname].source.value, Some(Origin(fullname, t[fullname].isPackage)))
  {
    match SourceOf(t, fullname)
    case Failure(e) => Failure(e)
    case Success(None) => Success(None)
    case Success(Some(source)) =>
      match FilenameOf(t, fullname)
      case Failure(_) => Success(Some(Code(source, None)))
      case Success(path) => Success(Some(Code(source, Some(path))))
  }

  /** `create_module`: always None, so the import machinery makes a default module. */
  function CreateModule(spec: ModuleSpec): (r: Option<Module>)
    ensures r.None?
  {
    None
  }

  /**
    The importer class. Its table is fixed once built; the two `lru_cache` memos
    of `get_filename` and `is_package` are maps filled on first successful lookup
    (a raised ImportError is not cached).
  */
  class InlineImporter {
    const inlinedModules: Table
    var filenameCache: map<string, string>
    var packageCache: map<string, bool>

    /** Every memoised answer is the answer the uncached computation gives. */
    ghost predicate Valid()
      reads this
    {
      && (forall n :: n in filenameCache ==> FilenameOf(inlinedModules, n) == Success(filenameCache[n]))
      && (forall n :: n in packageCache ==> PackageFlagOf(inlinedModules, n) == Success(packageCache[n]))
    }

    constructor (modules: Table)
      ensures inlinedModules == modules
      ensures filenameCache == map[] && packageCache == map[]
      ensures Valid()
    {
      inlinedModules := modules;
      filenameCache := map[];
      packageCache := map[];
    }

    /** `get_filename` through its memo: the same answer as uncached; a hit leaves the memo alone. */
    method GetFilename(fullname: string) returns (r: Result<string, ImportError>)
      requires Valid()
      modifies this`filenameCache
      ensures Valid()
      ensures r == FilenameOf(inlinedModules, fullname)
      ensures old(fullname in filenameCache) ==> filenameCache == old(filenameCache)
      ensures filenameCache == if r.Success? then old(filenameCache)[fullname := r.value] else old(filenameCache)
    {
      if fullname in filenameCache {
        return Success(filenameCache[fullname]);
      }
      r := FilenameOf(inlinedModules, fullname);
      if r.Success? {
        filenameCache := filenameCache[fullname := r.value];
      }
    }

    /** `is_package` through its memo: the stored flag, or ImportError; a hit leaves the memo alone. */
    method IsPackage(fullname: string) returns (r: Result<bool, ImportError>)
      requires Valid()
      modifies this`packageCache
      ensures Valid()
      ensures r == PackageFlagOf(inlinedModules, fullname)
      ensures old(fullname in packageCache) ==> packageCache == old(packageCache)
      ensures packageCache == if r.Success? then old(packageCache)[fullname := r.value] else old(packageCache)
    {
      if fullname in packageCache {
        return Success(packageCache[fullname]);
      }
      r := PackageFlagOf(inlinedModules, fullname);
      if r.Success? {
        packageCache := packageCache[fullname := r.value];
      }
    }

    /** `get_source`: a plain lookup, never cached. */
    method GetSource(fullname: string) returns (r: Result<Option<string>, ImportError>)
      ensures r == SourceOf(inlinedModules, fullname)
    {
      if fullname !in inlinedModules {
        return Failure(NotInlined(fullname));
      }
      r := Success(inlinedModules[fullname].source);
    }

    /** `find_spec`: claims exactly the names in the table; asking fills both memos for such a name. */
    method FindSpec(fullname: string) returns (r: Option<ModuleSpec>)
      requires Valid()
      modifies this`filenameCache, this`packageCache
      ensures Valid()
      ensures r == SpecFor(inlinedModules, fullname)
      ensures fullname in inlinedModules ==>
        && filenameCache == old(filenameCache)[fullname := Origin(fullname, inlinedModules[fullname].isPackage)]
        && packageCache == old(packageCache)[fullname := inlinedModules[fullname].isPackage]
      ensures fullname !in inlinedModules ==>
        filenameCache == old(filenameCache) && packageCache == old(packageCache)
    {
      if fullname !in inlinedModules {
        return None;
      }
      var origin := GetFilename(fullname);
      var isPackage := IsPackage(fullname);
      r := Some(ModuleSpec(fullname, origin.value, isPackage.value, true));
    }

    /** `get_code`: a code value exactly when the stored source is not None, compiled under the origin path. */
    method GetCode(fullname: string) returns (r: Result<Option<Code>, ImportError>)
      requires Valid()
      modifies this`filenameCache
      ensures Valid()
      ensures r == CodeFor(inlinedModules, fullname)
      ensures filenameCache ==
        if r.Success? && r.value.Some?
        then old(filenameCache)[fullname := Origin(fullname, inlinedModules[fullname].isPackage)]
        else old(filenameCache)
    {
      var source := GetSource(fullname);
      if source.Failure? {
        return Failure(source.error);
      }
      if source.value.None? {
        return Success(None);
      }
      var src := source.value.value;
      var path := GetFilename(fullname);
      match path
      case Failure(_) =>
        r := Success(Some(Code(src, None)));
      case Success(p) =>
        r := Success(Some(Code(src, Some(p))));
    }

    /**
      `exec_module`: runs the module's code against its namespace, where `run`
      stands for the host's `exec`. With no code it raises ImportError and
      leaves the namespace as it was; it never succeeds without running code.
      `run` cannot import, so the memo entries a module body's own imports add
      are not part of this model.
    */
    method ExecModule(m: Module, run: (Code, Namespace) -> Namespace) returns (err: Option<ImportError>)
      requires Valid()
      modifies this`filenameCache, m
      ensures Valid()
      ensures err.None? <==> CodeFor(inlinedModules, m.name).Success? && CodeFor(inlinedModules, m.name).value.Some?
      ensures filenameCache ==
        if CodeFor(inlinedModules, m.name).Success? && CodeFor(inlinedModules, m.name).value.Some?
        then old(filenameCache)[m.name := Origin(m.name, inlinedModules[m.name].isPackage)]
        else old(filenameCache)
      ensures match CodeFor(inlinedModules, m.name)
        case Failure(e) => err == Some(e) && m.namespace == old(m.namespace)
        case Success(None) => err == Some(NoCode(m.name)) && m.namespace == old(m.namespace)
        case Success(Some(code)) => m.namespace == run(code, old(m.namespace))
    {
      var code := GetCode(m.name);
      if code.Failure? {
        return Some(code.error);
      }
      if code.value.None? {
        return Some(NoCode(m.name));
      }
      m.namespace := run(code.value.value, m.namespace);
      err := None;
    }
  }
}

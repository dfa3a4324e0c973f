/**
  The build-time registry: module names derived from file names, and the
  dictionary of `ModuleDefinition`s that `build_inlined` fills from a list of files.
*/
module Inliner {
  import opened Wrappers
  import opened Strings

  /** The `ModuleDefinition` named tuple, `(is_package, source)`. */
  datatype ModuleDefinition = ModuleDefinition(isPackage: bool, source: string)

  /** What aborts a build: `InlinerException` for a bad or repeated name, `OSError` for a file that cannot be read. */
  datatype InlinerError =
    | NoModuleName(filename: string)
    | AlreadyPresent(name: string)
    | Unreadable(filename: string)

  /** A Python `dict` of module definitions, in insertion order. */
  type Registry = seq<(string, ModuleDefinition)>

  /** The keys of a registry, in order. */
  function Names(reg: Registry): (r: seq<string>)
    ensures |r| == |reg|
    ensures forall i :: 0 <= i < |reg| ==> r[i] == reg[i].0
  {
    if reg == [] then [] else Names(reg[..|reg| - 1]) + [reg[|reg| - 1].0]
  }

  predicate Distinct(s: seq<string>)
  {
    forall i, j :: 0 <= i < j < |s| ==> s[i] != s[j]
  }

  /** `os.path.basename`: the text after the last `/`. */
  function Basename(path: string): string
  {
    match LastIndexOf(path, '/')
    case None => path
    case Some(i) => path[i + 1..]
  }

  /** The basename is the `/`-free tail of the path, preceded by a `/` when it is not the whole path. */
  lemma BasenameSpec(path: string)
    ensures var r := Basename(path);
      && '/' !in r
      && |r| <= |path| && path[|path| - |r|..] == r
      && (|r| < |path| ==> path[|path| - |r| - 1] == '/')
  {
    LastIndexOfSpec(path, '/');
  }

  /**
    `extract_module_name`: the basename's text before its last `.`; it raises
    when that text is empty (no `.` at all, or a `.` only in first position).
  */
  function ExtractModuleName(filename: string): (r: Result<string, InlinerError>)
    ensures r.Failure? ==> r.error == NoModuleName(filename)
    ensures r.Success? ==> r.value != [] && '/' !in r.value
  {
    var base := Basename(filename);
    var name := match LastIndexOf(base, '.') case None => "" case Some(i) => base[..i];
    if name == "" then Failure(NoModuleName(filename))
    else
      BasenameSpec(filename);
      Success(name)
  }

  /**
    `extract_module_name` succeeds exactly when the basename has a `.` after its
    first character, and then the name and a `.`-free extension make up the basename.
  */
  lemma ExtractModuleNameSpec(filename: string)
    ensures var base := Basename(filename);
      ExtractModuleName(filename).Success? <==> exists i :: 0 < i < |base| && base[i] == '.'
    ensures var base := Basename(filename);
      var r := ExtractModuleName(filename);
      r.Success? ==>
        var n := |r.value|;
        n < |base| && base[..n] == r.value && base[n] == '.' && '.' !in base[n + 1..]
  {
    var base := Basename(filename);
    LastIndexOfSpec(base, '.');
    match LastIndexOf(base, '.')
    case None =>
    case Some(k) =>
      if exists i :: 0 < i < |base| && base[i] == '.' {
        var i :| 0 < i < |base| && base[i] == '.';
      }
  }

  /** The basename of `dir/base` is `base` when `base` has no `/`. */
  lemma BasenameAfter(dir: string, base: string)
    requires '/' !in base
    ensures Basename(dir + ['/'] + base) == base
  {
    LastIndexOfAfter(dir, '/', base);
    assert (dir + ['/'] + base)[|dir| + 1..] == base;
  }

  /** A basename `stem.ext` with a non-empty stem and a `.`-free extension names the module `stem`. */
  lemma NameFromBasename(filename: string, stem: string, ext: string)
    requires Basename(filename) == stem + ['.'] + ext
    requires stem != [] && '.' !in ext
    ensures ExtractModuleName(filename) == Success(stem)
  {
    LastIndexOfAfter(stem, '.', ext);
    assert (stem + ['.'] + ext)[..|stem|] == stem;
  }

  /** The cases of inline_importer/tests/test_inliner.py:9-20. */
  lemma ExtractModuleNameNested()
    ensures ExtractModuleName("nested/deep/module.py") == Success("module")
  {
    assert "nested/deep/module.py" == "nested/deep" + ['/'] + "module.py";
    BasenameAfter("nested/deep", "module.py");
    assert "module.py" == "module" + ['.'] + "py";
    NameFromBasename("nested/deep/module.py", "module", "py");
  }

  lemma ExtractModuleNameNestedNoDot()
    ensures ExtractModuleName("nested/deep/module").Failure?
  {
    assert "nested/deep/module" == "nested/deep" + ['/'] + "module";
    BasenameAfter("nested/deep", "module");
    LastIndexOfMissing("module", '.');
  }

  lemma ExtractModuleNameShallow()
    ensures ExtractModuleName("shallow.py") == Success("shallow")
  {
    LastIndexOfMissing("shallow.py", '/');
    assert "shallow.py" == "shallow" + ['.'] + "py";
    NameFromBasename("shallow.py", "shallow", "py");
  }

  lemma ExtractModuleNameNoDot()
    ensures ExtractModuleName("shallow").Failure?
    ensures ExtractModuleName("").Failure?
  {
    LastIndexOfMissing("shallow", '/');
    LastIndexOfMissing("shallow", '.');
  }

  /** A way to name a file; `build_inlined` uses `ExtractModuleName`. */
  type Namer = string -> Result<string, InlinerError>

  /**
    The loop of `build_inlined` from a partly filled dictionary `acc`: the first
    file whose name cannot be derived, whose name is already a key, or that
    cannot be read aborts the whole build. The naming function is a parameter
    so that the registry facts below hold for any naming.
  */
  function BuildFrom(nameOf: Namer, acc: Registry, files: seq<string>, disk: map<string, string>)
    : Result<Registry, InlinerError>
    decreases |files|
  {
    if files == [] then Success(acc)
    else match nameOf(files[0])
      case Failure(e) => Failure(e)
      case Success(name) =>
        if name in Names(acc) then Failure(AlreadyPresent(name))
        else if files[0] !in disk then Failure(Unreadable(files[0]))
        else BuildFrom(nameOf, acc + [(name, ModuleDefinition(false, disk[files[0]]))], files[1..], disk)
  }

  /** `build_inlined(files)`, where `disk` holds the readable files' contents. */
  function Inlined(files: seq<string>, disk: map<string, string>): Result<Registry, InlinerError>
  {
    BuildFrom(ExtractModuleName, [], files, disk)
  }

  /** Every file has a name. */
  predicate AllNamed(nameOf: Namer, files: seq<string>)
  {
    forall i :: 0 <= i < |files| ==> nameOf(files[i]).Success?
  }

  /** Every file can be read. */
  predicate AllReadable(files: seq<string>, disk: map<string, string>)
  {
    forall i :: 0 <= i < |files| ==> files[i] in disk
  }

  /** The names of the files, in file order. */
  function ModuleNames(nameOf: Namer, files: seq<string>): (r: seq<string>)
    requires AllNamed(nameOf, files)
    ensures |r| == |files|
    ensures forall i :: 0 <= i < |files| ==> r[i] == nameOf(files[i]).value
  {
    if files == [] then [] else [nameOf(files[0]).value] + ModuleNames(nameOf, files[1..])
  }

  /** The registry a successful build must produce: one non-package entry per file, in file order. */
  function Expected(nameOf: Namer, files: seq<string>, disk: map<string, string>): (r: Registry)
    requires AllNamed(nameOf, files) && AllReadable(files, disk)
    ensures |r| == |files|
  {
    if files == [] then []
    else [(nameOf(files[0]).value, ModuleDefinition(false, disk[files[0]]))] + Expected(nameOf, files[1..], disk)
  }

  lemma {:induction false} ExpectedAt(nameOf: Namer, files: seq<string>, disk: map<string, string>, i: nat)
    requires AllNamed(nameOf, files) && AllReadable(files, disk)
    requires i < |files|
    ensures Expected(nameOf, files, disk)[i] == (nameOf(files[i]).value, ModuleDefinition(false, disk[files[i]]))
  {
    if i > 0 {
      ExpectedAt(nameOf, files[1..], disk, i - 1);
    }
  }

  lemma NamesAppend(a: Registry, b: Registry)
    ensures Names(a + b) == Names(a) + Names(b)
  {
  }

  /** The three conditions split into the first file's and the rest's. */
  lemma ConditionsCons(nameOf: Namer, files: seq<string>, disk: map<string, string>)
    requires files != []
    ensures AllNamed(nameOf, files) <==> nameOf(files[0]).Success? && AllNamed(nameOf, files[1..])
    ensures AllReadable(files, disk) <==> files[0] in disk && AllReadable(files[1..], disk)
    ensures AllNamed(nameOf, files) ==>
      ModuleNames(nameOf, files) == [nameOf(files[0]).value] + ModuleNames(nameOf, files[1..])
  {
    if nameOf(files[0]).Success? && AllNamed(nameOf, files[1..]) {
      forall i | 0 <= i < |files| ensures nameOf(files[i]).Success? {
        if i > 0 { assert files[i] == files[1..][i - 1]; }
      }
    }
    if files[0] in disk && AllReadable(files[1..], disk) {
      forall i | 0 <= i < |files| ensures files[i] in disk {
        if i > 0 { assert files[i] == files[1..][i - 1]; }
      }
    }
  }

  /** Distinctness of `a + [n] + r` is `n` new to `a` and distinctness of the rest. */
  lemma DistinctCons(a: seq<string>, n: string, r: seq<string>)
    requires Distinct(a)
    ensures Distinct(a + ([n] + r)) <==> n !in a && Distinct((a + [n]) + r)
  {
    assert a + ([n] + r) == (a + [n]) + r;
    if n in a {
      var k :| 0 <= k < |a| && a[k] == n;
      assert (a + ([n] + r))[k] == n == (a + ([n] + r))[|a|];
    }
  }

  /**
    The loop's outcome from any partial dictionary with distinct keys: it succeeds
    exactly when every file is named and readable and no name repeats, and then
    the dictionary is extended (never overwritten) by the expected entries.
  */
  lemma {:induction false} BuildFromSpec(nameOf: Namer, acc: Registry, files: seq<string>, disk: map<string, string>)
    requires Distinct(Names(acc))
    ensures BuildFrom(nameOf, acc, files, disk).Success? <==>
      AllNamed(nameOf, files) && AllReadable(files, disk) && Distinct(Names(acc) + ModuleNames(nameOf, files))
    ensures BuildFrom(nameOf, acc, files, disk).Success? ==>
      AllNamed(nameOf, files) && AllReadable(files, disk) &&
      BuildFrom(nameOf, acc, files, disk).value == acc + Expected(nameOf, files, disk)
    decreases |files|
  {
    if files == [] {
      assert Names(acc) + ModuleNames(nameOf, files) == Names(acc);
    } else {
      ConditionsCons(nameOf, files, disk);
      var f, rest := files[0], files[1..];
      match nameOf(f)
      case Failure(_) =>
      case Success(name) =>
        DistinctCons(Names(acc), name, if AllNamed(nameOf, rest) then ModuleNames(nameOf, rest) else []);
        if name !in Names(acc) && f in disk {
          var entry := (name, ModuleDefinition(false, disk[f]));
          NamesAppend(acc, [entry]);
          assert Names(acc + [entry]) == Names(acc) + [name];
          BuildFromSpec(nameOf, acc + [entry], rest, disk);
          if AllNamed(nameOf, files) && AllReadable(files, disk) {
            assert Expected(nameOf, files, disk) == [entry] + Expected(nameOf, rest, disk);
          }
        }
    }
  }

  /** `build_inlined` succeeds exactly for named, readable files with distinct module names. */
  lemma InlinedSucceedsIff(files: seq<string>, disk: map<string, string>)
    ensures Inlined(files, disk).Success? <==>
      && AllNamed(ExtractModuleName, files)
      && AllReadable(files, disk)
      && Distinct(ModuleNames(ExtractModuleName, files))
  {
    BuildFromSpec(ExtractModuleName, [], files, disk);
    if AllNamed(ExtractModuleName, files) {
      assert Names([]) + ModuleNames(ExtractModuleName, files) == ModuleNames(ExtractModuleName, files);
    }
  }

  /**
    A successful `build_inlined`: its keys are the extracted names in file order,
    each entry holds that file's contents, and no entry is a package.
  */
  lemma InlinedContents(files: seq<string>, disk: map<string, string>)
    requires Inlined(files, disk).Success?
    ensures AllNamed(ExtractModuleName, files)
    ensures var reg := Inlined(files, disk).value;
      && Names(reg) == ModuleNames(ExtractModuleName, files)
      && Distinct(Names(reg))
      && forall i :: 0 <= i < |reg| ==>
           files[i] in disk && reg[i].1 == ModuleDefinition(false, disk[files[i]]) && !reg[i].1.isPackage
  {
    BuildFromSpec(ExtractModuleName, [], files, disk);
    InlinedSucceedsIff(files, disk);
    var reg := Inlined(files, disk).value;
    assert reg == Expected(ExtractModuleName, files, disk);
    forall i | 0 <= i < |reg|
      ensures reg[i].0 == ModuleNames(ExtractModuleName, files)[i]
      ensures reg[i].1 == ModuleDefinition(false, disk[files[i]])
    {
      ExpectedAt(ExtractModuleName, files, disk, i);
    }
    assert Names(reg) == ModuleNames(ExtractModuleName, files);
  }

  /** A file whose name cannot be extracted aborts the whole build: no partial dictionary comes back. */
  lemma UnnamedFileAborts(files: seq<string>, disk: map<string, string>, k: nat)
    requires k < |files| && ExtractModuleName(files[k]).Failure?
    ensures Inlined(files, disk).Failure?
  {
    InlinedSucceedsIff(files, disk);
  }

  /** Two files with the same module name make the build fail. */
  lemma DuplicateNameAborts(files: seq<string>, disk: map<string, string>, i: nat, j: nat)
    requires i < j < |files|
    requires ExtractModuleName(files[i]).Success? && ExtractModuleName(files[j]).Success?
    requires ExtractModuleName(files[i]).value == ExtractModuleName(files[j]).value
    ensures Inlined(files, disk).Failure?
  {
    InlinedSucceedsIff(files, disk);
    if AllNamed(ExtractModuleName, files) {
      assert ModuleNames(ExtractModuleName, files)[i] == ModuleNames(ExtractModuleName, files)[j];
    }
  }

  /**
    `build_inlined` as the source runs it: a dictionary filled one file at a time,
    with a membership check before each insertion.
  */
  method BuildInlined(files: seq<string>, disk: map<string, string>) returns (r: Result<Registry, InlinerError>)
    ensures r == Inlined(files, disk)
    ensures files == [] ==> r == Success([])
  {
    var inlined: Registry := [];
    var i := 0;
    while i < |files|
      invariant 0 <= i <= |files|
      invariant BuildFrom(ExtractModuleName, inlined, files[i..], disk) == Inlined(files, disk)
    {
      var f := files[i];
      assert files[i..] == [f] + files[i + 1..];
      var name := ExtractModuleName(f);
      if name.Failure? {
        return Failure(name.error);
      }
      if name.value in Names(inlined) {
        return Failure(AlreadyPresent(name.value));
      }
      if f !in disk {
        return Failure(Unreadable(f));
      }
      inlined := inlined + [(name.value, ModuleDefinition(false, disk[f]))];
      i := i + 1;
    }
    assert files[i..] == [];
    r := Success(inlined);
  }
}

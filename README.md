# inline-importer in Dafny

`inline_importer` bundles Python modules into one self-contained script. It has
two halves:

- **At build time**, `build_inlined` reads a list of files. It derives a module name
  from each file name with `extract_module_name` and collects a dictionary of
  `ModuleDefinition(is_package, source)`. `build_file` then writes the script:
  - an optional shebang;
  - the source of the importer class;
  - a version line;
  - an optional namespace-packages line;
  - the table of inlined modules, one line per module;
  - the line that installs the importer on `sys.meta_path`;
  - the entrypoint.
- **At run time**, the `InlineImporter` class acts as the meta-path finder and loader.
  It answers the import machinery from its class-level table of
  `name -> (is_package, source)`. It memoises `get_filename` and `is_package` with
  `lru_cache`.

A small command-line converter, `_ternary_type`, turns a word into True, False or
None.

The project has six modules:

- `Wrappers`: `Option` and `Result`. `None` and raised exceptions are modelled as
  values.
- `Strings`: the `str` operations the code relies on: `rfind`, `replace`,
  `lower`, substring `in`.
- `Importer` (`inline_importer.py`):
  - an `InlineImporter` class with the table as a constant field and the two memo
    caches as `map` fields that its methods update;
  - each method is proved against an uncached specification function;
  - a `Valid()` invariant says every memoised answer is the uncached answer.
- `Inliner` (`inline_importer/inliner.py`):
  - `os.path.basename` and `extract_module_name` as functions;
  - `build_inlined` as a method whose loop fills the dictionary in place;
  - the loop is proved equal to a recursive specification, whose success
    condition and contents are proved as lemmas.
- `Builder` (`inline_importer/builder.py`):
  - `build_file` as a method that appends piece by piece to a `StringIO` class;
  - it is proved to produce `Artifact`, a function of its arguments;
  - the layout of `Artifact` is proved piece by piece as lemmas.
- `Cli` (`inline_importer/__main__.py`): `_ternary_type` as written, and a corrected
  version (see Findings).

In the Model table, paths are relative to the repository root.

## Model

| member | source | states |
|---|---|---|
| Strings.LastIndexOfSpec | inline_importer/inliner.py:50 | `rpartition`'s split point: `None` exactly when the character is absent; otherwise it holds the character and nothing after it does |
| Strings.ReplaceAllAt | inline_importer.py:63 | `str.replace` with one character: every occurrence is replaced, every other character stays where it was |
| Strings.ReplaceAllInverse | inline_importer.py:63 | replacing `.` by `/` loses nothing when the text had no `/` |
| Strings.IsSubstring | inline_importer/__main__.py:19 | definition without a contract of its own: Python's `in` between two strings, true when the first is a contiguous slice of the second; `Cli.SubstringsOfNone` states which strings pass against `none` |
| Strings.Lower | inline_importer/__main__.py:11 | `lower()` keeps the length and lower-cases each letter in place |
| Strings.LowerIdempotent | inline_importer/__main__.py:11 | lower-casing twice is lower-casing once |
| Importer.Origin | inline_importer.py:59-65 | definition without a contract of its own: `.__init__` appended for a package, every `.` turned into `/`, `.py` appended; its shape is stated by `OriginShape`, `OriginEndsInPy` and `OriginRoundTrip` |
| Importer.OriginShape | inline_importer.py:59-65 | the origin is the name with every `.` as `/`, then `/__init__.py` for a package and `.py` otherwise |
| Importer.OriginEndsInPy | inline_importer.py:63-65 | every origin ends in `.py`, and that is its only `.` |
| Importer.OriginRoundTrip | inline_importer.py:60-63 | for a name without `/`: dropping the suffix and turning `/` back into `.` recovers the name |
| Importer.OriginExamples | inline_importer.py:59-65 | `a.b.c` gives `a/b/c.py`, or `a/b/c/__init__.py` as a package; package `pkg` gives `pkg/__init__.py` |
| Importer.FilenameOf | inline_importer.py:56-65 | raises ImportError exactly when the name is not in the table; otherwise the origin for the stored package flag |
| Importer.PackageFlagOf | inline_importer.py:70-73 | raises exactly when the name is absent; otherwise the stored flag |
| Importer.SourceOf | inline_importer.py:77-80 | raises exactly when the name is absent; otherwise the stored source, unchanged |
| Importer.SpecFor | inline_importer.py:17-23 | None exactly for absent names. A spec carries the name, `has_location`, the origin `get_filename` gives and the flag `is_package` gives |
| Importer.CodeFor | inline_importer.py:89-97 | raises for absent names; None exactly when the stored source is None; otherwise the stored source compiled under its origin path (the path-less fallback is never taken) |
| Importer.CreateModule | inline_importer.py:37-39 | always None, whatever the spec |
| Importer.InlineImporter.constructor | inline_importer.py:8 | the table as given, both memos empty, the memo invariant holding |
| Importer.InlineImporter.GetFilename | inline_importer.py:49-65 | the uncached answer, memoised or not. A hit leaves the memo unchanged; a success is memoised; a raise is not |
| Importer.InlineImporter.IsPackage | inline_importer.py:67-73 | the uncached answer. A hit leaves the memo unchanged; only a success is memoised |
| Importer.InlineImporter.GetSource | inline_importer.py:75-80 | equals `SourceOf`: raises exactly when the name is absent, otherwise the stored source; no memo is touched |
| Importer.InlineImporter.FindSpec | inline_importer.py:10-23 | equals `SpecFor`. For a name in the table both memos gain its entry; for any other name they are unchanged |
| Importer.InlineImporter.GetCode | inline_importer.py:82-97 | equals `CodeFor`; the filename memo changes only when code is produced |
| Importer.InlineImporter.ExecModule | inline_importer.py:41-47 | raises ImportError, namespace untouched, exactly when `get_code` raises or yields None; otherwise the namespace is the code run against the old namespace. The filename memo gains the module's origin only when code is produced; beyond that entry, the model adds none, because `run` cannot import (see Left out) |
| Inliner.BasenameSpec | inline_importer/inliner.py:50 | the basename is the `/`-free tail of the path, with a `/` before it unless it is the whole path |
| Inliner.ExtractModuleName | inline_importer/inliner.py:47-55 | an error names the file; a returned name is non-empty and contains no `/` |
| Inliner.ExtractModuleNameSpec | inline_importer/inliner.py:50-55 | succeeds exactly when the basename has a `.` after its first character; the name is the text before the last `.` |
| Inliner.ExtractModuleNameNested | inline_importer/inliner.py:50 | `nested/deep/module.py` gives `module` |
| Inliner.ExtractModuleNameShallow | inline_importer/inliner.py:50 | `shallow.py` gives `shallow` |
| Inliner.ExtractModuleNameNestedNoDot | inline_importer/inliner.py:52-53 | `nested/deep/module` raises |
| Inliner.ExtractModuleNameNoDot | inline_importer/inliner.py:52-53 | `shallow` and the empty string raise |
| Inliner.BuildFrom | inline_importer/inliner.py:63-69 | definition without a contract of its own: the loop from a partial dictionary, stopping at the first unnameable file, repeated name or unreadable file; `BuildFromSpec` states its outcome |
| Inliner.Inlined | inline_importer/inliner.py:58-71 | definition without a contract of its own: `build_inlined` as the loop from an empty dictionary; `InlinedSucceedsIff` and `InlinedContents` state its outcome |
| Inliner.BuildFromSpec | inline_importer/inliner.py:63-69 | from a dictionary with distinct keys, the loop succeeds exactly when every file is named and readable and no name repeats an earlier key; existing entries are kept, and the expected ones are appended in file order |
| Inliner.InlinedSucceedsIff | inline_importer/inliner.py:58-71 | `build_inlined` succeeds exactly for named, readable files with pairwise distinct module names |
| Inliner.InlinedContents | inline_importer/inliner.py:61-71 | on success the keys are the extracted names, distinct, in file order; each entry is that file's contents and is not a package |
| Inliner.UnnamedFileAborts | inline_importer/inliner.py:64 | one unnameable file fails the whole build, with no partial result |
| Inliner.DuplicateNameAborts | inline_importer/inliner.py:66-67 | two files with the same module name fail the build |
| Inliner.BuildInlined | inline_importer/inliner.py:58-71 | the in-place loop returns exactly `Inlined(files)`; an empty list gives an empty dictionary |
| Builder.LinesAppend | inline_importer/builder.py:42-45 | the table text of two dictionaries joined is the two table texts joined |
| Builder.TableLine | inline_importer/builder.py:45 | definition without a contract of its own: one table entry, `repr` of the name, the package flag and the source, indented and ending in `),` and a newline; `LinesAt` places one per module |
| Builder.LinesAt | inline_importer/builder.py:42-45 | exactly one line per module, in iteration order: module k's line sits between the lines of the modules before it and those after it |
| Builder.Artifact | inline_importer/builder.py:29-51 | definition without a contract of its own: the pieces `build_file` writes, in order; `BuildFile` is proved to return it and `ArtifactBegins`, `NamespaceLineIff`, `ArtifactEnds` and `EmptyArtifact` state its layout |
| Builder.WriteEntries | inline_importer/builder.py:42-45 | the loop appends exactly the table lines to the buffer |
| Builder.BuildFile | inline_importer/builder.py:7-51 | the buffer's final contents are `Artifact` of the arguments, so equal inputs give equal output |
| Builder.ArtifactBegins | inline_importer/builder.py:30-37 | starts with the shebang and a blank line if the shebang is non-empty, otherwise with the header. The importer source follows verbatim, then a blank line, then the version line |
| Builder.NamespaceLineIff | inline_importer/builder.py:37-40 | after the version line: the namespace-packages line with the given flag when there is one, otherwise the table opening |
| Builder.ArtifactEnds | inline_importer/builder.py:47-51 | ends with the closing brace, the `meta_path` line and the `# Entrypoint` comment, then the entrypoint verbatim |
| Builder.EmptyArtifact | inline_importer/builder.py:29-51 | with no modules, shebang, flag or entrypoint, the script is exactly the fixed frame around the importer source |
| Builder.WriteFile | inline_importer/builder.py:69-71 | returns what the sink's `write` returns for the built text |
| Builder.WriteFileTo | inline_importer/builder.py:69-71 | with a `StringIO` sink, appends the built text and returns its length |
| Cli.TernaryType | inline_importer/__main__.py:8-22 | a refusal is an ArgumentTypeError naming the original value |
| Cli.SubstringsOfNone | inline_importer/__main__.py:19 | the substring test against `"none"` accepts exactly ten strings |
| Cli.TernaryTypeOutcomes | inline_importer/__main__.py:11-22 | True exactly for `true`, `yes`, `on`, `1`; False exactly for `false`, `no`, `off`; None exactly for the eight slices of `none` not taken earlier, the empty word included; every other word is refused (all after lower-casing) |
| Cli.TernaryTypeIgnoresCase | inline_importer/__main__.py:11 | a word and its lower-case form convert alike |
| Cli.TrueExample | inline_importer/__main__.py:13-14 | `TRUE` is True |
| Cli.FalseExample | inline_importer/__main__.py:16-17 | `Off` is False |
| Cli.NoneExample | inline_importer/__main__.py:19-20 | `None` is None |
| Cli.RefusedExample | inline_importer/__main__.py:22 | `2` is refused |
| Cli.ZeroRejected | inline_importer/__main__.py:16 | `0` is refused, not False |
| Cli.FragmentsAccepted | inline_importer/__main__.py:19-20 | the empty word, `n` and `one` are taken as None |
| Cli.TernaryTypeIntended | inline_importer/__main__.py:8-22 | corrected converter: `0` is False and only `none` is None, with True and refusals unchanged |
| Cli.TernaryTypeDiffers | inline_importer/__main__.py:16-20 | the written and corrected converters differ on exactly `0`, the empty word, `n`, `o`, `e`, `ne`, `non` and `one` |

## Left out

- File reading (`get_file_source`, inline_importer/inliner.py:11-18) is a `disk` map
  from file name to contents. A missing file stands for the `OSError`; no other read
  failure is modelled.
- `get_module_source` (inline_importer/inliner.py:21-44) and its import-system
  introspection are not modelled. `build_file` receives the importer's source as a
  parameter.
- The package version is a parameter of `build_file`, not the installed constant.
- Python's `{!r}` is the uninterpreted parameter `repr`. Nothing claims that the
  generated script parses as Python.
- The file-name branch of `write_file` (inline_importer/builder.py:73-74) opens a file
  on disk and is not modelled. The sink branch is `WriteFile` (any `write`) and
  `WriteFileTo` (a `StringIO`).
- `source_to_code` and `exec` belong to the host:
  - a `Code` value records the source and the path it was compiled under;
  - `exec` is the parameter `run` acting on the module's namespace;
  - `_call_with_frames_removed` only affects tracebacks.
- `find_spec` ignores its `path` and `target` arguments, as the source does. The
  spec's loader field, which is always the importer class, is not recorded.
- The importer table is a constant of the class instance. Reassigning the class
  attribute after lookups would leave stale `lru_cache` entries; the model does not
  cover that. Thread safety of the caches is also out of scope.
- The builder writes `InlineImporter.inlined_modules` and
  `InlineImporter.namespace_packages`, but the importer reads `_inlined_modules` and
  never reads `namespace_packages`. The two halves are modelled separately, and no
  end-to-end round trip is claimed.
- `namespace_packages` is `Option<bool>`. The source applies `bool()` to any value;
  only the None test and the resulting flag are modelled.
- `build_file` accepts any mapping of module definitions. The model uses the
  insertion-ordered `Registry` that `build_inlined` produces, and it uses
  `ModuleDefinition` for the entries instead of arbitrary objects.
- Inliner.Basename: paths follow POSIX `os.path` (`posixpath`), splitting only at
  `/`. The Windows `ntpath` behaviour, which also splits at `\` and after a drive
  prefix such as `C:`, is not modelled; there `pkg\mod.py` names the module `mod`,
  while the model refuses it.
- Importer.InlineImporter.ExecModule: `run` is a pure function of the code and the
  namespace, so it cannot call back into the importer. In the program, a module body
  that imports another inlined module (`from . import mod` in a package) re-enters
  `find_spec`, `get_filename` and `is_package`, and adds entries to both `lru_cache`
  memos. Those nested imports and their memo entries are not modelled; the memo
  clause covers only the entry `exec_module`'s own `get_code` call adds.
- Strings.Lower: only ASCII letters are lower-cased. For `_ternary_type` this gives
  the same outcome as Python's Unicode `lower()`. The only non-ASCII characters that
  lower to ASCII letters are U+0130 (to `i` plus a combining mark) and U+212A (to `k`),
  and no accepted word contains `i` or `k`.
- Installing the importer on `sys.meta_path` at script start-up is not modelled.
- These parts are not modelled:
  - argument parsing and `main` in inline_importer/__main__.py;
  - `extract_package_name` and `Repository`, which the tests call but the inliner
    module does not define;
  - the generated sample script `aio.py`;
  - setup.py;
  - the package `__init__`.

## Findings

| source | as written | input that shows it | evidently intended | confidence | as-written member | corrected member |
|---|---|---|---|---|---|---|
| inline_importer/__main__.py:16 | `val in ("false", "no", "off", 0)` compares a string with the integer `0`, so it never matches on `0` | `"0"` is refused with ArgumentTypeError | `"0"` means False, as `"1"` means True | high, not executed | Cli.ZeroRejected | Cli.TernaryTypeIntended |
| inline_importer/__main__.py:19 | `val in ("none")` tests a parenthesised string, not a one-element tuple, so any substring of `none` passes | `""`, `"n"` and `"one"` become None | only `"none"` means None | high, not executed | Cli.FragmentsAccepted | Cli.TernaryTypeIntended |

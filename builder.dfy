/**
  The build-time writer: `build_file` emits the self-contained script piece by
  piece into a `StringIO` buffer, and `write_file` hands that text to a sink.
*/
module Builder {
  import opened Wrappers
  import opened Inliner

  /** The values the script formats with `{!r}`. */
  datatype PyLiteral = PyStr(s: string) | PyBool(b: bool)

  /** Python's `repr`, left abstract: every `{!r}` goes through this parameter. */
  type Repr = PyLiteral -> string

  const Header := "# InlineImporter\n"
  const TableOpen := "InlineImporter.inlined_modules = {\n"
  const TableClose := "}\n"
  const Install := "_sys.meta_path.insert(2, InlineImporter)\n\n# Entrypoint\n"

  /** An in-memory text buffer; `write` appends and returns the number of characters written. */
  class StringIO {
    var value: string

    constructor ()
      ensures value == ""
    {
      value := "";
    }

    method Write(s: string) returns (n: nat)
      modifies this
      ensures value == old(value) + s
      ensures n == |s|
    {
      value := value + s;
      n := |s|;
    }
  }

  /** Python truthiness of the `shebang` argument: neither None nor the empty string. */
  predicate HasShebang(shebang: Option<string>)
  {
    shebang.Some? && shebang.value != ""
  }

  function ShebangPart(shebang: Option<string>): string
  {
    if HasShebang(shebang) then shebang.value + "\n\n" else ""
  }

  function VersionLine(version: string, repr: Repr): string
  {
    "InlineImporter.version = " + repr(PyStr(version)) + "\n"
  }

  function NamespaceLine(namespacePackages: Option<bool>, repr: Repr): string
  {
    if namespacePackages.None? then ""
    else "InlineImporter.namespace_packages = " + repr(PyBool(namespacePackages.value)) + "\n"
  }

  type Entry = (string, ModuleDefinition)

  /** One entry of the emitted table, `name: (is_package, source),`. */
  function TableLine(entry: Entry, repr: Repr): string
  {
    "    " + repr(PyStr(entry.0)) + ": (" + repr(PyBool(entry.1.isPackage)) + ", " + repr(PyStr(entry.1.source)) + "),\n"
  }

  function EntryLine(repr: Repr): Entry -> string
  {
    entry => TableLine(entry, repr)
  }

  /** One line per entry, in the dictionary's iteration order. */
  function Lines(entries: Registry, line: Entry -> string): string
  {
    if entries == [] then ""
    else Lines(entries[..|entries| - 1], line) + line(entries[|entries| - 1])
  }

  /** The text `build_file` returns: its pieces in the order they are written. */
  function Artifact(modules: Registry, entrypoint: string, importerSource: string, version: string,
                    shebang: Option<string>, namespacePackages: Option<bool>, repr: Repr): string
  {
    ShebangPart(shebang) + Header + importerSource + "\n\n" + VersionLine(version, repr)
      + NamespaceLine(namespacePackages, repr) + TableOpen + Lines(modules, EntryLine(repr)) + TableClose
      + Install + entrypoint
  }

  /** How a concatenation of eleven pieces begins; the script is such a concatenation. */
  lemma {:induction false} Concat11Begins(a: string, b: string, c: string, d: string, e: string, f: string,
                                          g: string, h: string, i: string, j: string, k: string)
    ensures var r := a + b + c + d + e + f + g + h + i + j + k;
      && a + b <= r
      && a + b + c + d + e <= r
      && a + b + c + d + e + f + g <= r
  {
    var r := a + b + c + d + e + f + g + h + i + j + k;
    assert r == (a + b) + (c + d + e) + (f + g) + (h + i + j + k);
  }

  /** How a concatenation of eleven pieces ends. */
  lemma {:induction false} Concat11Ends(a: string, b: string, c: string, d: string, e: string, f: string,
                                        g: string, h: string, i: string, j: string, k: string)
    ensures var r := a + b + c + d + e + f + g + h + i + j + k;
      && |i + j + k| <= |r| && r[|r| - |i + j + k|..] == i + j + k
      && r[|r| - |k|..] == k
  {
    var r := a + b + c + d + e + f + g + h + i + j + k;
    assert r == (a + b + c + d + e + f + g + h) + (i + j + k);
  }

  /** Splitting the dictionary splits its table text. */
  lemma {:induction false} LinesAppend(a: Registry, b: Registry, line: Entry -> string)
    ensures Lines(a + b, line) == Lines(a, line) + Lines(b, line)
    decreases |b|
  {
    if b == [] {
      assert a + b == a;
    } else {
      var b' := b[..|b| - 1];
      assert (a + b)[..|a + b| - 1] == a + b';
      LinesAppend(a, b', line);
    }
  }

  /**
    Exactly one table line per module, in iteration order: the k-th module's line
    sits between the lines of the modules before it and those after it.
  */
  lemma {:induction false} LinesAt(entries: Registry, k: nat, line: Entry -> string)
    requires k < |entries|
    ensures Lines(entries, line)
         == Lines(entries[..k], line) + line(entries[k]) + Lines(entries[k + 1..], line)
  {
    var before, here, after := entries[..k], [entries[k]], entries[k + 1..];
    assert entries == before + (here + after);
    LinesAppend(before, here + after, line);
    LinesAppend(here, after, line);
    assert here[..0] == [];
  }

  /**
    The script opens with the shebang and a blank line when a shebang is given
    (an empty one counts as none), then the header comment, then the importer's
    source verbatim followed by a blank line, then the version assignment.
  */
  lemma {:induction false} ArtifactBegins(modules: Registry, entrypoint: string, importerSource: string, version: string,
                       shebang: Option<string>, namespacePackages: Option<bool>, repr: Repr)
    ensures var r := Artifact(modules, entrypoint, importerSource, version, shebang, namespacePackages, repr);
      && (HasShebang(shebang) ==> shebang.value + "\n\n" + Header <= r)
      && (!HasShebang(shebang) ==> Header <= r)
      && ShebangPart(shebang) + Header + importerSource + "\n\n" + VersionLine(version, repr) <= r
  {
    Concat11Begins(ShebangPart(shebang), Header, importerSource, "\n\n", VersionLine(version, repr),
      NamespaceLine(namespacePackages, repr), TableOpen, Lines(modules, EntryLine(repr)), TableClose, Install, entrypoint);
  }

  /**
    After the version line comes the namespace-package assignment, with the flag
    as given, exactly when the flag is not None; otherwise the table opens at once.
  */
  lemma {:induction false} NamespaceLineIff(modules: Registry, entrypoint: string, importerSource: string, version: string,
                         shebang: Option<string>, namespacePackages: Option<bool>, repr: Repr)
    ensures var r := Artifact(modules, entrypoint, importerSource, version, shebang, namespacePackages, repr);
      var opening := ShebangPart(shebang) + Header + importerSource + "\n\n" + VersionLine(version, repr);
      && (namespacePackages.Some? ==>
            opening + ("InlineImporter.namespace_packages = " + repr(PyBool(namespacePackages.value)) + "\n")
              + TableOpen <= r)
      && (namespacePackages.None? ==> opening + TableOpen <= r)
  {
    Concat11Begins(ShebangPart(shebang), Header, importerSource, "\n\n", VersionLine(version, repr),
      NamespaceLine(namespacePackages, repr), TableOpen, Lines(modules, EntryLine(repr)), TableClose, Install, entrypoint);
    if namespacePackages.None? {
      assert ShebangPart(shebang) + Header + importerSource + "\n\n" + VersionLine(version, repr)
        + NamespaceLine(namespacePackages, repr)
        == ShebangPart(shebang) + Header + importerSource + "\n\n" + VersionLine(version, repr);
    }
  }

  /**
    The script ends with the `meta_path` insertion, the entrypoint comment and
    the entrypoint verbatim (which may be empty), and just before them the
    table's closing brace.
  */
  lemma {:induction false} ArtifactEnds(modules: Registry, entrypoint: string, importerSource: string, version: string,
                     shebang: Option<string>, namespacePackages: Option<bool>, repr: Repr)
    ensures var r := Artifact(modules, entrypoint, importerSource, version, shebang, namespacePackages, repr);
      var tail := TableClose + Install + entrypoint;
      && |tail| <= |r|
      && r[|r| - |tail|..] == tail
      && r[|r| - |entrypoint|..] == entrypoint
  {
    Concat11Ends(ShebangPart(shebang), Header, importerSource, "\n\n", VersionLine(version, repr),
      NamespaceLine(namespacePackages, repr), TableOpen, Lines(modules, EntryLine(repr)), TableClose, Install, entrypoint);
  }

  /** With no modules, no shebang, no flag and an empty entrypoint, the script is the fixed frame. */
  lemma {:induction false} EmptyArtifact(importerSource: string, version: string, repr: Repr)
    ensures Artifact([], "", importerSource, version, None, None, repr)
         == Header + importerSource + "\n\n" + VersionLine(version, repr) + TableOpen + TableClose + Install
  {
  }

  /** The loop of `build_file`: one table line per module, in iteration order. */
  method WriteEntries(f: StringIO, modules: Registry, repr: Repr)
    modifies f
    ensures f.value == old(f.value) + Lines(modules, EntryLine(repr))
  {
    ghost var pre := f.value;
    var i := 0;
    while i < |modules|
      invariant 0 <= i <= |modules|
      invariant f.value == pre + Lines(modules[..i], EntryLine(repr))
    {
      var written := f.Write(TableLine(modules[i], repr));
      assert modules[..i + 1][..i] == modules[..i];
      i := i + 1;
    }
    assert modules[..i] == modules;
  }

  /**
    `build_file`: the pieces written one after another into a `StringIO`, one
    table line per module in the loop; the text is a function of the arguments.
  */
  method BuildFile(modules: Registry, entrypoint: string, importerSource: string, version: string,
                   shebang: Option<string>, namespacePackages: Option<bool>, repr: Repr)
    returns (r: string)
    ensures r == Artifact(modules, entrypoint, importerSource, version, shebang, namespacePackages, repr)
  {
    var f := new StringIO();
    var written: nat;
    if HasShebang(shebang) {
      written := f.Write(shebang.value);
      written := f.Write("\n\n");
    }
    ghost var lead := f.value;
    assert lead == ShebangPart(shebang);
    written := f.Write(Header);
    written := f.Write(importerSource);
    written := f.Write("\n\n");
    written := f.Write(VersionLine(version, repr));
    ghost var opening := f.value;
    if namespacePackages.Some? {
      written := f.Write(NamespaceLine(namespacePackages, repr));
    }
    assert f.value == opening + NamespaceLine(namespacePackages, repr);
    ghost var settings := f.value;
    written := f.Write(TableOpen);
    WriteEntries(f, modules, repr);
    written := f.Write(TableClose);
    written := f.Write(Install);
    written := f.Write(entrypoint);
    assert f.value == settings + TableOpen + Lines(modules, EntryLine(repr)) + TableClose + Install + entrypoint;
    r := f.value;
  }

  /**
    `write_file` on an object with a `write` method: the result is what that
    `write` returns for the built text.
  */
  method WriteFile(write: string -> int, modules: Registry, entrypoint: string, importerSource: string,
                   version: string, shebang: Option<string>, namespacePackages: Option<bool>, repr: Repr)
    returns (n: int)
    ensures n == write(Artifact(modules, entrypoint, importerSource, version, shebang, namespacePackages, repr))
  {
    var text := BuildFile(modules, entrypoint, importerSource, version, shebang, namespacePackages, repr);
    n := write(text);
  }

  /**
    `write_file` on a `StringIO` sink: the built text is appended to the buffer
    and the count returned is its length.
  */
  method WriteFileTo(sink: StringIO, modules: Registry, entrypoint: string, importerSource: string,
                     version: string, shebang: Option<string>, namespacePackages: Option<bool>, repr: Repr)
    returns (n: nat)
    modifies sink
    ensures sink.value == old(sink.value) + Artifact(modules, entrypoint, importerSource, version, shebang, namespacePackages, repr)
    ensures n == |Artifact(modules, entrypoint, importerSource, version, shebang, namespacePackages, repr)|
  {
    var text := BuildFile(modules, entrypoint, importerSource, version, shebang, namespacePackages, repr);
    n := sink.Write(text);
  }
}

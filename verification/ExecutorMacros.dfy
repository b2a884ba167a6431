/** The macros the executor defines at start-up (DefineExecutorMacros of src/Executor/main.c). */
module ExecutorMacros {
  import opened Wrappers
  import opened CStrings
  import opened Macros
  import opened Expander
  import opened Policy
  import opened PolicyDecisions

  // The names of the macros, in the order in which they are defined.
  const NAMES: seq<string> := [
    "internalBinDir", "cimservermain", "cimprovagt", "cimprovagt32", "cimshutdown", "cimservera",
    "cimservermainPath", "cimprovagtPath", "cimprovagt32Path", "cimshutdownPath", "cimserveraPath",
    "shutdownTimeout", "currentConfigFilePath", "plannedConfigFilePath", "passwordFilePath",
    "sslKeyFilePath", "sslTrustStore", "crlStore", "localAuthDir"]

  /** What the environment and the configuration say: a path that cannot be resolved is None. */
  datatype Settings = Settings(
    internalBinDir: Option<CString>,
    shutdownTimeout: CString,
    current: Option<CString>, planned: Option<CString>, password: Option<CString>,
    key: Option<CString>, trust: Option<CString>, crl: Option<CString>,
    localAuthDir: CString)

  predicate Resolved(s: Settings) {
    && s.internalBinDir.Some? && s.current.Some? && s.planned.Some? && s.password.Some?
    && s.key.Some? && s.trust.Some? && s.crl.Some?
  }

  function PathsOf(s: Settings): Paths
    requires Resolved(s)
  {
    Paths(s.current.value, s.planned.value, s.password.value, s.key.value, s.trust.value, s.crl.value, s.localAuthDir)
  }

  /** The path of a program of the internal bin directory, cut to what a buffer holds. */
  function Program(dir: CString, name: CString): CString {
    Cut(dir + "/" + name, MAX_LENGTH)
  }

  /** The first definitions made, with the given values. */
  function DefinitionsUpTo(values: seq<CString>): Definitions
    requires |values| <= |NAMES|
  {
    seq(|values|, i requires 0 <= i < |values| => Definition(NAMES[i], values[i]))
  }

  lemma NamesDiffer(i: nat, j: nat)
    requires i < j < |NAMES|
    ensures NAMES[i] != NAMES[j]
  {
    assert |NAMES| == 19;
  }

  lemma UpToUnique(values: seq<CString>)
    requires |values| <= |NAMES|
    ensures UniqueNames(DefinitionsUpTo(values))
  {
    forall i, j | 0 <= i < j < |values| ensures NAMES[i] != NAMES[j] {
      NamesDiffer(i, j);
    }
  }

  lemma LookupUpTo(values: seq<CString>, i: nat)
    requires i < |values| <= |NAMES|
    ensures Lookup(DefinitionsUpTo(values), NAMES[i]) == Some(values[i])
  {
    UpToUnique(values);
    LookupFinds(DefinitionsUpTo(values), NAMES[i]);
    assert DefinitionsUpTo(values)[i].name == NAMES[i];
  }

  method DefineNext(table: MacroTable, ghost values: seq<CString>, name: string, value: CString)
    requires table.Valid() && |values| < |NAMES| && name == NAMES[|values|]
    requires table.Contents() == DefinitionsUpTo(values)
    modifies table, table.owned
    ensures table.Valid() && fresh(table.owned - old(table.owned))
    ensures table.Contents() == DefinitionsUpTo(values + [value])
  {
    ghost var defs := table.Contents();
    LookupFinds(defs, name);
    forall i | 0 <= i < |defs| ensures defs[i].name != name {
      NamesDiffer(i, |values|);
    }
    var _ := table.DefineMacro(name, value, true);
    assert table.Contents() == DefinitionsUpTo(values + [value]);
  }

  /** The reference to a program of the internal bin directory. */
  function ProgramPattern(name: string): string {
    "${internalBinDir}/${" + name + "}"
  }

  lemma PatternIs(name: string)
    ensures ProgramPattern(name) == "${" + "internalBinDir" + "}" + "/" + "${" + name + "}"
  {
    assert "${" + "internalBinDir" + "}" + "/" + "${" == "${internalBinDir}/${";
  }

  lemma PatternPlain(name: string)
    requires NUL !in name && |name| <= 14
    ensures NUL !in ProgramPattern(name) && |ProgramPattern(name)| <= MAX_LENGTH
  {
    assert NUL !in "${internalBinDir}/${";
  }

  lemma FirstName()
    ensures NAMES[0] == "internalBinDir"
  {}

  lemma PatternExpands(values: seq<CString>, i: nat)
    requires 6 <= |values| <= |NAMES| && 1 <= i <= 5
    ensures Expanded(DefinitionsUpTo(values), ProgramPattern(NAMES[i])) == Some(Program(values[0], values[i]))
  {
    PatternIs(NAMES[i]);
    FirstName();
    ProgramExpands(values, i, ProgramPattern(NAMES[i]));
  }

  /** Expand the path of a program from the macros defined so far. */
  method ProgramPath(table: MacroTable, ghost values: seq<CString>, i: nat) returns (path: CString)
    requires table.Valid() && 6 <= |values| < |NAMES| && 1 <= i <= 5
    requires table.Contents() == DefinitionsUpTo(values)
    ensures path == Program(values[0], values[i])
  {
    NamesPlain(i);
    PatternPlain(NAMES[i]);
    PatternExpands(values, i);
    var pattern: CString := ProgramPattern(NAMES[i]);
    var buffer := new char[BUFFER_SIZE];
    var status := ExpandMacros(table, pattern, buffer);
    path := Text(buffer[..]);
  }

  method DefineProgram(table: MacroTable, ghost values: seq<CString>, i: nat, name: string)
    requires table.Valid() && 6 <= |values| < |NAMES| && name == NAMES[|values|] && 1 <= i <= 5
    requires table.Contents() == DefinitionsUpTo(values)
    modifies table, table.owned
    ensures table.Valid() && fresh(table.owned - old(table.owned))
    ensures table.Contents() == DefinitionsUpTo(values + [Program(values[0], values[i])])
  {
    var path := ProgramPath(table, values, i);
    DefineNext(table, values, name, path);
  }

  lemma ProgramExpands(values: seq<CString>, i: nat, pattern: string)
    requires 6 <= |values| <= |NAMES| && 1 <= i <= 5
    requires pattern == "${" + NAMES[0] + "}" + "/" + "${" + NAMES[i] + "}"
    ensures |pattern| <= MAX_LENGTH
    ensures Expanded(DefinitionsUpTo(values), pattern) == Some(Program(values[0], values[i]))
  {
    LookupUpTo(values, 0);
    LookupUpTo(values, i);
    NamesPlain(0);
    NamesPlain(i);
    TwoReferencesExpand(DefinitionsUpTo(values), NAMES[0], values[0], NAMES[i], values[i], pattern);
  }

  lemma NamesPlain(i: nat)
    requires i <= 5
    ensures '}' !in NAMES[i] && NUL !in NAMES[i] && |NAMES[i]| <= 14
  {
    assert |NAMES| == 19;
  }

  lemma TwoReferencesExpand(defs: Definitions, m: string, v: CString, n: string, w: CString, pattern: string)
    requires '}' !in m && '}' !in n && |m| + |n| <= 28
    requires Lookup(defs, m) == Some(v) && Lookup(defs, n) == Some(w)
    requires pattern == "${" + m + "}" + "/" + "${" + n + "}"
    ensures Expanded(defs, pattern) == Some(Program(v, w))
  {
    PathPieces(m, n);
    PathValues(defs, m, v, n, w);
    SpelledExpands(defs, pattern, [Reference(m), Plain('/'), Reference(n)]);
  }

  lemma PathPieces(m: string, n: string)
    requires '}' !in m && '}' !in n
    ensures Canonical([Reference(m), Plain('/'), Reference(n)])
    ensures Render([Reference(m), Plain('/'), Reference(n)]) == "${" + m + "}" + "/" + "${" + n + "}"
  {
    var last, middle := [Reference(n)], [Plain('/'), Reference(n)];
    ConsMeans([], Reference(n), []);
    ConsMeans([], Plain('/'), last);
    ConsMeans([], Reference(m), middle);
    assert last == [Reference(n)] + [] && middle == [Plain('/')] + last;
    assert [Reference(m), Plain('/'), Reference(n)] == [Reference(m)] + middle;
    JoinReferences("${" + m + "}", "/", "${", n, "}");
  }

  lemma JoinReferences(first: string, slash: string, open: string, name: string, close: string)
    ensures first + (slash + ((open + name + close) + "")) == first + slash + open + name + close
  {}

  lemma PathValues(defs: Definitions, m: string, v: CString, n: string, w: CString)
    requires Lookup(defs, m) == Some(v) && Lookup(defs, n) == Some(w)
    ensures Values(defs, [Reference(m), Plain('/'), Reference(n)]) == Some(v + "/" + w)
  {
    var rest := [Plain('/'), Reference(n)];
    SlashValue(defs, n, w);
    ConsMeans(defs, Reference(m), rest);
    assert [Reference(m), Plain('/'), Reference(n)] == [Reference(m)] + rest;
    SlashBetween(v, w);
  }

  lemma SlashValue(defs: Definitions, n: string, w: CString)
    requires Lookup(defs, n) == Some(w)
    ensures Values(defs, [Plain('/'), Reference(n)]) == Some("/" + w)
  {
    ConsMeans(defs, Reference(n), []);
    ConsMeans(defs, Plain('/'), [Reference(n)]);
    assert [Reference(n)] == [Reference(n)] + [];
    assert [Plain('/'), Reference(n)] == [Plain('/')] + [Reference(n)];
    assert w + "" == w;
  }

  lemma SlashBetween(v: CString, w: CString)
    ensures v + ("/" + w) == v + "/" + w
  {}

  lemma ConsMeans(defs: Definitions, piece: Piece, pieces: seq<Piece>)
    ensures Render([piece] + pieces) == Spell(piece) + Render(pieces)
    ensures Values(defs, [piece] + pieces) == Both(Value(defs, piece), Values(defs, pieces))
  {
    assert ([piece] + pieces)[1..] == pieces;
  }

  /** The bin directory and the names of the programs in it. */
  method DefineNames(table: MacroTable, v: seq<CString>)
    requires table.Valid() && table.Contents() == [] && |v| == 6
    modifies table, table.owned
    ensures table.Valid() && fresh(table.owned - old(table.owned))
    ensures table.Contents() == DefinitionsUpTo(v)
  {
    DefineNext(table, v[..0], NAMES[0], v[0]);
    Grow(v, 0);
    DefineNext(table, v[..1], NAMES[1], v[1]);
    Grow(v, 1);
    DefineNext(table, v[..2], NAMES[2], v[2]);
    Grow(v, 2);
    DefineNext(table, v[..3], NAMES[3], v[3]);
    Grow(v, 3);
    DefineNext(table, v[..4], NAMES[4], v[4]);
    Grow(v, 4);
    DefineNext(table, v[..5], NAMES[5], v[5]);
    Grow(v, 5);
    assert v[..6] == v;
  }

  /** The names, then the paths of the programs. */
  function WithPaths(v: seq<CString>): seq<CString>
    requires |v| == 6
  {
    v + [Program(v[0], v[1]), Program(v[0], v[2]), Program(v[0], v[3]), Program(v[0], v[4]), Program(v[0], v[5])]
  }

  method DefinePaths(table: MacroTable, ghost v: seq<CString>)
    requires table.Valid() && |v| == 6 && table.Contents() == DefinitionsUpTo(v)
    modifies table, table.owned
    ensures table.Valid() && fresh(table.owned - old(table.owned))
    ensures table.Contents() == DefinitionsUpTo(WithPaths(v))
  {
    ghost var w := WithPaths(v);
    assert w[..6] == v;
    DefineProgram(table, w[..6], 1, NAMES[6]);
    Grow(w, 6);
    DefineProgram(table, w[..7], 2, NAMES[7]);
    Grow(w, 7);
    DefineProgram(table, w[..8], 3, NAMES[8]);
    Grow(w, 8);
    DefineAgents(table, w);
  }

  /** The last two of them, the provider agents. */
  method DefineAgents(table: MacroTable, ghost w: seq<CString>)
    requires table.Valid() && |w| == 11 && table.Contents() == DefinitionsUpTo(w[..9])
    requires w == WithPaths(w[..6])
    modifies table, table.owned
    ensures table.Valid() && fresh(table.owned - old(table.owned))
    ensures table.Contents() == DefinitionsUpTo(w)
  {
    DefineProgram(table, w[..9], 4, NAMES[9]);
    Grow(w, 9);
    DefineProgram(table, w[..10], 5, NAMES[10]);
    Grow(w, 10);
    assert w[..11] == w;
  }

  function FilesOf(s: Settings): seq<CString>
    requires Resolved(s)
  {
    [s.shutdownTimeout, s.current.value, s.planned.value, s.password.value, s.key.value,
     s.trust.value, s.crl.value, s.localAuthDir]
  }

  /** The shutdown timeout and the two configuration files; a path that cannot be resolved is
      fatal. */
  method DefineConfiguration(table: MacroTable, s: Settings, ghost w: seq<CString>) returns (ok: bool)
    requires table.Valid() && |w| == 19 && table.Contents() == DefinitionsUpTo(w[..11])
    requires w[11..] == DefinableFiles(s)
    modifies table, table.owned
    ensures table.Valid() && fresh(table.owned - old(table.owned))
    ensures ok <==> s.current.Some? && s.planned.Some?
    ensures ok ==> table.Contents() == DefinitionsUpTo(w[..14])
  {
    assert forall i | 0 <= i < 8 :: w[11 + i] == DefinableFiles(s)[i];
    DefineNext(table, w[..11], NAMES[11], s.shutdownTimeout);
    Grow(w, 11);
    if s.current.None? { return false; }
    DefineNext(table, w[..12], NAMES[12], s.current.value);
    Grow(w, 12);
    if s.planned.None? { return false; }
    DefineNext(table, w[..13], NAMES[13], s.planned.value);
    Grow(w, 13);
    return true;
  }

  /** The password file, the SSL files and the directory of the challenges. */
  method DefineFiles(table: MacroTable, s: Settings, ghost w: seq<CString>) returns (ok: bool)
    requires table.Valid() && |w| == 19 && table.Contents() == DefinitionsUpTo(w[..14])
    requires w[11..] == DefinableFiles(s)
    modifies table, table.owned
    ensures table.Valid() && fresh(table.owned - old(table.owned))
    ensures ok <==> s.password.Some? && s.key.Some? && s.trust.Some? && s.crl.Some?
    ensures ok ==> table.Contents() == DefinitionsUpTo(w)
  {
    assert forall i | 0 <= i < 8 :: w[11 + i] == DefinableFiles(s)[i];
    if s.password.None? { return false; }
    DefineNext(table, w[..14], NAMES[14], s.password.value);
    Grow(w, 14);
    if s.key.None? { return false; }
    DefineNext(table, w[..15], NAMES[15], s.key.value);
    Grow(w, 15);
    ok := DefineStores(table, s, w);
  }

  /** The directories of the trust store, of the CRL store and of the challenges. */
  method DefineStores(table: MacroTable, s: Settings, ghost w: seq<CString>) returns (ok: bool)
    requires table.Valid() && |w| == 19 && table.Contents() == DefinitionsUpTo(w[..16])
    requires w[11..] == DefinableFiles(s)
    modifies table, table.owned
    ensures table.Valid() && fresh(table.owned - old(table.owned))
    ensures ok <==> s.trust.Some? && s.crl.Some?
    ensures ok ==> table.Contents() == DefinitionsUpTo(w)
  {
    assert forall i | 0 <= i < 8 :: w[11 + i] == DefinableFiles(s)[i];
    if s.trust.None? { return false; }
    DefineNext(table, w[..16], NAMES[16], s.trust.value);
    Grow(w, 16);
    if s.crl.None? { return false; }
    DefineNext(table, w[..17], NAMES[17], s.crl.value);
    Grow(w, 17);
    DefineNext(table, w[..18], NAMES[18], s.localAuthDir);
    Grow(w, 18);
    assert w[..19] == w;
    return true;
  }

  function DefinableFiles(s: Settings): (files: seq<CString>)
    ensures |files| == 8 && (Resolved(s) ==> files == FilesOf(s))
  {
    [s.shutdownTimeout, OrEmpty(s.current), OrEmpty(s.planned), OrEmpty(s.password), OrEmpty(s.key),
     OrEmpty(s.trust), OrEmpty(s.crl), s.localAuthDir]
  }

  function OrEmpty(path: Option<CString>): CString {
    if path.Some? then path.value else ""
  }

  function ProgramNames(dir: CString): seq<CString> {
    [dir, "cimservermain", "cimprovagt", "cimprovagt32", "cimshutdown", "cimservera"]
  }

  /** All the definitions, in order. */
  function ExecutorDefinitions(s: Settings): Definitions
    requires Resolved(s)
  {
    DefinitionsUpTo(WithPaths(ProgramNames(s.internalBinDir.value)) + FilesOf(s))
  }

  method DefineExecutorMacros(table: MacroTable, s: Settings) returns (ok: bool)
    requires table.Valid() && table.Contents() == []
    modifies table, table.owned
    ensures table.Valid() && fresh(table.owned - old(table.owned))
    ensures ok <==> Resolved(s)
    ensures ok ==> table.Contents() == ExecutorDefinitions(s)
  {
    if s.internalBinDir.None? { return false; }
    var names := ProgramNames(s.internalBinDir.value);
    DefineNames(table, names);
    DefinePaths(table, names);
    ghost var w := WithPaths(names) + DefinableFiles(s);
    assert w[..11] == WithPaths(names) && w[11..] == DefinableFiles(s);
    ok := DefineConfiguration(table, s, w);
    if ok {
      ok := DefineFiles(table, s, w);
    }
  }

  /** After start-up every macro of the policy table is defined, with the value resolved for it,
      and the program paths are those of the internal bin directory. */
  lemma PolicyMacrosDefined(s: Settings)
    requires Resolved(s)
    ensures UniqueNames(ExecutorDefinitions(s))
    ensures Defines(ExecutorDefinitions(s), PathsOf(s))
    ensures Lookup(ExecutorDefinitions(s), "cimprovagtPath") == Some(Program(s.internalBinDir.value, "cimprovagt"))
    ensures Lookup(ExecutorDefinitions(s), "cimprovagt32Path") == Some(Program(s.internalBinDir.value, "cimprovagt32"))
  {
    var v := WithPaths(ProgramNames(s.internalBinDir.value)) + FilesOf(s);
    UpToUnique(v);
    LookupUpTo(v, 7);
    LookupUpTo(v, 8);
    LookupUpTo(v, 12);
    LookupUpTo(v, 13);
    LookupUpTo(v, 14);
    LookupUpTo(v, 15);
    LookupUpTo(v, 16);
    LookupUpTo(v, 17);
    LookupUpTo(v, 18);
  }

  /** A program is known by its name and by its path in the bin directory. */
  predicate DefinesProgram(defs: Definitions, dir: CString, name: CString, macro: string, path: string) {
    Lookup(defs, macro) == Some(name) && Lookup(defs, path) == Some(Program(dir, name))
  }

  /** The other macros: the bin directory, the timeout, and five programs in that directory. */
  lemma ProgramMacrosDefined(s: Settings)
    requires Resolved(s)
    ensures Lookup(ExecutorDefinitions(s), "internalBinDir") == s.internalBinDir
    ensures Lookup(ExecutorDefinitions(s), "shutdownTimeout") == Some(s.shutdownTimeout)
    ensures DefinesProgram(ExecutorDefinitions(s), s.internalBinDir.value,
                           "cimservermain", "cimservermain", "cimservermainPath")
    ensures DefinesProgram(ExecutorDefinitions(s), s.internalBinDir.value,
                           "cimprovagt", "cimprovagt", "cimprovagtPath")
    ensures DefinesProgram(ExecutorDefinitions(s), s.internalBinDir.value,
                           "cimprovagt32", "cimprovagt32", "cimprovagt32Path")
    ensures DefinesProgram(ExecutorDefinitions(s), s.internalBinDir.value,
                           "cimshutdown", "cimshutdown", "cimshutdownPath")
    ensures DefinesProgram(ExecutorDefinitions(s), s.internalBinDir.value,
                           "cimservera", "cimservera", "cimserveraPath")
  {
    var names := ProgramNames(s.internalBinDir.value);
    var v := WithPaths(names) + FilesOf(s);
    LookupUpTo(v, 0);
    LookupUpTo(v, 11);
    ProgramDefined(v, 1);
    ProgramDefined(v, 2);
    ProgramDefined(v, 3);
    ProgramDefined(v, 4);
    ProgramDefined(v, 5);
  }

  lemma ProgramDefined(v: seq<CString>, i: nat)
    requires 1 <= i <= 5 && |v| == 19 && v[..11] == WithPaths(v[..6])
    ensures DefinesProgram(DefinitionsUpTo(v), v[0], v[i], NAMES[i], NAMES[i + 5])
  {
    LookupUpTo(v, i);
    LookupUpTo(v, i + 5);
    assert v[i + 5] == v[..11][i + 5];
  }

  lemma Grow(v: seq<CString>, i: nat)
    requires i < |v|
    ensures v[..i] + [v[i]] == v[..i + 1]
  {}
}

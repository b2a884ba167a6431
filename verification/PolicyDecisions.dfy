/** What the static policy table decides once the executor's macros are defined
    (src/Executor/Policy.c, src/Executor/main.c). */
module PolicyDecisions {
  import opened Wrappers
  import opened CStrings
  import opened Macros
  import opened Expander
  import opened Glob
  import opened Messages
  import opened Policy

  // ----- Expanding the patterns of the table.

  function Plains(s: string): seq<Piece> {
    seq(|s|, i requires 0 <= i < |s| => Plain(s[i]))
  }

  lemma {:induction false} PlainsSpell(defs: Definitions, s: string)
    ensures Render(Plains(s)) == s && Values(defs, Plains(s)) == Some(s)
  {
    if s != "" {
      assert Plains(s)[1..] == Plains(s[1..]);
      PlainsSpell(defs, s[1..]);
      assert s == [s[0]] + s[1..];
    }
  }

  /** A text that spells canonical pieces of known values expands to those values, cut to what
      a buffer holds. */
  lemma SpelledExpands(defs: Definitions, s: string, pieces: seq<Piece>)
    requires |s| <= MAX_LENGTH && Canonical(pieces) && Render(pieces) == s
    ensures Expanded(defs, s) == match Values(defs, pieces)
                                 case None => None
                                 case Some(text) => Some(Cut(text, MAX_LENGTH))
  {
    assert s[0..] == s;
    ScanRendered(defs, s, 0, pieces);
  }

  lemma ReferenceExpands(defs: Definitions, name: CString, tail: CString)
    requires '}' !in name && '$' !in tail && |name| + |tail| + 3 <= MAX_LENGTH
    ensures Expanded(defs, "${" + name + "}" + tail) ==
            match Lookup(defs, name)
            case None => None
            case Some(value) => Some(Cut(value + tail, MAX_LENGTH))
  {
    PlainsSpell(defs, tail);
    var pieces := [Reference(name)] + Plains(tail);
    assert pieces[1..] == Plains(tail);
    SpelledExpands(defs, "${" + name + "}" + tail, pieces);
  }

  // ----- The macros the table refers to.

  datatype Paths = Paths(current: CString, planned: CString, password: CString, key: CString,
                         trust: CString, crl: CString, auth: CString)

  function PathOf(p: Paths, name: MacroName): CString {
    match name
    case Current => p.current
    case Planned => p.planned
    case Password => p.password
    case Key => p.key
    case Trust => p.trust
    case Crl => p.crl
    case Auth => p.auth
  }

  predicate Defines(defs: Definitions, p: Paths) {
    forall name: MacroName :: Lookup(defs, NameText(name)) == Some(PathOf(p, name))
  }

  /** The argument matches the value of a macro followed by a tail. */
  predicate Hit(value: CString, tail: Tail, arg: CString) {
    Accepts(Cut(value + TailText(tail), MAX_LENGTH), arg)
  }

  predicate Suits(p: Paths, t: Template, arg: CString) {
    match t
    case Absent => true
    case Read => arg == "r"
    case Write => arg == "w"
    case Ref(name, tail) => Hit(PathOf(p, name), tail, arg)
  }

  lemma NamePlain(name: MacroName)
    ensures '}' !in NameText(name)
  {}

  lemma NameShort(name: MacroName)
    ensures |NameText(name)| <= 21
  {}

  lemma TailPlain(tail: Tail)
    ensures '$' !in TailText(tail) && |TailText(tail)| <= 4
  {}

  lemma RefSuits(defs: Definitions, p: Paths, name: MacroName, tail: Tail, arg: CString)
    requires Defines(defs, p)
    ensures ArgMatches(defs, TemplateText(Ref(name, tail)), Some(arg)) == Hit(PathOf(p, name), tail, arg)
  {
    NamePlain(name);
    NameShort(name);
    TailPlain(tail);
    ReferenceExpands(defs, NameText(name), TailText(tail));
  }

  lemma ModeSuits(defs: Definitions, t: Template, arg: CString)
    requires t.Read? || t.Write?
    ensures ArgMatches(defs, TemplateText(t), Some(arg)) == (arg == if t.Read? then "r" else "w")
  {
    var word := TemplateText(t).value;
    PlainsSpell(defs, word);
    SpelledExpands(defs, word, Plains(word));
    LiteralPattern(word, arg);
  }

  lemma ArgSuits(defs: Definitions, p: Paths, t: Template, arg: CString)
    requires Defines(defs, p)
    ensures ArgMatches(defs, TemplateText(t), Some(arg)) == Suits(p, t, arg)
  {
    match t
    case Absent =>
    case Read => ModeSuits(defs, t, arg);
    case Write => ModeSuits(defs, t, arg);
    case Ref(name, tail) => RefSuits(defs, p, name, tail, arg);
  }

  // ----- The decisions, for any values of the macros.

  /** The flags of the first entry of a kind whose templates are satisfied. */
  function FirstEntry(entries: seq<Entry>, i: nat, code: int,
                      suits1: Template -> bool, suits2: Template -> bool): Option<nat>
    requires i <= |entries|
    decreases |entries| - i
  {
    if i == |entries| then None
    else if entries[i].code == code && suits1(entries[i].arg1) && suits2(entries[i].arg2) then Some(entries[i].flags)
    else FirstEntry(entries, i + 1, code, suits1, suits2)
  }

  lemma EntryMatches(defs: Definitions, p: Paths, e: Entry, arg1: CString, arg2: Option<CString>)
    requires Defines(defs, p) && (e.arg2.Absent? <==> arg2.None?)
    ensures RuleMatches(defs, ToRule(e), e.code, Some(arg1), arg2) <==>
            Suits(p, e.arg1, arg1) && (arg2.Some? ==> Suits(p, e.arg2, arg2.value))
  {
    ArgSuits(defs, p, e.arg1, arg1);
    if arg2.Some? {
      ArgSuits(defs, p, e.arg2, arg2.value);
    }
  }

  lemma EntryDecides(defs: Definitions, p: Paths, e: Entry, code: int, arg1: CString, arg2: Option<CString>)
    requires Defines(defs, p) && (e.code == code ==> (e.arg2.Absent? <==> arg2.None?))
    ensures RuleMatches(defs, ToRule(e), code, Some(arg1), arg2) <==>
            e.code == code && Suits(p, e.arg1, arg1) && (arg2.Some? ==> Suits(p, e.arg2, arg2.value))
  {
    if e.code == code {
      EntryMatches(defs, p, e, arg1, arg2);
    }
  }

  lemma {:induction false} DecideByEntries(defs: Definitions, p: Paths, entries: seq<Entry>, i: nat, code: int,
                                           arg1: CString, arg2: Option<CString>,
                                           suits1: Template -> bool, suits2: Template -> bool)
    requires Defines(defs, p) && i <= |entries|
    requires forall e | e in entries && e.code == code :: e.arg2.Absent? <==> arg2.None?
    requires forall t :: suits1(t) == Suits(p, t, arg1)
    requires forall t :: suits2(t) == (arg2.Some? ==> Suits(p, t, arg2.value))
    ensures Decide(defs, Table(entries), i, code, Some(arg1), arg2) == FirstEntry(entries, i, code, suits1, suits2)
    decreases |entries| - i
  {
    if i < |entries| {
      DecideByEntries(defs, p, entries, i + 1, code, arg1, arg2, suits1, suits2);
      assert entries[i] in entries && Table(entries)[i] == ToRule(entries[i]);
      EntryDecides(defs, p, entries[i], code, arg1, arg2);
    }
  }

  lemma {:induction false} Skip(entries: seq<Entry>, i: nat, j: nat, code: int,
                                suits1: Template -> bool, suits2: Template -> bool)
    requires i <= j <= |entries| && forall k | i <= k < j :: entries[k].code != code
    ensures FirstEntry(entries, i, code, suits1, suits2) == FirstEntry(entries, j, code, suits1, suits2)
    decreases j - i
  {
    if i < j {
      Skip(entries, i + 1, j, code, suits1, suits2);
    }
  }

  lemma OpenEntries(s1: Template -> bool, s2: Template -> bool)
    ensures FirstEntry(ENTRIES, 0, OPEN_FILE, s1, s2) ==
            if s1(Ref(Current, Itself)) && s2(Write) then Some(PUBLIC)
            else if s1(Ref(Planned, Itself)) && s2(Write) then Some(PUBLIC)
            else if s1(Ref(Password, Itself)) && s2(Write) then Some(PRIVATE)
            else if s1(Ref(Key, Itself)) && s2(Read) then Some(0)
            else if s1(Ref(Trust, Below)) && s2(Write) then Some(PUBLIC)
            else if s1(Ref(Crl, Below)) && s2(Write) then Some(PUBLIC)
            else None
  {
    Skip(ENTRIES, 1, 4, OPEN_FILE, s1, s2);
    Skip(ENTRIES, 5, 8, OPEN_FILE, s1, s2);
    Skip(ENTRIES, 9, 13, OPEN_FILE, s1, s2);
    Skip(ENTRIES, 15, 16, OPEN_FILE, s1, s2);
    Skip(ENTRIES, 17, 19, OPEN_FILE, s1, s2);
  }

  lemma RenameEntries(s1: Template -> bool, s2: Template -> bool)
    ensures FirstEntry(ENTRIES, 0, RENAME_FILE, s1, s2).Some? <==>
            || (s1(Ref(Current, Itself)) && s2(Ref(Current, Backup)))
            || (s1(Ref(Planned, Itself)) && s2(Ref(Planned, Backup)))
            || (s1(Ref(Password, Backup)) && s2(Ref(Password, Itself)))
            || (s1(Ref(Password, Itself)) && s2(Ref(Password, Backup)))
  {
    Skip(ENTRIES, 0, 1, RENAME_FILE, s1, s2);
    Skip(ENTRIES, 2, 5, RENAME_FILE, s1, s2);
    Skip(ENTRIES, 6, 9, RENAME_FILE, s1, s2);
    Skip(ENTRIES, 11, 19, RENAME_FILE, s1, s2);
  }

  lemma RemoveEntries(s1: Template -> bool, s2: Template -> bool)
    requires s2(Absent)
    ensures FirstEntry(ENTRIES, 0, REMOVE_FILE, s1, s2).Some? <==>
            || s1(Ref(Current, Itself)) || s1(Ref(Current, Backup))
            || s1(Ref(Planned, Itself)) || s1(Ref(Planned, Backup))
            || s1(Ref(Password, Itself)) || s1(Ref(Password, Backup))
            || s1(Ref(Trust, Below)) || s1(Ref(Crl, Below)) || s1(Ref(Auth, Below))
  {
    Skip(ENTRIES, 0, 2, REMOVE_FILE, s1, s2);
    Skip(ENTRIES, 4, 6, REMOVE_FILE, s1, s2);
    Skip(ENTRIES, 8, 11, REMOVE_FILE, s1, s2);
    Skip(ENTRIES, 13, 15, REMOVE_FILE, s1, s2);
    Skip(ENTRIES, 16, 17, REMOVE_FILE, s1, s2);
    assert FirstEntry(ENTRIES, 18, REMOVE_FILE, s1, s2) == if s1(Ref(Auth, Below)) then Some(0) else None;
  }

  // ----- The decisions, for macro values that are plain paths.

  /** No stars, and room in the buffer for the longest tail of the table. */
  predicate Literal(value: CString) {
    '*' !in value && |value| + 4 <= MAX_LENGTH
  }

  predicate AllLiteral(p: Paths) {
    forall name: MacroName :: Literal(PathOf(p, name))
  }

  /** What the templates mean then: one path, its backup, or everything below it. */
  predicate Means(p: Paths, t: Template, arg: CString) {
    match t
    case Absent => true
    case Read => arg == "r"
    case Write => arg == "w"
    case Ref(name, Itself) => arg == PathOf(p, name)
    case Ref(name, Backup) => arg == PathOf(p, name) + ".bak"
    case Ref(name, Below) => PathOf(p, name) + "/" <= arg
  }

  lemma SuitsMeans(p: Paths, t: Template, arg: CString)
    requires AllLiteral(p)
    ensures Suits(p, t, arg) == Means(p, t, arg)
  {
    if t.Ref? {
      LiteralHits(PathOf(p, t.name), t.tail, arg);
    }
  }

  lemma LiteralHits(value: CString, tail: Tail, path: CString)
    requires Literal(value)
    ensures Hit(value, tail, path) <==>
            match tail
            case Itself => path == value
            case Backup => path == value + ".bak"
            case Below => value + "/" <= path
  {
    match tail
    case Itself =>
      assert value + "" == value;
      LiteralPattern(value, path);
    case Backup =>
      LiteralPattern(value + ".bak", path);
    case Below =>
      assert value + "/*" == value + "/" + "*";
      PrefixPattern(value + "/", path);
  }

  lemma DecideByMeaning(defs: Definitions, p: Paths, code: int, arg1: CString, arg2: Option<CString>)
    returns (s1: Template -> bool, s2: Template -> bool)
    requires Defines(defs, p) && AllLiteral(p)
    requires code == OPEN_FILE || code == RENAME_FILE || code == REMOVE_FILE
    requires arg2.None? <==> code == REMOVE_FILE
    ensures forall t :: s1(t) == Means(p, t, arg1)
    ensures forall t :: s2(t) == (arg2.Some? ==> Means(p, t, arg2.value))
    ensures Decide(defs, StaticPolicyTable(), 0, code, Some(arg1), arg2) == FirstEntry(ENTRIES, 0, code, s1, s2)
  {
    s1 := t => Means(p, t, arg1);
    s2 := t => arg2.Some? ==> Means(p, t, arg2.value);
    forall t: Template ensures s1(t) == Suits(p, t, arg1) {
      SuitsMeans(p, t, arg1);
    }
    forall t: Template ensures s2(t) == (arg2.Some? ==> Suits(p, t, arg2.value)) {
      if arg2.Some? {
        SuitsMeans(p, t, arg2.value);
      }
    }
    EntriesProper();
    DecideByEntries(defs, p, ENTRIES, 0, code, arg1, arg2, s1, s2);
  }

  /** The paths that may be opened, in which mode, with which permissions. */
  function Openable(p: Paths, path: CString, mode: char): Option<nat> {
    if mode == 'w' && (path == p.current || path == p.planned) then Some(PUBLIC)
    else if mode == 'w' && path == p.password then Some(PRIVATE)
    else if mode == 'w' && (p.trust + "/" <= path || p.crl + "/" <= path) then Some(PUBLIC)
    else if mode == 'r' && path == p.key then Some(0)
    else None
  }

  lemma OpenableTemplates(p: Paths, path: CString, mode: char)
    ensures var read, write := Means(p, Read, ModeText(mode)), Means(p, Write, ModeText(mode));
            Openable(p, path, mode) ==
            if Means(p, Ref(Current, Itself), path) && write then Some(PUBLIC)
            else if Means(p, Ref(Planned, Itself), path) && write then Some(PUBLIC)
            else if Means(p, Ref(Password, Itself), path) && write then Some(PRIVATE)
            else if Means(p, Ref(Key, Itself), path) && read then Some(0)
            else if Means(p, Ref(Trust, Below), path) && write then Some(PUBLIC)
            else if Means(p, Ref(Crl, Below), path) && write then Some(PUBLIC)
            else None
  {}

  /** Opening a file: exactly which paths, in which mode, with which permissions. */
  lemma OpenExactly(defs: Definitions, p: Paths, path: CString, mode: char)
    requires Defines(defs, p) && AllLiteral(p)
    ensures OpenDecision(defs, path, mode) == Openable(p, path, mode)
  {
    var s1, s2 := DecideByMeaning(defs, p, OPEN_FILE, path, Some(ModeText(mode)));
    OpenEntries(s1, s2);
    OpenableTemplates(p, path, mode);
  }

  /** The pairs of paths a file may be renamed between. */
  predicate Renamable(p: Paths, oldPath: CString, newPath: CString) {
    || (oldPath == p.current && newPath == p.current + ".bak")
    || (oldPath == p.planned && newPath == p.planned + ".bak")
    || (oldPath == p.password && newPath == p.password + ".bak")
    || (oldPath == p.password + ".bak" && newPath == p.password)
  }

  /** Renaming a file: only between a configuration or password file and its backup. */
  lemma RenameExactly(defs: Definitions, p: Paths, oldPath: CString, newPath: CString)
    requires Defines(defs, p) && AllLiteral(p)
    ensures MayRename(defs, oldPath, newPath) <==> Renamable(p, oldPath, newPath)
  {
    var s1, s2 := DecideByMeaning(defs, p, RENAME_FILE, oldPath, Some(newPath));
    RenameEntries(s1, s2);
  }

  /** The paths that may be removed. */
  predicate Removable(p: Paths, path: CString) {
    || path == p.current || path == p.current + ".bak"
    || path == p.planned || path == p.planned + ".bak"
    || path == p.password || path == p.password + ".bak"
    || p.trust + "/" <= path || p.crl + "/" <= path || p.auth + "/" <= path
  }

  lemma RemovableTemplates(p: Paths, path: CString)
    ensures Removable(p, path) <==>
            || Means(p, Ref(Current, Itself), path) || Means(p, Ref(Current, Backup), path)
            || Means(p, Ref(Planned, Itself), path) || Means(p, Ref(Planned, Backup), path)
            || Means(p, Ref(Password, Itself), path) || Means(p, Ref(Password, Backup), path)
            || Means(p, Ref(Trust, Below), path) || Means(p, Ref(Crl, Below), path) || Means(p, Ref(Auth, Below), path)
  {}

  /** Removing a file: exactly which paths. */
  lemma RemoveExactly(defs: Definitions, p: Paths, path: CString)
    requires Defines(defs, p) && AllLiteral(p)
    ensures MayRemove(defs, path) <==> Removable(p, path)
  {
    var s1, s2 := DecideByMeaning(defs, p, REMOVE_FILE, path, None);
    RemoveEntries(s1, s2);
    RemovableTemplates(p, path);
  }

  /** Whatever the macros are worth, defined or not, only modes 'r' and 'w' are let through:
      the third mode of the open request, append, never is. */
  lemma OnlyReadOrWrite(defs: Definitions, path: CString, mode: char)
    ensures OpenDecision(defs, path, mode).Some? ==> mode == 'r' || mode == 'w'
  {
    if mode != 'r' && mode != 'w' {
      EntriesProper();
      ModeSuits(defs, Read, ModeText(mode));
      ModeSuits(defs, Write, ModeText(mode));
      NoEntryMatches(defs, ENTRIES, 0, path, ModeText(mode));
    }
  }

  lemma {:induction false} NoEntryMatches(defs: Definitions, entries: seq<Entry>, i: nat, path: CString, mode: CString)
    requires i <= |entries| && (forall e | e in entries :: Proper(e))
    requires !ArgMatches(defs, TemplateText(Read), Some(mode)) && !ArgMatches(defs, TemplateText(Write), Some(mode))
    ensures Decide(defs, Table(entries), i, OPEN_FILE, Some(path), Some(mode)).None?
    decreases |entries| - i
  {
    if i < |entries| {
      NoEntryMatches(defs, entries, i + 1, path, mode);
      assert Proper(entries[i]);
    }
  }
}

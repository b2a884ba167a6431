/** The executor's policy: which paths may be opened, renamed and removed
    (src/Executor/Policy.c, DefineExecutorMacros of src/Executor/main.c). */
module Policy {
  import opened Wrappers
  import opened CStrings
  import opened Macros
  import opened Expander
  import opened Glob
  import opened Messages

  datatype Rule = Rule(code: int, arg1: Option<CString>, arg2: Option<CString>, flags: nat)

  // File modes 0644 and 0600.
  const PUBLIC := 0x1A4
  const PRIVATE := 0x180

  // The macros the policy table refers to, and the tails it appends to them.
  datatype MacroName = Current | Planned | Password | Key | Trust | Crl | Auth
  datatype Tail = Itself | Backup | Below

  function NameText(name: MacroName): CString {
    match name
    case Current => "currentConfigFilePath"
    case Planned => "plannedConfigFilePath"
    case Password => "passwordFilePath"
    case Key => "sslKeyFilePath"
    case Trust => "sslTrustStore"
    case Crl => "crlStore"
    case Auth => "localAuthDir"
  }

  function TailText(tail: Tail): CString {
    match tail
    case Itself => ""
    case Backup => ".bak"
    case Below => "/*"
  }

  /** An argument of a rule of the table: absent, a mode letter, or a macro and a tail. */
  datatype Template = Absent | Read | Write | Ref(name: MacroName, tail: Tail)

  function TemplateText(t: Template): Option<CString>
  {
    match t
    case Absent => None
    case Read => Some("r")
    case Write => Some("w")
    case Ref(name, tail) => Some("${" + NameText(name) + "}" + TailText(tail))
  }

  datatype Entry = Entry(code: int, arg1: Template, arg2: Template, flags: nat)

  const ENTRIES: seq<Entry> := [
    Entry(OPEN_FILE, Ref(Current, Itself), Write, PUBLIC),
    Entry(RENAME_FILE, Ref(Current, Itself), Ref(Current, Backup), 0),
    Entry(REMOVE_FILE, Ref(Current, Itself), Absent, 0),
    Entry(REMOVE_FILE, Ref(Current, Backup), Absent, 0),
    Entry(OPEN_FILE, Ref(Planned, Itself), Write, PUBLIC),
    Entry(RENAME_FILE, Ref(Planned, Itself), Ref(Planned, Backup), 0),
    Entry(REMOVE_FILE, Ref(Planned, Itself), Absent, 0),
    Entry(REMOVE_FILE, Ref(Planned, Backup), Absent, 0),
    Entry(OPEN_FILE, Ref(Password, Itself), Write, PRIVATE),
    Entry(RENAME_FILE, Ref(Password, Backup), Ref(Password, Itself), 0),
    Entry(RENAME_FILE, Ref(Password, Itself), Ref(Password, Backup), 0),
    Entry(REMOVE_FILE, Ref(Password, Backup), Absent, 0),
    Entry(REMOVE_FILE, Ref(Password, Itself), Absent, 0),
    Entry(OPEN_FILE, Ref(Key, Itself), Read, 0),
    Entry(OPEN_FILE, Ref(Trust, Below), Write, PUBLIC),
    Entry(REMOVE_FILE, Ref(Trust, Below), Absent, 0),
    Entry(OPEN_FILE, Ref(Crl, Below), Write, PUBLIC),
    Entry(REMOVE_FILE, Ref(Crl, Below), Absent, 0),
    Entry(REMOVE_FILE, Ref(Auth, Below), Absent, 0)
  ]

  /** Each kind of request passes the arguments its rules look at. */
  predicate Proper(e: Entry) {
    && (e.code == OPEN_FILE || e.code == RENAME_FILE ==> e.arg1.Ref? && !e.arg2.Absent?)
    && (e.code == OPEN_FILE ==> e.arg2.Read? || e.arg2.Write?)
    && (e.code == REMOVE_FILE ==> e.arg1.Ref? && e.arg2.Absent?)
  }

  function ToRule(e: Entry): Rule {
    Rule(e.code, TemplateText(e.arg1), TemplateText(e.arg2), e.flags)
  }

  function Table(entries: seq<Entry>): (table: seq<Rule>)
    ensures |table| == |entries|
    ensures forall i | 0 <= i < |entries| :: table[i] == ToRule(entries[i])
  {
    seq(|entries|, i requires 0 <= i < |entries| => ToRule(entries[i]))
  }

  lemma EntriesProper()
    ensures forall e | e in ENTRIES :: Proper(e)
  {}

  /** The static policy table: nineteen rules, in this order. */
  function StaticPolicyTable(): seq<Rule> {
    Table(ENTRIES)
  }

  // ----- The first matching rule.

  /** What a pattern stands for once expanded into a buffer, if it can be expanded. */
  function Expanded(defs: Definitions, pattern: string): Option<string> {
    var scanned := Scan(defs, Cut(pattern, MAX_LENGTH), 0);
    if scanned.ok then Some(Cut(scanned.out, MAX_LENGTH)) else None
  }

  /** A pattern argument needs an actual argument to be matched against. */
  predicate Applicable(pattern: Option<CString>, arg: Option<CString>) {
    pattern.Some? ==> arg.Some?
  }

  predicate ArgMatches(defs: Definitions, pattern: Option<CString>, arg: Option<CString>)
    requires Applicable(pattern, arg)
  {
    pattern.Some? ==>
      && Expanded(defs, pattern.value).Some?
      && Accepts(Expanded(defs, pattern.value).value, arg.value)
  }

  predicate RuleMatches(defs: Definitions, rule: Rule, code: int, arg1: Option<CString>, arg2: Option<CString>) {
    && rule.code == code
    && Applicable(rule.arg1, arg1) && ArgMatches(defs, rule.arg1, arg1)
    && Applicable(rule.arg2, arg2) && ArgMatches(defs, rule.arg2, arg2)
  }

  /** The flags of the first rule, from the i-th on, that matches. */
  function Decide(defs: Definitions, table: seq<Rule>, i: nat,
                  code: int, arg1: Option<CString>, arg2: Option<CString>): Option<nat>
    requires i <= |table|
    decreases |table| - i
  {
    if i == |table| then None
    else if RuleMatches(defs, table[i], code, arg1, arg2) then Some(table[i].flags)
    else Decide(defs, table, i + 1, code, arg1, arg2)
  }

  method CheckArg(macros: MacroTable, pattern: Option<CString>, arg: Option<CString>) returns (ok: bool)
    requires macros.Valid() && Applicable(pattern, arg)
    ensures ok == ArgMatches(macros.Contents(), pattern, arg)
  {
    if pattern.None? {
      return true;
    }
    var pat := new char[BUFFER_SIZE];
    var status := ExpandMacros(macros, pattern.value, pat);
    if status != 0 {
      return false;
    }
    status := Match(Text(pat[..]), arg.value);
    return status == 0;
  }

  method CheckPolicy(macros: MacroTable, table: seq<Rule>, code: int,
                     arg1: Option<CString>, arg2: Option<CString>) returns (status: int, flags: nat)
    requires macros.Valid()
    requires forall rule | rule in table && rule.code == code ::
               Applicable(rule.arg1, arg1) && Applicable(rule.arg2, arg2)
    ensures status == if Decide(macros.Contents(), table, 0, code, arg1, arg2).Some? then 0 else -1
    ensures status == 0 ==> Some(flags) == Decide(macros.Contents(), table, 0, code, arg1, arg2)
    ensures status != 0 ==> flags == 0
  {
    ghost var defs := macros.Contents();
    flags := 0;
    var i := 0;
    while i < |table|
      invariant 0 <= i <= |table|
      invariant Decide(defs, table, 0, code, arg1, arg2) == Decide(defs, table, i, code, arg1, arg2)
    {
      var p := table[i];
      i := i + 1;
      if p.code != code {
        continue;
      }
      var matches := CheckArg(macros, p.arg1, arg1);
      if !matches {
        continue;
      }
      matches := CheckArg(macros, p.arg2, arg2);
      if !matches {
        continue;
      }
      return 0, p.flags;
    }
    return -1, 0;
  }

  function ModeText(mode: char): CString {
    if mode == NUL then "" else [mode]
  }

  function OpenDecision(defs: Definitions, path: CString, mode: char): Option<nat> {
    Decide(defs, StaticPolicyTable(), 0, OPEN_FILE, Some(path), Some(ModeText(mode)))
  }

  predicate MayRename(defs: Definitions, oldPath: CString, newPath: CString) {
    Decide(defs, StaticPolicyTable(), 0, RENAME_FILE, Some(oldPath), Some(newPath)).Some?
  }

  predicate MayRemove(defs: Definitions, path: CString) {
    Decide(defs, StaticPolicyTable(), 0, REMOVE_FILE, Some(path), None).Some?
  }

  method CheckOpenFilePolicy(macros: MacroTable, path: CString, mode: char) returns (status: int, flags: nat)
    requires macros.Valid()
    ensures status == if OpenDecision(macros.Contents(), path, mode).Some? then 0 else -1
    ensures status == 0 ==> Some(flags) == OpenDecision(macros.Contents(), path, mode)
    ensures status != 0 ==> flags == 0
  {
    EntriesProper();
    status, flags := CheckPolicy(macros, StaticPolicyTable(), OPEN_FILE, Some(path), Some(ModeText(mode)));
  }

  method CheckRemoveFilePolicy(macros: MacroTable, path: CString) returns (status: int)
    requires macros.Valid()
    ensures status == if MayRemove(macros.Contents(), path) then 0 else -1
  {
    var flags;
    EntriesProper();
    status, flags := CheckPolicy(macros, StaticPolicyTable(), REMOVE_FILE, Some(path), None);
  }

  method CheckRenameFilePolicy(macros: MacroTable, oldPath: CString, newPath: CString) returns (status: int)
    requires macros.Valid()
    ensures status == if MayRename(macros.Contents(), oldPath, newPath) then 0 else -1
  {
    var flags;
    EntriesProper();
    status, flags := CheckPolicy(macros, StaticPolicyTable(), RENAME_FILE, Some(oldPath), Some(newPath));
  }
}

/** Challenges are used once (src/Executor/LocalAuth.c): how often a challenge file lets a client
    authenticate, over whole runs of the executor. */
module ExecutorChallenges {
  import opened Wrappers
  import opened CStrings
  import opened Policy
  import opened PolicyDecisions
  import opened ExecutorMacros
  import opened ChallengePaths
  import opened Tokens
  import opened ExecutorWorld
  import opened ExecutorSafety

  function One(b: bool): nat {
    if b then 1 else 0
  }

  /** The step makes a challenge file of this name and returns the name to the client. */
  predicate Makes(c: Config, w: World, step: Step, path: CString) {
    Answer(c, w, step) == Some(Challenge(0, path))
  }

  /** The step authenticates a client by the challenge file of this name. */
  predicate Passes(c: Config, w: World, step: Step, path: CString) {
    && step.Serve? && step.request.AuthenticateLocal? && step.request.challenge == path
    && Answer(c, w, step) == Some(Status(0))
  }

  // ----- How a file that lets a client pass may also come to be there, or stay there.

  /** The file can authenticate a client: it is there and not shorter than a token. */
  predicate Full(w: World, path: CString) {
    path in w.files && |w.files[path]| >= TOKEN_LENGTH
  }

  datatype Leak = ByPolicy | FromOutside | UnlinkFailed

  /** The policy lets a file of that length be renamed to the path. */
  predicate RenamedOnto(c: Config, w: World, step: Step, path: CString) {
    && step.Serve? && step.request.RenameFile? && step.request.newPath == path
    && MayRename(c.defs, step.request.oldPath, path) && Full(w, step.request.oldPath) && step.env.renameOk
  }

  predicate PlacedFromOutside(step: Step, path: CString) {
    step.Place? && step.path == path && |step.content| >= TOKEN_LENGTH
  }

  /** A challenge file is written as a whole, but its owner cannot be changed and the file cannot
      be removed again. */
  predicate LeftBehind(c: Config, w: World, step: Step, path: CString) {
    && ChallengeOf(c, w, step) == Some(path)
    && (path in w.files ==> step.env.unlinkOk) && Usable(step.env.first, w.fds)
    && step.env.written >= TOKEN_LENGTH && !step.env.chownOk && !step.env.cleanupOk
  }

  /** The right response is given, and the file cannot be removed. */
  predicate KeptAfterUse(w: World, step: Step, path: CString) {
    && step.Serve? && step.request.AuthenticateLocal? && step.request.challenge == path
    && TokenMatches(w, path, step.request.response, step.env) && !step.env.unlinkOk
  }

  function LeakOf(c: Config, w: World, step: Step, path: CString): Option<Leak> {
    if KeptAfterUse(w, step, path) then Some(UnlinkFailed)
    else if Full(w, path) then None
    else if LeftBehind(c, w, step, path) then Some(UnlinkFailed)
    else if PlacedFromOutside(step, path) then Some(FromOutside)
    else if RenamedOnto(c, w, step, path) then Some(ByPolicy)
    else None
  }

  /** The step makes the file one that lets a client pass without telling a client about it, or
      lets a client pass and keeps it. */
  predicate Leaks(c: Config, w: World, step: Step, path: CString) {
    && Full(After(c, w, step), path)
    && (Passes(c, w, step, path) || (!Full(w, path) && !Makes(c, w, step, path)))
  }

  /** The guards are met by exactly these steps. */
  lemma LeakExactly(c: Config, w: World, step: Step, path: CString)
    ensures LeakOf(c, w, step, path).Some? <==> Leaks(c, w, step, path)
  {
    if step.Serve? && step.request.ChallengeLocal? {
      ChallengeLeaks(c, w, step, path);
    } else if step.Serve? && step.request.AuthenticateLocal? {
      AuthenticateLeaks(c, w, step, path);
    } else {
      OtherLeaks(c, w, step, path);
    }
  }

  lemma ChallengeLeaks(c: Config, w: World, step: Step, path: CString)
    requires step.Serve? && step.request.ChallengeLocal?
    ensures LeakOf(c, w, step, path).Some? <==> Leaks(c, w, step, path)
  {
    assert !Passes(c, w, step, path);
    if ChallengeOf(c, w, step).Some? && ChallengeOf(c, w, step) != Some(path) {
      CreatedUndisturbed(w, ChallengeOf(c, w, step).value, step.env, path);
    }
  }

  lemma AuthenticateLeaks(c: Config, w: World, step: Step, path: CString)
    requires step.Serve? && step.request.AuthenticateLocal?
    ensures LeakOf(c, w, step, path).Some? <==> Leaks(c, w, step, path)
  {}

  lemma OtherLeaks(c: Config, w: World, step: Step, path: CString)
    requires !(step.Serve? && (step.request.ChallengeLocal? || step.request.AuthenticateLocal?))
    ensures LeakOf(c, w, step, path).Some? <==> Leaks(c, w, step, path)
  {
    assert !Passes(c, w, step, path);
    assert !Makes(c, w, step, path);
  }

  // ----- Every attempt uses the file up.

  /** The step answers a challenge of this name, rightly or not. */
  predicate Answers(step: Step, path: CString) {
    step.Serve? && step.request.AuthenticateLocal? && step.request.challenge == path
  }

  /** An answer, whatever it is, leaves no file behind, if the system lets the file be removed. */
  lemma AnswerRemoves(c: Config, w: World, step: Step, path: CString)
    requires Answers(step, path) && step.env.unlinkOk
    ensures path !in After(c, w, step).files
    ensures forall q | q != path :: q in After(c, w, step).files <==> q in w.files
    ensures forall q | q != path && q in w.files :: After(c, w, step).files[q] == w.files[q]
  {}

  /** An attempt on a file that could let a client pass: it is removed, or lets the client pass. */
  predicate Tries(c: Config, w: World, step: Step, path: CString) {
    Answers(step, path) && Full(w, path) && (step.env.unlinkOk || Passes(c, w, step, path))
  }

  lemma PassesTries(c: Config, w: World, step: Step, path: CString)
    requires Passes(c, w, step, path)
    ensures Tries(c, w, step, path)
  {}

  // ----- Counting along a run.

  datatype Counts = Counts(made: nat, tried: nat, passed: nat, leaked: nat)

  function Count(c: Config, w: World, steps: seq<Step>, path: CString): Counts
    decreases |steps|
  {
    if steps == [] || Stops(c, w, steps[0]) then Counts(0, 0, 0, 0)
    else
      var rest := Count(c, After(c, w, steps[0]), steps[1..], path);
      Counts(rest.made + One(Makes(c, w, steps[0], path)), rest.tried + One(Tries(c, w, steps[0], path)),
             rest.passed + One(Passes(c, w, steps[0], path)),
             rest.leaked + One(LeakOf(c, w, steps[0], path).Some?))
  }

  lemma StepBalanced(c: Config, w: World, step: Step, path: CString)
    ensures One(Tries(c, w, step, path)) + One(Full(After(c, w, step), path))
         <= One(Makes(c, w, step, path)) + One(LeakOf(c, w, step, path).Some?) + One(Full(w, path))
    ensures One(Passes(c, w, step, path)) <= One(Tries(c, w, step, path))
  {
    LeakExactly(c, w, step, path);
    if Answers(step, path) && step.env.unlinkOk {
      AnswerRemoves(c, w, step, path);
    }
    if Passes(c, w, step, path) {
      PassesTries(c, w, step, path);
    }
  }

  /** The books of one path over every run: each attempt on a file that could let a client pass,
      right or wrong, is paid for by a challenge that was made, by a leak, or by a file with a whole
      token that was there before. */
  lemma {:induction false} Balance(c: Config, w: World, steps: seq<Step>, path: CString)
    ensures var n := Count(c, w, steps, path);
            && n.tried + One(Full(Final(c, w, steps), path)) <= n.made + n.leaked + One(Full(w, path))
            && n.passed <= n.tried
    decreases |steps|
  {
    if steps != [] && !Stops(c, w, steps[0]) {
      StepBalanced(c, w, steps[0], path);
      Balance(c, After(c, w, steps[0]), steps[1..], path);
    }
  }

  /** All leaks of the run are of the given kinds. */
  predicate OnlyLeaks(c: Config, w: World, steps: seq<Step>, path: CString, leaks: set<Leak>)
    decreases |steps|
  {
    steps == [] || Stops(c, w, steps[0]) ||
    (&& (LeakOf(c, w, steps[0], path).Some? ==> LeakOf(c, w, steps[0], path).value in leaks)
     && OnlyLeaks(c, After(c, w, steps[0]), steps[1..], path, leaks))
  }

  lemma {:induction false} NoneLeaked(c: Config, w: World, steps: seq<Step>, path: CString)
    requires OnlyLeaks(c, w, steps, path, {})
    ensures Count(c, w, steps, path).leaked == 0
    decreases |steps|
  {
    if steps != [] && !Stops(c, w, steps[0]) {
      NoneLeaked(c, After(c, w, steps[0]), steps[1..], path);
    }
  }

  /** Without leaks, attempts on a path that could succeed, and so successes, never outnumber the
      challenges made for it. */
  lemma OneTime(c: Config, w: World, steps: seq<Step>, path: CString)
    requires !Full(w, path) && OnlyLeaks(c, w, steps, path, {})
    ensures var n := Count(c, w, steps, path); n.passed <= n.tried <= n.made
  {
    Balance(c, w, steps, path);
    NoneLeaked(c, w, steps, path);
  }

  /** One attempt for each challenge: after an answer, right or wrong, nobody passes by that file
      until a challenge makes it again, or there is a leak. */
  lemma OneAttempt(c: Config, w: World, first: Step, steps: seq<Step>, path: CString)
    requires Answers(first, path) && first.env.unlinkOk
    requires OnlyLeaks(c, After(c, w, first), steps, path, {})
    ensures var n := Count(c, After(c, w, first), steps, path); n.passed <= n.made
  {
    AnswerRemoves(c, w, first, path);
    OneTime(c, After(c, w, first), steps, path);
  }

  // ----- Each kind of leak alone is enough for a success without a challenge.

  function Zeros(): Seed {
    seq(TOKEN_LENGTH / 2, _ => 0)
  }

  const EMPTY := World(map[], {}, -1, 1, 0, 0, [])

  /** Every system call succeeds. */
  function Good(): Env {
    Env(Opens(3), Opens(3), true, Opens(3), Opens(4), Opens(5), Opens(6), 1, true, 0, Zeros(),
        true, true, TOKEN_LENGTH, true, true, true, 0, true)
  }

  function Token(): (t: CString)
    ensures |t| == TOKEN_LENGTH
  {
    HexText(Zeros())
  }

  lemma WholeText(s: CString)
    ensures Text(s) == s
  {
    assert s[..Terminator(s, 0)] == s;
  }

  lemma TokenPasses(c: Config, w: World, path: CString)
    requires path in w.files && w.files[path] == Token() && w.fds == {}
    ensures Passes(c, w, Serve(AuthenticateLocal(path, Token()), Good()), path)
    ensures LeakOf(c, w, Serve(AuthenticateLocal(path, Token()), Good()), path).None?
  {
    assert Token()[..TOKEN_LENGTH] == Token();
    WholeText(Token());
  }

  predicate Overuses(c: Config, w: World, steps: seq<Step>, path: CString, leaks: set<Leak>) {
    && !Full(w, path) && OnlyLeaks(c, w, steps, path, leaks)
    && Count(c, w, steps, path).passed > Count(c, w, steps, path).made
  }

  /** A first step that makes no challenge but leaves the token under the name of one. */
  lemma LeakBreaks(c: Config, w: World, first: Step, path: CString, leak: Leak)
    requires w.fds == {} && !Stops(c, w, first) && After(c, w, first).fds == {}
    requires path in After(c, w, first).files && After(c, w, first).files[path] == Token()
    requires !Makes(c, w, first, path) && LeakOf(c, w, first, path) == Some(leak)
    ensures !Full(w, path) ==> Overuses(c, w, [first, Serve(AuthenticateLocal(path, Token()), Good())], path, {leak})
  {
    var second := Serve(AuthenticateLocal(path, Token()), Good());
    var steps, next := [first, second], After(c, w, first);
    TokenPasses(c, next, path);
    assert steps[1..] == [second] && [second][1..] == [];
    assert Count(c, next, [second], path) == Counts(0, 1, 1, 0);
    assert OnlyLeaks(c, next, [second], path, {leak});
  }

  /** Some run, with leaks of the given kinds only, uses a path that was free more often than
      challenges were made for it. */
  ghost predicate Overused(leaks: set<Leak>) {
    exists c, w, steps, path :: Overuses(c, w, steps, path, leaks)
  }

  lemma OutsideBreaks()
    ensures Overused({FromOutside})
  {
    LeakBreaks(Config([], ""), EMPTY, Place("p", Token()), "p", FromOutside);
  }

  /** The owner cannot be changed and the cleaning up fails. */
  lemma UnlinkBreaks()
    ensures Overused({UnlinkFailed})
  {
    var c := Config([], "");
    var path := ChallengePath("", "u", 1, 0);
    var step := Serve(ChallengeLocal("u"), Good().(chownOk := false, cleanupOk := false));
    assert ChallengeOf(c, EMPTY, step) == Some(path);
    LeakBreaks(c, EMPTY, step, path, UnlinkFailed);
  }

  function Same(x: CString): Settings {
    Settings(Some(x), "", Some(x), Some(x), Some(x), Some(x), Some(x), Some(x), x)
  }

  lemma MayBackUp(s: Settings)
    requires Resolved(s) && AllLiteral(PathsOf(s))
    ensures MayRename(Started(s).defs, PathsOf(s).current, PathsOf(s).current + ".bak")
  {
    PolicyMacrosDefined(s);
    RenameExactly(Started(s).defs, PathsOf(s), PathsOf(s).current, PathsOf(s).current + ".bak");
  }

  /** A file renamed as the policy lets it be. */
  lemma RenameBreaks(c: Config, oldPath: CString, newPath: CString)
    requires MayRename(c.defs, oldPath, newPath) && oldPath != newPath
    ensures Overused({ByPolicy})
  {
    var w := EMPTY.(files := map[oldPath := Token()]);
    var step := Serve(RenameFile(oldPath, newPath), Good());
    assert After(c, w, step).files == map[newPath := Token()];
    LeakBreaks(c, w, step, newPath, ByPolicy);
  }

  lemma PolicyBreaks()
    ensures Overused({ByPolicy})
  {
    var x: CString := "x";
    MayBackUp(Same(x));
    RenameBreaks(Started(Same(x)), x, x + ".bak");
  }

  lemma {:induction false} MoreLeaks(c: Config, w: World, steps: seq<Step>, path: CString,
                                     few: set<Leak>, many: set<Leak>)
    requires few <= many && OnlyLeaks(c, w, steps, path, few)
    ensures OnlyLeaks(c, w, steps, path, many)
    decreases |steps|
  {
    if steps != [] && !Stops(c, w, steps[0]) {
      MoreLeaks(c, After(c, w, steps[0]), steps[1..], path, few, many);
    }
  }

  /** Successes on a free path never outnumber the challenges made for it, in all runs whose
      leaks are of the given kinds, exactly when no kind of leak is given. */
  lemma OneTimeExactlyWhen(leaks: set<Leak>)
    ensures !Overused(leaks) <==> leaks == {}
  {
    if leaks == {} {
      forall c, w, steps, path | Overuses(c, w, steps, path, leaks) ensures false {
        OneTime(c, w, steps, path);
      }
    } else {
      var leak :| leak in leaks;
      match leak {
        case ByPolicy => PolicyBreaks();
        case FromOutside => OutsideBreaks();
        case UnlinkFailed => UnlinkBreaks();
      }
      var c, w, steps, path :| Overuses(c, w, steps, path, {leak});
      MoreLeaks(c, w, steps, path, {leak}, leaks);
      assert Overuses(c, w, steps, path, leaks);
    }
  }
}

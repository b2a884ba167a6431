/** What no run of the executor does: which files are ever written, which descriptors are kept,
    how often the end of the start-up is reported (src/Executor/Parent.c). */
module ExecutorSafety {
  import opened Wrappers
  import opened CStrings
  import opened Policy
  import opened PolicyDecisions
  import opened ExecutorMacros
  import opened ChallengePaths
  import opened ExecutorWorld

  // ----- Files.

  /** The policy lets a path be opened for writing or be the new name of a file. */
  ghost predicate Writable(c: Config, path: CString) {
    OpenDecision(c.defs, path, 'w').Some? || exists oldPath: CString :: MayRename(c.defs, oldPath, path)
  }

  /** The name of the challenge file that a step asks for. */
  function ChallengeOf(c: Config, w: World, step: Step): Option<CString> {
    if step.Serve? && step.request.ChallengeLocal? && step.env.knownUser
    then Some(ChallengePath(c.dir, step.request.user, w.next, step.env.usec / 1000))
    else None
  }

  /** Some step of the run asks for a challenge file of this name, or another process writes it. */
  predicate Sanctioned(c: Config, w: World, steps: seq<Step>, path: CString)
    decreases |steps|
  {
    steps != [] &&
    (|| ChallengeOf(c, w, steps[0]) == Some(path)
     || (steps[0].Place? && steps[0].path == path)
     || (!Stops(c, w, steps[0]) && Sanctioned(c, After(c, w, steps[0]), steps[1..], path)))
  }

  /** The file is as it was, or gone. */
  predicate Undisturbed(w: World, after: World, path: CString) {
    path in after.files ==> path in w.files && after.files[path] == w.files[path]
  }

  lemma OpenUndisturbed(c: Config, w: World, p: CString, mode: char, env: Env, path: CString)
    requires OpenDecision(c.defs, path, 'w').None?
    ensures Undisturbed(w, Opened(c, w, p, mode, env).world, path)
  {
    OnlyReadOrWrite(c.defs, p, mode);
    assert p == path && mode == 'w' ==> OpenDecision(c.defs, p, mode).None?;
  }

  lemma RenameUndisturbed(c: Config, w: World, oldPath: CString, newPath: CString, env: Env, path: CString)
    requires MayRename(c.defs, oldPath, newPath) ==> newPath != path
    ensures Undisturbed(w, Renamed(c, w, oldPath, newPath, env).world, path)
  {}

  lemma ChallengeUndisturbed(c: Config, w: World, user: CString, env: Env, path: CString)
    requires env.knownUser ==> ChallengePath(c.dir, user, w.next, env.usec / 1000) != path
    ensures Undisturbed(w, Challenged(c, w, user, env).world, path)
  {
    if env.knownUser {
      CreatedUndisturbed(w, ChallengePath(c.dir, user, w.next, env.usec / 1000), env, path);
    }
  }

  lemma CreatedUndisturbed(w: World, made: CString, env: Env, path: CString)
    requires made != path
    ensures var files := Created(w, made, env).0;
            (path in files <==> path in w.files) && (path in files ==> files[path] == w.files[path])
  {}

  lemma RequestUndisturbed(c: Config, w: World, request: Request, env: Env, path: CString)
    requires !Writable(c, path) && ChallengeOf(c, w, Serve(request, env)) != Some(path)
    requires Handled(c, w, request, env).Lives?
    ensures Undisturbed(w, Handled(c, w, request, env).world, path)
  {
    match request
    case OpenFile(p, mode) => OpenUndisturbed(c, w, p, mode, env, path);
    case RenameFile(oldPath, newPath) =>
      assert MayRename(c.defs, oldPath, newPath) ==> newPath != path;
      RenameUndisturbed(c, w, oldPath, newPath, env, path);
    case ChallengeLocal(user) => ChallengeUndisturbed(c, w, user, env, path);
    case _ =>
  }

  lemma StepUndisturbed(c: Config, w: World, step: Step, path: CString)
    requires !Writable(c, path) && ChallengeOf(c, w, step) != Some(path)
    requires step.Place? ==> step.path != path
    ensures Undisturbed(w, After(c, w, step), path)
  {
    if step.Serve? && !Stops(c, w, step) {
      RequestUndisturbed(c, w, step.request, step.env, path);
    }
  }

  /** Over every run, a file that is there afterwards and was not, or has other contents, is one
      that the policy lets be written, one made by a challenge, or one written by another
      process. Deletions are not covered: the second step of local authentication removes
      whatever file the request names. */
  lemma {:induction false} OnlySanctionedWrites(c: Config, w: World, steps: seq<Step>, path: CString)
    requires !Undisturbed(w, Final(c, w, steps), path)
    ensures Writable(c, path) || Sanctioned(c, w, steps, path)
    decreases |steps|
  {
    if !Writable(c, path) && !Stops(c, w, steps[0]) && ChallengeOf(c, w, steps[0]) != Some(path)
       && (steps[0].Place? ==> steps[0].path != path) {
      StepUndisturbed(c, w, steps[0], path);
      OnlySanctionedWrites(c, After(c, w, steps[0]), steps[1..], path);
    }
  }

  /** The policy lets a file be removed, or renamed to something else. */
  ghost predicate Erasable(c: Config, path: CString) {
    MayRemove(c.defs, path) || exists newPath: CString :: MayRename(c.defs, path, newPath)
  }

  /** The step names a file that it removes without asking the policy. */
  predicate Consumes(c: Config, w: World, step: Step, path: CString) {
    || ChallengeOf(c, w, step) == Some(path)
    || (step.Serve? && step.request.AuthenticateLocal? && step.request.challenge == path)
    || (step.Delete? && step.path == path)
  }

  predicate Consumed(c: Config, w: World, steps: seq<Step>, path: CString)
    decreases |steps|
  {
    steps != [] &&
    (|| Consumes(c, w, steps[0], path)
     || (!Stops(c, w, steps[0]) && Consumed(c, After(c, w, steps[0]), steps[1..], path)))
  }

  lemma RequestKeeps(c: Config, w: World, request: Request, env: Env, path: CString)
    requires !Erasable(c, path) && !Consumes(c, w, Serve(request, env), path)
    requires path in w.files && Handled(c, w, request, env).Lives?
    ensures path in Handled(c, w, request, env).world.files
  {
    match request
    case RenameFile(oldPath, newPath) =>
      assert MayRename(c.defs, oldPath, newPath) ==> oldPath != path;
    case ChallengeLocal(user) =>
      if env.knownUser {
        CreatedUndisturbed(w, ChallengePath(c.dir, user, w.next, env.usec / 1000), env, path);
      }
    case _ =>
  }

  /** Over every run, a file that goes is one that the policy lets be removed or renamed, one that
      a challenge replaces, one that the second step of local authentication names, or one removed
      by another process. */
  lemma {:induction false} OnlyNamedDeletions(c: Config, w: World, steps: seq<Step>, path: CString)
    requires path in w.files && path !in Final(c, w, steps).files
    ensures Erasable(c, path) || Consumed(c, w, steps, path)
    decreases |steps|
  {
    if !Erasable(c, path) && !Stops(c, w, steps[0]) && !Consumes(c, w, steps[0], path) {
      if steps[0].Serve? {
        RequestKeeps(c, w, steps[0].request, steps[0].env, path);
      }
      OnlyNamedDeletions(c, After(c, w, steps[0]), steps[1..], path);
    }
  }

  /** A successful removal or renaming does what it was asked for, and leaves every other file,
      the descriptors and the sequence number as they were. */
  lemma FileRequestsDone(c: Config, w: World, step: Step, path: CString)
    requires step.Serve? && Answer(c, w, step) == Some(Status(0))
    requires step.request.RemoveFile? || step.request.RenameFile?
    ensures After(c, w, step) == w.(files := After(c, w, step).files)
    ensures step.request.RemoveFile? ==>
              var files := After(c, w, step).files;
              && step.request.path in w.files
              && (path in files <==> path in w.files && path != step.request.path)
              && (path in files ==> files[path] == w.files[path])
    ensures step.request.RenameFile? ==>
              var files, oldPath, newPath := After(c, w, step).files, step.request.oldPath, step.request.newPath;
              && oldPath in w.files && newPath in files && files[newPath] == w.files[oldPath]
              && (oldPath != newPath ==> oldPath !in files)
              && (path != oldPath && path != newPath ==>
                    (path in files <==> path in w.files) && (path in files ==> files[path] == w.files[path]))
  {}

  /** A descriptor sent to the server is for the path asked for, in a way the policy allows: a
      file opened for writing is empty, one opened for reading is as it was. */
  lemma OnlyAllowedGrants(c: Config, w: World, step: Step, grant: Grant)
    requires Answer(c, w, step) == Some(FileOpened(grant))
    ensures step.request.OpenFile? && step.request.path == grant.path
    ensures grant.Reading? ==>
              && OpenDecision(c.defs, grant.path, 'r').Some?
              && grant.path in w.files && After(c, w, step) == w
    ensures grant.Writing? ==>
              && OpenDecision(c.defs, grant.path, 'w').Some?
              && After(c, w, step) == w.(files := w.files[grant.path := ""])
  {
    OnlyReadOrWrite(c.defs, step.request.path, step.request.mode);
  }

  // ----- The same, after start-up.

  function Started(s: Settings): Config
    requires Resolved(s)
  {
    Config(ExecutorDefinitions(s), s.localAuthDir)
  }

  /** The paths that may be written once the macros are defined. */
  predicate Listed(p: Paths, path: CString) {
    || path == p.current || path == p.current + ".bak"
    || path == p.planned || path == p.planned + ".bak"
    || path == p.password || path == p.password + ".bak"
    || p.trust + "/" <= path || p.crl + "/" <= path
  }

  /** After start-up the policy lets exactly the configured paths be opened, renamed and removed. */
  lemma DecisionsAfterStartUp(s: Settings, path: CString, mode: char, newPath: CString)
    requires Resolved(s) && AllLiteral(PathsOf(s))
    ensures OpenDecision(Started(s).defs, path, mode) == Openable(PathsOf(s), path, mode)
    ensures MayRename(Started(s).defs, path, newPath) <==> Renamable(PathsOf(s), path, newPath)
    ensures MayRemove(Started(s).defs, path) <==> Removable(PathsOf(s), path)
  {
    PolicyMacrosDefined(s);
    OpenExactly(Started(s).defs, PathsOf(s), path, mode);
    RenameExactly(Started(s).defs, PathsOf(s), path, newPath);
    RemoveExactly(Started(s).defs, PathsOf(s), path);
  }

  /** After start-up, opening is granted exactly if the policy lists path and mode and the system
      gives a descriptor for the file, or for a new one that is to be written. */
  lemma OpenGrantedExactly(s: Settings, w: World, path: CString, mode: char, env: Env)
    requires Resolved(s) && AllLiteral(PathsOf(s))
    ensures Answer(Started(s), w, Serve(OpenFile(path, mode), env)) == Some(
              if Openable(PathsOf(s), path, mode).Some? && Usable(env.first, w.fds)
                 && (path in w.files || (mode == 'w' && Usable(env.second, w.fds) && env.chmodOk))
              then FileOpened(if mode == 'r' then Reading(path) else Writing(path))
              else Status(-1))
  {
    DecisionsAfterStartUp(s, path, mode, path);
  }

  /** After start-up, removing and renaming succeed exactly if the policy lists the paths, the file
      is there and the system lets it be done. */
  lemma FileRequestsSucceedExactly(s: Settings, w: World, path: CString, newPath: CString, env: Env)
    requires Resolved(s) && AllLiteral(PathsOf(s))
    ensures Answer(Started(s), w, Serve(RemoveFile(path), env)) ==
            Some(Status(if Removable(PathsOf(s), path) && path in w.files && env.unlinkOk then 0 else -1))
    ensures Answer(Started(s), w, Serve(RenameFile(path, newPath), env)) ==
            Some(Status(if Renamable(PathsOf(s), path, newPath) && path in w.files && env.renameOk then 0 else -1))
  {
    DecisionsAfterStartUp(s, path, 'r', newPath);
  }

  /** What a request that fails leaves: opening a new file may leave it empty, everything else is as
      it was. */
  lemma FailureChangesNothing(c: Config, w: World, step: Step)
    requires step.Serve? && (step.request.OpenFile? || step.request.RemoveFile? || step.request.RenameFile?)
    requires Answer(c, w, step) == Some(Status(-1))
    ensures After(c, w, step) == w ||
            (&& step.request.OpenFile? && step.request.path !in w.files && !step.env.chmodOk
             && After(c, w, step) == w.(files := w.files[step.request.path := ""]))
  {}

  /** What the system decides about a password, a user or a log level is told as it is, and a
      request that only asks changes nothing. */
  lemma VerdictIsTold(c: Config, w: World, step: Step)
    requires step.Serve?
    ensures step.request.AuthenticatePassword? || step.request.ValidateUser? || step.request.UpdateLogLevel? ==>
              Answer(c, w, step) == Some(Status(step.env.verdict)) && After(c, w, step) == w
    ensures step.request.Ping? <==> Answer(c, w, step) == Some(Pong)
    ensures step.request.Ping? ==> After(c, w, step) == w
  {}

  /** After start-up the executor has a program for every kind of agent, so that no request is
      fatal. */
  lemma AgentsAreThere(s: Settings, w: World, request: Request, env: Env)
    requires Resolved(s)
    ensures Handled(Started(s), w, request, env).Lives?
  {
    PolicyMacrosDefined(s);
  }

  /** An agent program of the bin directory. */
  function AgentProgram(s: Settings, bitness: nat): CString
    requires Resolved(s)
  {
    Program(s.internalBinDir.value, if bitness == BITNESS_32 then "cimprovagt32" else "cimprovagt")
  }

  /** After start-up an agent is started exactly if the kind of agent and the user are known, there
      are pipes and a process; it is the program of its kind, and runs as that user. */
  lemma AgentStartedExactly(s: Settings, w: World, bitness: nat, mod: CString, user: CString, env: Env)
    requires Resolved(s)
    ensures var step := Serve(StartProviderAgent(bitness, mod, user), env);
            var known := bitness == BITNESS_DEFAULT || bitness == BITNESS_32;
            var able := known && env.knownUser && PipesUsable(env, w.fds);
            var agent := Agent(AgentProgram(s, bitness), user, mod, env.pid);
            && Answer(Started(s), w, step) ==
               Some(if !able then AgentStatus(-1, -1) else AgentStatus(if env.pid >= 0 then 0 else -1, env.pid))
            && After(Started(s), w, step) == if able && env.pid >= 0 then w.(agents := w.agents + [agent]) else w
  {
    PolicyMacrosDefined(s);
  }

  lemma StepKeepsAgents(c: Config, w: World, step: Step)
    requires !(step.Serve? && step.request.StartProviderAgent?)
    ensures After(c, w, step).agents == w.agents
  {}

  /** Whatever requests the executor serves, the processes it starts are the two agent programs of
      the bin directory, and earlier ones stay as they were. */
  lemma {:induction false} OnlyAgents(s: Settings, w: World, steps: seq<Step>)
    requires Resolved(s)
    ensures w.agents <= Final(Started(s), w, steps).agents
    ensures forall agent | agent in Final(Started(s), w, steps).agents && agent !in w.agents ::
              agent.program == AgentProgram(s, BITNESS_DEFAULT) || agent.program == AgentProgram(s, BITNESS_32)
    decreases |steps|
  {
    if steps != [] && !Stops(Started(s), w, steps[0]) {
      if steps[0].Serve? && steps[0].request.StartProviderAgent? {
        var r := steps[0].request;
        AgentStartedExactly(s, w, r.bitness, r.mod, r.user, steps[0].env);
      } else {
        StepKeepsAgents(Started(s), w, steps[0]);
      }
      OnlyAgents(s, After(Started(s), w, steps[0]), steps[1..]);
    }
  }

  lemma WritableExactly(s: Settings, path: CString)
    requires Resolved(s) && AllLiteral(PathsOf(s))
    ensures Writable(Started(s), path) <==> Listed(PathsOf(s), path)
  {
    var c, p := Started(s), PathsOf(s);
    DecisionsAfterStartUp(s, path, 'w', path);
    forall oldPath: CString ensures MayRename(c.defs, oldPath, path) <==> Renamable(p, oldPath, path) {
      DecisionsAfterStartUp(s, oldPath, 'w', path);
    }
    if Listed(p, path) && OpenDecision(c.defs, path, 'w').None? {
      assert MayRename(c.defs, p.current, path) || MayRename(c.defs, p.planned, path)
          || MayRename(c.defs, p.password, path);
    }
  }

  lemma ChallengeStarts(dir: CString, user: CString, seqNo: nat, ms: nat)
    requires |dir| + |STEM| <= MAX_LENGTH
    ensures dir + STEM <= ChallengePath(dir, user, seqNo, ms)
  {
    var rest := user + Ending(seqNo, ms);
    assert FullPath(dir, user, seqNo, ms) == (dir + STEM) + rest;
    CutPrefix(dir + STEM, rest);
  }

  lemma {:induction false} SanctionedStarts(c: Config, w: World, steps: seq<Step>, path: CString)
    requires Sanctioned(c, w, steps, path) && |c.dir| + |STEM| <= MAX_LENGTH
    ensures c.dir + STEM <= path || exists i | 0 <= i < |steps| :: steps[i].Place? && steps[i].path == path
    decreases |steps|
  {
    if ChallengeOf(c, w, steps[0]) == Some(path) {
      ChallengeStarts(c.dir, steps[0].request.user, w.next, steps[0].env.usec / 1000);
    } else if !(steps[0].Place? && steps[0].path == path) {
      SanctionedStarts(c, After(c, w, steps[0]), steps[1..], path);
      if !(c.dir + STEM <= path) {
        var i :| 0 <= i < |steps[1..]| && steps[1..][i].Place? && steps[1..][i].path == path;
        assert steps[i + 1] == steps[1..][i];
      }
    }
  }

  /** From the settings to the files: whatever requests the executor serves, it writes only the
      configuration and password files and their backups, files of the trust and CRL stores, and
      files of the challenge directory that start with the name of a challenge. */
  lemma WrittenFiles(s: Settings, w: World, steps: seq<Step>, path: CString)
    requires Resolved(s) && AllLiteral(PathsOf(s)) && |s.localAuthDir| + |STEM| <= MAX_LENGTH
    requires forall i | 0 <= i < |steps| && steps[i].Place? :: steps[i].path != path
    requires !Undisturbed(w, Final(Started(s), w, steps), path)
    ensures Listed(PathsOf(s), path) || s.localAuthDir + STEM <= path
  {
    OnlySanctionedWrites(Started(s), w, steps, path);
    WritableExactly(s, path);
    if Sanctioned(Started(s), w, steps, path) {
      SanctionedStarts(Started(s), w, steps, path);
    }
  }

  // ----- Descriptors and the report of the end of the start-up.

  predicate Daemonizes(step: Step) {
    step.Serve? && step.request.DaemonizeExecutor?
  }

  /** A run reaches a request to daemonize. */
  predicate Reports(c: Config, w: World, steps: seq<Step>)
    decreases |steps|
  {
    steps != [] && !Stops(c, w, steps[0]) &&
    (Daemonizes(steps[0]) || Reports(c, After(c, w, steps[0]), steps[1..]))
  }

  /** What a request to daemonize leaves of the descriptors and of the pipe. */
  predicate Reported(w: World, after: World) {
    && after.pipe == -1 && after.fds == w.fds - {w.pipe}
    && after.notices == w.notices + 1 && after.closes == w.closes + 1
  }

  predicate Silent(w: World, after: World) {
    after.pipe == w.pipe && after.fds == w.fds && after.notices == w.notices && after.closes == w.closes
  }

  lemma StepKeepsDescriptors(c: Config, w: World, step: Step)
    ensures if Daemonizes(step) && w.pipe >= 0 then Reported(w, After(c, w, step)) else Silent(w, After(c, w, step))
    ensures Daemonizes(step) ==> Answer(c, w, step) == Some(Status(0))
  {}

  /** Over every run the executor gains no descriptor and loses none but the pipe: that one is
      written once and closed once, if a request to daemonize is served at all. */
  lemma {:induction false} RunKeepsDescriptors(c: Config, w: World, steps: seq<Step>)
    ensures if w.pipe >= 0 && Reports(c, w, steps) then Reported(w, Final(c, w, steps))
            else Silent(w, Final(c, w, steps))
    decreases |steps|
  {
    if steps != [] && !Stops(c, w, steps[0]) {
      StepKeepsDescriptors(c, w, steps[0]);
      RunKeepsDescriptors(c, After(c, w, steps[0]), steps[1..]);
    }
  }
}

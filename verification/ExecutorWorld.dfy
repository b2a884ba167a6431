/** What the requests to the executor do to files, descriptors and the executor's own state
    (src/Executor/Parent.c, src/Executor/LocalAuth.c). */
module ExecutorWorld {
  import opened Wrappers
  import opened CStrings
  import opened Macros
  import opened Policy
  import opened ChallengePaths
  import opened Tokens

  /** What stays the same while the executor runs: its macros and the directory of challenges. */
  datatype Config = Config(defs: Definitions, dir: CString)

  // BITNESS_DEFAULT and BITNESS_32 of src/Executor/Defines.h.
  const BITNESS_DEFAULT := 1
  const BITNESS_32 := 2

  datatype Request =
    | Ping
    | OpenFile(path: CString, mode: char)
    | StartProviderAgent(bitness: nat, mod: CString, user: CString)
    | DaemonizeExecutor
    | RemoveFile(path: CString)
    | RenameFile(oldPath: CString, newPath: CString)
    | AuthenticatePassword(user: CString, password: CString, remote: bool)
    | ValidateUser(user: CString)
    | ChallengeLocal(user: CString)
    | AuthenticateLocal(challenge: CString, response: CString)
    | UpdateLogLevel(level: CString)

  /** A process started for a provider module: its program, the user it runs as, the module. */
  datatype Agent = Agent(program: CString, user: CString, mod: CString, pid: int)

  /** The state: files by path, open descriptors, the pipe that reports the end of the start-up
      (-1 for none), the next sequence number, how often that pipe was written and closed, and the
      agents started. */
  datatype World = World(files: map<CString, string>, fds: set<nat>, pipe: int, next: nat,
                         notices: nat, closes: nat, agents: seq<Agent>)

  /** The outcome of a call that makes a descriptor. */
  datatype Descriptor = Refused | Opens(fd: nat)

  /** What the system calls made for one request come back with. */
  datatype Env = Env(
    first: Descriptor, second: Descriptor, chmodOk: bool,
    toRead: Descriptor, toWrite: Descriptor, fromRead: Descriptor, fromWrite: Descriptor, pid: int,
    knownUser: bool, usec: nat, random: Seed,
    unlinkOk: bool, renameOk: bool, written: nat, chownOk: bool, cleanupOk: bool, readOk: bool,
    verdict: int, passOk: bool)

  datatype Grant = Reading(path: CString) | Writing(path: CString)

  /** The answer to a request, and the descriptors sent after it. */
  datatype Reply =
    | Pong
    | Status(status: int)
    | FileOpened(grant: Grant)
    | AgentStatus(status: int, pid: int)
    | Challenge(status: int, path: CString)

  datatype Outcome = Dies | Lives(world: World, reply: Reply)

  predicate Usable(d: Descriptor, fds: set<nat>) {
    d.Opens? && d.fd !in fds
  }

  // ----- Opening, renaming and removing files.

  function Opened(c: Config, w: World, path: CString, mode: char, env: Env): Outcome {
    if OpenDecision(c.defs, path, mode).None? then Lives(w, Status(-1))
    else if path in w.files then
      if !Usable(env.first, w.fds) then Lives(w, Status(-1))
      else if mode == 'r' then Lives(w, FileOpened(Reading(path)))
      else Lives(w.(files := w.files[path := ""]), FileOpened(Writing(path)))
    else if mode == 'r' || !Usable(env.first, w.fds) || !Usable(env.second, w.fds) then Lives(w, Status(-1))
    else
      Lives(w.(files := w.files[path := ""]), if env.chmodOk then FileOpened(Writing(path)) else Status(-1))
  }

  function Renamed(c: Config, w: World, oldPath: CString, newPath: CString, env: Env): Outcome {
    if !MayRename(c.defs, oldPath, newPath) || oldPath !in w.files || !env.renameOk then Lives(w, Status(-1))
    else Lives(w.(files := (w.files - {oldPath})[newPath := w.files[oldPath]]), Status(0))
  }

  function Removed(c: Config, w: World, path: CString, env: Env): Outcome {
    if !MayRemove(c.defs, path) || path !in w.files || !env.unlinkOk then Lives(w, Status(-1))
    else Lives(w.(files := w.files - {path}), Status(0))
  }

  // ----- Provider agents and the end of the start-up.

  /** Four descriptors that are free and different. */
  predicate PipesUsable(env: Env, fds: set<nat>) {
    && Usable(env.toRead, fds) && Usable(env.toWrite, fds + {env.toRead.fd})
    && Usable(env.fromRead, fds + {env.toRead.fd, env.toWrite.fd})
    && Usable(env.fromWrite, fds + {env.toRead.fd, env.toWrite.fd, env.fromRead.fd})
  }

  function AgentStarted(c: Config, w: World, bitness: nat, mod: CString, user: CString, env: Env): Outcome {
    var program := Lookup(c.defs, if bitness == BITNESS_DEFAULT then "cimprovagtPath" else "cimprovagt32Path");
    if bitness != BITNESS_DEFAULT && bitness != BITNESS_32 then Lives(w, AgentStatus(-1, -1))
    else if program.None? then Dies
    else if !env.knownUser || !PipesUsable(env, w.fds) then Lives(w, AgentStatus(-1, -1))
    else if env.pid < 0 then Lives(w, AgentStatus(-1, env.pid))
    else Lives(w.(agents := w.agents + [Agent(program.value, user, mod, env.pid)]), AgentStatus(0, env.pid))
  }

  function Daemonized(w: World): Outcome {
    if w.pipe < 0 then Lives(w, Status(0))
    else
      Lives(w.(fds := w.fds - {w.pipe}, pipe := -1, notices := w.notices + 1, closes := w.closes + 1), Status(0))
  }

  // ----- Local authentication.

  /** The files after a challenge file was asked for, and whether it was made. */
  function Created(w: World, path: CString, env: Env): (map<CString, string>, bool) {
    var token := HexText(env.random);
    if path in w.files && !env.unlinkOk then (w.files, false)
    else if !Usable(env.first, w.fds) then (w.files - {path}, false)
    else if env.written < |token| then
      (if env.cleanupOk then w.files - {path} else w.files[path := token[..env.written]], false)
    else if !env.chownOk then (if env.cleanupOk then w.files - {path} else w.files[path := token], false)
    else (w.files[path := token], true)
  }

  function Challenged(c: Config, w: World, user: CString, env: Env): Outcome {
    if !env.knownUser then Lives(w, Challenge(-1, ""))
    else
      var path := ChallengePath(c.dir, user, w.next, env.usec / 1000);
      var made := Created(w, path, env);
      var after := w.(files := made.0, next := (w.next + 1) % WRAP);
      Lives(after, if made.1 then Challenge(0, path) else Challenge(-1, ""))
  }

  /** Whether the response is the token in the file. */
  predicate TokenMatches(w: World, path: CString, response: CString, env: Env) {
    && path in w.files && Usable(env.first, w.fds) && env.readOk
    && |w.files[path]| >= TOKEN_LENGTH && Text(w.files[path][..TOKEN_LENGTH]) == response
  }

  function Authenticated(w: World, path: CString, response: CString, env: Env): Outcome {
    var files := if env.unlinkOk then w.files - {path} else w.files;
    Lives(w.(files := files), Status(if TokenMatches(w, path, response, env) then 0 else -1))
  }

  function Handled(c: Config, w: World, request: Request, env: Env): Outcome {
    match request
    case Ping => Lives(w, Pong)
    case OpenFile(path, mode) => Opened(c, w, path, mode, env)
    case StartProviderAgent(bitness, mod, user) => AgentStarted(c, w, bitness, mod, user, env)
    case DaemonizeExecutor => Daemonized(w)
    case RemoveFile(path) => Removed(c, w, path, env)
    case RenameFile(oldPath, newPath) => Renamed(c, w, oldPath, newPath, env)
    case AuthenticatePassword(_, _, _) => Lives(w, Status(env.verdict))
    case ValidateUser(_) => Lives(w, Status(env.verdict))
    case ChallengeLocal(user) => Challenged(c, w, user, env)
    case AuthenticateLocal(challenge, response) => Authenticated(w, challenge, response, env)
    case UpdateLogLevel(_) => Lives(w, Status(env.verdict))
  }

  // ----- Runs: requests, and what other processes do to files.

  datatype Step =
    | Serve(request: Request, env: Env)
    | Place(path: CString, content: string)
    | Delete(path: CString)

  function Answer(c: Config, w: World, step: Step): Option<Reply> {
    if step.Serve? && Handled(c, w, step.request, step.env).Lives?
    then Some(Handled(c, w, step.request, step.env).reply)
    else None
  }

  /** The state after a step; an executor that dies changes nothing more. */
  function After(c: Config, w: World, step: Step): World {
    match step
    case Serve(request, env) =>
      var o := Handled(c, w, request, env);
      if o.Lives? then o.world else w
    case Place(path, content) => w.(files := w.files[path := content])
    case Delete(path) => w.(files := w.files - {path})
  }

  predicate Stops(c: Config, w: World, step: Step) {
    step.Serve? && Handled(c, w, step.request, step.env).Dies?
  }

  function Final(c: Config, w: World, steps: seq<Step>): World
    decreases |steps|
  {
    if steps == [] || Stops(c, w, steps[0]) then w else Final(c, After(c, w, steps[0]), steps[1..])
  }
}

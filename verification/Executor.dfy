/** The executor and its request handlers (src/Executor/Parent.c, src/Executor/LocalAuth.c). */
module Executor {
  import opened Wrappers
  import opened CStrings
  import opened Macros
  import opened Policy
  import opened PolicyDecisions
  import opened ChallengePaths
  import opened Tokens
  import opened ExecutorWorld

  lemma Overwritten(files: map<CString, string>, path: CString, text: string)
    ensures var cleared: map<CString, string> := files - {path}; var made: map<CString, string> := cleared[path := ""];
            made - {path} == cleared && made[path := text] == files[path := text]
  {}

  class Executor {
    const macros: MacroTable
    const sequence: Sequence
    const dir: CString
    var files: map<CString, string>
    var fds: set<nat>
    var initCompletePipe: int
    var notices: nat
    var closes: nat
    var agents: seq<Agent>

    constructor (macros: MacroTable, dir: CString, files: map<CString, string>, fds: set<nat>, initCompletePipe: int)
      requires macros.Valid()
      ensures Valid() && this.macros == macros && this.dir == dir && fresh(sequence)
      ensures State() == World(files, fds, initCompletePipe, 1, 0, 0, [])
    {
      this.macros, this.dir, this.files, this.fds := macros, dir, files, fds;
      this.initCompletePipe, notices, closes, agents := initCompletePipe, 0, 0, [];
      sequence := new Sequence();
    }

    ghost predicate Valid()
      reads this, sequence, macros, macros.owned
    {
      macros.Valid() && sequence.next < WRAP
    }

    ghost function Settled(): Config
      reads macros
    {
      Config(macros.Contents(), dir)
    }

    function State(): World
      reads this, sequence
    {
      World(files, fds, initCompletePipe, sequence.next, notices, closes, agents)
    }

    // ----- System calls, with the outcomes the environment chooses.

    /** Open a file that is there; the second result tells a missing file from other failures. */
    method Open(path: CString, truncate: bool, d: Descriptor) returns (fd: int, missing: bool)
      modifies this`files, this`fds
      ensures missing <==> Usable(d, old(fds)) && path !in old(files)
      ensures if Usable(d, old(fds)) && path in old(files)
              then fd == d.fd && fds == old(fds) + {d.fd}
                   && files == if truncate then old(files)[path := ""] else old(files)
              else fd == -1 && fds == old(fds) && files == old(files)
    {
      if !Usable(d, fds) {
        return -1, false;
      }
      if path !in files {
        return -1, true;
      }
      fds := fds + {d.fd};
      if truncate {
        files := files[path := ""];
      }
      return d.fd, false;
    }

    /** Make a file that is not there. */
    method Create(path: CString, d: Descriptor) returns (fd: int)
      requires path !in files
      modifies this`files, this`fds
      ensures if Usable(d, old(fds)) then fd == d.fd && fds == old(fds) + {d.fd} && files == old(files)[path := ""]
              else fd == -1 && fds == old(fds) && files == old(files)
    {
      if !Usable(d, fds) {
        return -1;
      }
      fds := fds + {d.fd};
      files := files[path := ""];
      return d.fd;
    }

    method Close(fd: int)
      modifies this`fds
      ensures fds == if fd >= 0 then old(fds) - {fd} else old(fds)
    {
      if fd >= 0 {
        fds := fds - {fd};
      }
    }

    method Unlink(path: CString, ok: bool) returns (status: int)
      modifies this`files
      ensures files == if ok then old(files) - {path} else old(files)
      ensures status == if ok && path in old(files) then 0 else -1
    {
      if !ok || path !in files {
        assert path !in files ==> files - {path} == files;
        return -1;
      }
      files := files - {path};
      return 0;
    }

    method Pipe(reader: Descriptor, writer: Descriptor) returns (status: int)
      modifies this`fds
      ensures if Usable(reader, old(fds)) && Usable(writer, old(fds) + {reader.fd})
              then status == 0 && fds == old(fds) + {reader.fd, writer.fd}
              else status == -1 && fds == old(fds)
    {
      if !Usable(reader, fds) || !Usable(writer, fds + {reader.fd}) {
        return -1;
      }
      fds := fds + {reader.fd, writer.fd};
      return 0;
    }

    // ----- Files.

    /** The file opened by the mode; a missing file is created for writing, and given its
        permissions. */
    method OpenByMode(path: CString, mode: char, env: Env) returns (status: int, fd: int)
      requires mode == 'r' || mode == 'w'
      modifies this`files, this`fds
      ensures status == 0 ==> fd >= 0 && fd !in old(fds) && fds == old(fds) + {fd}
      ensures status != 0 ==> status == -1 && fds == old(fds)
      ensures status == 0 <==>
              && Usable(env.first, old(fds))
              && (path in old(files) || (mode == 'w' && Usable(env.second, old(fds)) && env.chmodOk))
      ensures files ==
              if Usable(env.first, old(fds)) && mode == 'w'
                 && (path in old(files) || Usable(env.second, old(fds)))
              then old(files)[path := ""] else old(files)
    {
      var missing;
      status := 0;
      fd, missing := Open(path, mode == 'w', env.first);
      if fd == -1 {
        if missing && mode == 'w' {
          fd := Create(path, env.second);
          if fd == -1 || !env.chmodOk {
            status := -1;
            Close(fd);
          }
        } else {
          status := -1;
        }
      }
    }

    method HandleOpenFileRequest(path: CString, mode: char, env: Env) returns (reply: Reply)
      requires Valid()
      modifies this`files, this`fds
      ensures Valid() && fds == old(fds)
      ensures Lives(State(), reply) == Opened(Settled(), old(State()), path, mode, env)
    {
      OnlyReadOrWrite(macros.Contents(), path, mode);
      var allowed, permissions := CheckOpenFilePolicy(macros, path, mode);
      if allowed != 0 {
        return Status(-1);
      }
      var status, fd := OpenByMode(path, mode, env);
      if status != 0 {
        return Status(-1);
      }
      Close(fd);
      reply := FileOpened(if mode == 'r' then Reading(path) else Writing(path));
    }

    method HandleRenameFileRequest(oldPath: CString, newPath: CString, env: Env) returns (reply: Reply)
      requires Valid()
      modifies this`files
      ensures Valid()
      ensures Lives(State(), reply) == Renamed(Settled(), old(State()), oldPath, newPath, env)
    {
      var allowed := CheckRenameFilePolicy(macros, oldPath, newPath);
      if allowed != 0 || oldPath !in files || !env.renameOk {
        return Status(-1);
      }
      files := (files - {oldPath})[newPath := files[oldPath]];
      return Status(0);
    }

    method HandleRemoveFileRequest(path: CString, env: Env) returns (reply: Reply)
      requires Valid()
      modifies this`files
      ensures Valid()
      ensures Lives(State(), reply) == Removed(Settled(), old(State()), path, env)
    {
      var allowed := CheckRemoveFilePolicy(macros, path);
      if allowed != 0 {
        return Status(-1);
      }
      var status := Unlink(path, env.unlinkOk);
      assert path !in old(files) ==> files == old(files);
      return Status(status);
    }

    // ----- Provider agents and the end of the start-up.

    /** The descriptors of both pipes, or none. */
    method OpenPipes(env: Env) returns (status: int)
      modifies this`fds
      ensures status == if PipesUsable(env, old(fds)) then 0 else -1
      ensures fds == if PipesUsable(env, old(fds))
                     then old(fds) + {env.toRead.fd, env.toWrite.fd} + {env.fromRead.fd, env.fromWrite.fd}
                     else old(fds)
    {
      status := Pipe(env.toRead, env.toWrite);
      if status != 0 {
        return;
      }
      status := Pipe(env.fromRead, env.fromWrite);
      assert fds + {env.toRead.fd, env.toWrite.fd} == fds;
      if status != 0 {
        Close(env.toRead.fd);
        Close(env.toWrite.fd);
        assert fds == old(fds);
      }
    }

    /** Fork, and close every end of the pipes in this process: without a child at once, otherwise
        the child's ends first and the others once they are sent. */
    method ForkAgent(program: CString, mod: CString, user: CString, env: Env) returns (reply: Reply)
      requires env.toRead.Opens? && env.toWrite.Opens? && env.fromRead.Opens? && env.fromWrite.Opens?
      modifies this`fds, this`agents
      ensures fds == old(fds) - {env.toRead.fd, env.toWrite.fd, env.fromRead.fd, env.fromWrite.fd}
      ensures agents == if env.pid < 0 then old(agents) else old(agents) + [Agent(program, user, mod, env.pid)]
      ensures reply == AgentStatus(if env.pid < 0 then -1 else 0, env.pid)
    {
      if env.pid < 0 {
        Close(env.toRead.fd);
        Close(env.toWrite.fd);
        Close(env.fromRead.fd);
        Close(env.fromWrite.fd);
        return AgentStatus(-1, env.pid);
      }
      // The child becomes the agent.
      agents := agents + [Agent(program, user, mod, env.pid)];
      Close(env.toRead.fd);
      Close(env.fromWrite.fd);
      Close(env.fromRead.fd);
      Close(env.toWrite.fd);
      return AgentStatus(0, env.pid);
    }

    /** None for an agent program whose path is not defined, which is fatal. */
    method HandleStartProviderAgentRequest(bitness: nat, mod: CString, user: CString, env: Env)
      returns (reply: Option<Reply>)
      requires Valid()
      modifies this`fds, this`agents
      ensures Valid() && fds == old(fds)
      ensures (if reply.Some? then Lives(State(), reply.value) else Dies) ==
              AgentStarted(Settled(), old(State()), bitness, mod, user, env)
      ensures reply.None? ==> agents == old(agents)
    {
      if bitness != BITNESS_DEFAULT && bitness != BITNESS_32 {
        return Some(AgentStatus(-1, -1));
      }
      var path := macros.FindMacro(if bitness == BITNESS_DEFAULT then "cimprovagtPath" else "cimprovagt32Path");
      if path.None? {
        return None;
      }
      if !env.knownUser {
        return Some(AgentStatus(-1, -1));
      }
      var status := OpenPipes(env);
      if status != 0 {
        return Some(AgentStatus(-1, -1));
      }
      var answer := ForkAgent(path.value, mod, user, env);
      assert fds == old(fds);
      return Some(answer);
    }

    method HandleDaemonizeExecutorRequest() returns (reply: Reply)
      requires Valid()
      modifies this`fds, this`initCompletePipe, this`notices, this`closes
      ensures Valid()
      ensures Lives(State(), reply) == Daemonized(old(State()))
    {
      if initCompletePipe >= 0 {
        notices := notices + 1;
        Close(initCompletePipe);
        closes := closes + 1;
        initCompletePipe := -1;
      }
      return Status(0);
    }

    // ----- Local authentication.

    method FillToken(random: Seed) returns (token: CString)
      ensures token == HexText(random)
    {
      var data := new Byte[TOKEN_LENGTH / 2](i requires 0 <= i < TOKEN_LENGTH / 2 => random[i]);
      var ascii := new char[TOKEN_LENGTH + 1];
      RandBytesToHexASCII(data, TOKEN_LENGTH / 2, ascii);
      assert data[..TOKEN_LENGTH / 2] == random;
      assert ascii[..][..TOKEN_LENGTH] == HexText(random);
      TextIs(ascii[..], TOKEN_LENGTH);
      token := Text(ascii[..]);
    }

    /** Write the token to the new file and give it to the user; if that fails, remove the file. */
    method WriteToken(path: CString, token: CString, fd: int, env: Env) returns (status: int)
      requires fd >= 0
      modifies this`files, this`fds
      ensures fds == old(fds) - {fd} && (status == 0 || status == -1)
      ensures status == 0 <==> env.written >= |token| && env.chownOk
      ensures files == if status != 0 && env.cleanupOk then old(files) - {path}
                       else old(files)[path := if env.written < |token| then token[..env.written] else token]
    {
      files := files[path := if env.written < |token| then token[..env.written] else token];
      status := if env.written < |token| || !env.chownOk then -1 else 0;
      Close(fd);
      if status != 0 {
        var _ := Unlink(path, env.cleanupOk);
        assert env.cleanupOk ==> files == old(files) - {path};
      }
    }

    method RemoveExisting(path: CString, ok: bool) returns (status: int)
      modifies this`files
      ensures status == if path in old(files) && !ok then -1 else 0
      ensures files == if status == 0 then old(files) - {path} else old(files)
    {
      status := 0;
      if path in files {
        status := Unlink(path, ok);
      } else {
        assert files == files - {path};
      }
    }

    method CreateLocalAuthFile(path: CString, env: Env) returns (status: int)
      modifies this`files, this`fds
      ensures fds == old(fds)
      ensures (files, status == 0) == ExecutorWorld.Created(old(State()), path, env) && (status == 0 || status == -1)
    {
      var token := FillToken(env.random);
      status := RemoveExisting(path, env.unlinkOk);
      if status != 0 {
        return;
      }
      var fd := Create(path, env.first);
      if fd < 0 {
        return -1;
      }
      status := WriteToken(path, token, fd, env);
      assert fds == old(fds);
      Overwritten(old(files), path, if env.written < |token| then token[..env.written] else token);
    }

    /** Compare the token with the one in the file. */
    method CheckLocalAuthToken(path: CString, token: CString, env: Env) returns (status: int)
      modifies this`files, this`fds
      ensures files == old(files) && fds == old(fds)
      ensures status == if TokenMatches(old(State()), path, token, env) then 0 else -1
    {
      var fd, missing := Open(path, false, env.first);
      if fd < 0 {
        return -1;
      }
      if !env.readOk || |files[path]| < TOKEN_LENGTH {
        Close(fd);
        return -1;
      }
      var buffer := files[path][..TOKEN_LENGTH];
      status := if token == Text(buffer) then 0 else -1;
      Close(fd);
    }

    method HandleChallengeLocalRequest(user: CString, env: Env) returns (reply: Reply)
      requires Valid()
      modifies this`files, this`fds, sequence
      ensures Valid() && fds == old(fds)
      ensures Lives(State(), reply) == Challenged(Settled(), old(State()), user, env)
    {
      if !env.knownUser {
        return Challenge(-1, "");
      }
      var path := new char[BUFFER_SIZE];
      sequence.BuildLocalAuthFilePath(dir, user, env.usec, path);
      var challenge := Text(path[..]);
      ghost var before := State();
      var status := CreateLocalAuthFile(challenge, env);
      assert ExecutorWorld.Created(before, challenge, env) == ExecutorWorld.Created(old(State()), challenge, env);
      reply := if status == 0 then Challenge(0, challenge) else Challenge(-1, "");
    }

    method HandleAuthenticateLocalRequest(challenge: CString, response: CString, env: Env) returns (reply: Reply)
      requires Valid()
      modifies this`files, this`fds
      ensures Valid() && fds == old(fds)
      ensures Lives(State(), reply) == Authenticated(old(State()), challenge, response, env)
    {
      var status := CheckLocalAuthToken(challenge, response, env);
      var _ := Unlink(challenge, env.unlinkOk);
      reply := Status(status);
    }

    // ----- Dispatch.

    method Handle(request: Request, env: Env) returns (reply: Option<Reply>)
      requires Valid()
      modifies this, sequence
      ensures Valid()
      ensures (if reply.Some? then Lives(State(), reply.value) else Dies) ==
              Handled(Settled(), old(State()), request, env)
      ensures reply.None? ==> State() == old(State())
    {
      var r: Reply;
      match request {
        case Ping => r := Pong;
        case OpenFile(path, mode) => r := HandleOpenFileRequest(path, mode, env);
        case StartProviderAgent(bitness, mod, user) =>
          reply := HandleStartProviderAgentRequest(bitness, mod, user, env);
          return;
        case DaemonizeExecutor => r := HandleDaemonizeExecutorRequest();
        case RemoveFile(path) => r := HandleRemoveFileRequest(path, env);
        case RenameFile(oldPath, newPath) => r := HandleRenameFileRequest(oldPath, newPath, env);
        case AuthenticatePassword(_, _, _) => r := Status(env.verdict);
        case ValidateUser(_) => r := Status(env.verdict);
        case ChallengeLocal(user) => r := HandleChallengeLocalRequest(user, env);
        case AuthenticateLocal(challenge, response) => r := HandleAuthenticateLocalRequest(challenge, response, env);
        case UpdateLogLevel(_) => r := Status(env.verdict);
      }
      return Some(r);
    }
  }
}

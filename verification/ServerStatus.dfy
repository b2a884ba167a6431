/** The calls of a server process on its run status and its PID file, each as the steps of the
    start-up protocol that it takes (src/Service/ServerRunStatus.cpp, src/Service/PidFile.cpp). */
module ServerStatus {
  import opened Wrappers
  import opened StartUp

  class PidFileCell {
    /** The PID in the file; 0 for a file that holds none. */
    var content: Option<Pid>

    constructor (content: Option<Pid>)
      ensures this.content == content
    {
      this.content := content;
    }

    /** The file is as in the given state. */
    ghost predicate Mirrors(s: State)
      reads this
    {
      content == if s.pidFile.Some? then Some(s.pidFile.value.pid) else None
    }

    method GetPid(ghost s: State) returns (pid: Pid)
      requires Mirrors(s)
      ensures pid == Content(s)
    {
      if content.None? {
        return 0;
      }
      return content.value;
    }

    method SetPid(pid: Pid, canCreate: bool, ghost s: State)
      requires Mirrors(s) && At(s, pid, Admitted)
      modifies this
      ensures Mirrors(Declared(s, pid, canCreate)) && content == if canCreate then Some(pid) else None
    {
      Remove();
      if canCreate {
        content := Some(pid);
      }
    }

    method Remove()
      modifies this
      ensures content == None
    {
      content := None;
    }
  }

  /** The state once a process has removed the old PID file and written its own PID. */
  ghost function Declared(s: State, p: Pid, canCreate: bool): State
    requires At(s, p, Admitted)
  {
    var cleared := Apply(s, Clear(p));
    if canCreate then Apply(Apply(cleared, Create(p)), Write(p)) else Apply(cleared, CreateFails(p))
  }

  class ServerRunStatus {
    const pidFile: PidFileCell
    const self: Pid
    var parentPid: Pid
    var isRunningServerInstance: bool

    constructor (pidFile: PidFileCell, self: Pid)
      ensures this.pidFile == pidFile && this.self == self && parentPid == 0 && !isRunningServerInstance
    {
      this.pidFile, this.self := pidFile, self;
      parentPid, isRunningServerInstance := 0, false;
    }

    /** This process, its parent and the PID file are as in the given state. */
    ghost predicate Mirrors(s: State)
      reads this, pidFile
    {
      pidFile.Mirrors(s) && self in s.procs && s.procs[self].parent == parentPid
    }

    /** The copy of the object in a forked process. */
    constructor Forked(parent: ServerRunStatus, child: Pid, ghost s: State)
      requires parent.Mirrors(s) && parent.parentPid == parent.self && Enabled(s, Fork(parent.self, child))
      ensures pidFile == parent.pidFile && self == child
      ensures Mirrors(Apply(s, Fork(parent.self, child)))
      ensures isRunningServerInstance == parent.isRunningServerInstance
    {
      pidFile, self := parent.pidFile, child;
      parentPid, isRunningServerInstance := parent.parentPid, parent.isRunningServerInstance;
    }

    /** A process that names itself before it forks is one that was launched. */
    method SetParentPid(parent: Pid, ghost s: State)
      requires pidFile.Mirrors(s) && Enabled(s, Launch(self))
      modifies this`parentPid
      ensures parentPid == parent && (parent == self ==> Mirrors(Apply(s, Launch(self))))
    {
      parentPid := parent;
    }

    /** The start-up test: reading the PID file and deciding, if nothing happens in between. */
    method IsServerRunning(live: set<Pid>, ghost s: State) returns (running: bool)
      requires Mirrors(s) && At(s, self, Locked) && live == s.procs.Keys
      ensures var decided := Apply(Apply(s, Look(self)), Decide(self));
              if running then At(decided, self, Refused) else At(decided, self, Admitted)
      ensures running == FindsServer(s, self, Content(s))
    {
      var pid := pidFile.GetPid(s);
      if pid == 0 {
        return false;
      }
      return pid != self && pid != parentPid && pid in live;
    }

    method SetServerRunning(canCreate: bool, ghost s: State)
      requires Mirrors(s) && At(s, self, Admitted)
      modifies this`isRunningServerInstance, pidFile
      ensures isRunningServerInstance && Mirrors(Declared(s, self, canCreate))
      ensures At(Declared(s, self, canCreate), self, Serving)
      ensures pidFile.content == if canCreate then Some(self) else None
    {
      pidFile.SetPid(self, canCreate, s);
      isRunningServerInstance := true;
    }

    /** Only the process that declared itself the server removes the PID file. */
    method SetServerNotRunning(ghost s: State)
      requires Mirrors(s) && (isRunningServerInstance ==> Enabled(s, RemovePid(self)))
      modifies this`isRunningServerInstance, pidFile
      ensures !isRunningServerInstance
      ensures Mirrors(if old(isRunningServerInstance) then Apply(s, RemovePid(self)) else s)
      ensures pidFile.content == if old(isRunningServerInstance) then None else old(pidFile.content)
    {
      if isRunningServerInstance {
        pidFile.Remove();
        isRunningServerInstance := false;
      }
    }

    /** A shutdown client starts a forced kill by reading the PID file. */
    method KillReads(client: nat, ghost s: State) returns (pid: Pid)
      requires pidFile.Mirrors(s) && client !in s.clients
      ensures Apply(s, KillLook(client)).clients == s.clients[client := Read(pid)]
    {
      pid := pidFile.GetPid(s);
    }

    /** Then it tests the PID against the processes alive by then. */
    method KillTests(pid: Pid, live: set<Pid>, client: nat, ghost s: State) returns (target: bool)
      requires client in s.clients && s.clients[client] == Read(pid) && live == s.procs.Keys
      requires self !in live && parentPid !in live && 0 !in live
      ensures Apply(s, KillTest(client)).clients
           == s.clients[client := if target then Targeting(pid) else Removing(pid)]
    {
      return !(pid == 0 || pid == self || pid == parentPid || pid !in live);
    }

    /** Last it removes the PID file, whatever that holds by then. */
    method KillRemoves(client: nat, ghost s: State)
      requires pidFile.Mirrors(s) && client in s.clients && s.clients[client].Removing?
      modifies pidFile
      ensures pidFile.Mirrors(Apply(s, KillRemove(client))) && pidFile.content == None
    {
      pidFile.Remove();
    }

    /** The whole forced kill, if nothing happens in between; the process to be killed is returned. */
    method Kill(live: set<Pid>, client: nat, ghost s: State) returns (victim: Option<Pid>)
      requires pidFile.Mirrors(s) && client !in s.clients && live == s.procs.Keys
      requires self !in live && parentPid !in live && 0 !in live
      modifies pidFile
      ensures pidFile.Mirrors(AfterKill(s, client)) && pidFile.content == None
      ensures AfterKill(s, client).procs == if victim.Some? then s.procs - {victim.value} else s.procs
      ensures victim == if Content(s) in live then Some(Content(s)) else None
    {
      ActKills(s, client);
      var pid := KillReads(client, s);
      var target := KillTests(pid, live, client, Apply(s, KillLook(client)));
      victim := if target then Some(pid) else None;
      KillRemoves(client, AfterAct(s, client));
    }
  }

  /** The state once a shutdown client has read the PID file and tested the PID. */
  ghost function AfterTest(s: State, client: nat): State
    requires client !in s.clients
  {
    Apply(Apply(s, KillLook(client)), KillTest(client))
  }

  /** The state once it has also killed the process, if there is one. */
  ghost function AfterAct(s: State, client: nat): (t: State)
    requires client !in s.clients
    ensures client in t.clients && t.clients[client].Removing?
  {
    var t := AfterTest(s, client);
    if t.clients[client].Targeting? then Apply(t, KillAct(client)) else t
  }

  /** The state once it has taken all its steps. */
  ghost function AfterKill(s: State, client: nat): State
    requires client !in s.clients
  {
    Apply(AfterAct(s, client), KillRemove(client))
  }

  lemma ActKills(s: State, client: nat)
    requires client !in s.clients
    ensures var t := AfterAct(s, client);
            t.pidFile == s.pidFile && t.procs == if Content(s) in s.procs then s.procs - {Content(s)} else s.procs
    ensures AfterTest(s, client).clients[client].Targeting? <==> Content(s) in s.procs
  {}
}

/** Starting and stopping the server so that at most one runs
    (src/Server/cimserver.cpp, src/Service/ServerRunStatus.cpp, src/Service/PidFile.cpp). */
module StartUp {
  import opened Wrappers

  type Pid = nat

  /** Where a process of the server program is. */
  datatype Phase =
    | Launched             // before the start-up section; may still fork
    | Waiting              // a parent that has forked and only waits
    | Touched              // has made sure that the lock file exists
    | Opened(inode: nat)   // has opened the lock file
    | Locked               // past the lock
    | Looked(seen: Pid)    // has read the PID file; 0 stands for no PID
    | Admitted             // has found no running server
    | Cleared              // has removed the old PID file
    | Writing(file: nat)   // has created the PID file, still empty
    | Serving              // has declared itself the running server
    | Closing              // has stopped serving and removed the lock file
    | Stopped              // has removed the PID file
    | Refused              // has found a running server

  /** A live process: the PID before forking, the lock it holds and its phase. */
  datatype Proc = Proc(parent: Pid, lock: Option<nat>, phase: Phase)

  datatype PidFile = PidFile(inode: nat, pid: Pid)

  /** Where a forced kill of a shutdown client is: it has read the PID file, has found that the
      PID belongs to a live server process, or goes on to remove the file. */
  datatype Client = Read(pid: Pid) | Targeting(pid: Pid) | Removing(pid: Pid)

  /** Live server processes, the two files, and where the shutdown clients are. Lock files
      and PID files are told apart by inode, since a removed file may be created anew. */
  datatype State = State(procs: map<Pid, Proc>, pidFile: Option<PidFile>, lockFile: Option<nat>,
                         clients: map<nat, Client>, next: nat)

  datatype Step =
    | Launch(p: Pid)
    | Fork(p: Pid, child: Pid)
    | Touch(p: Pid)
    | Open(p: Pid)
    | Lock(p: Pid)
    | LockFails(p: Pid)
    | Look(p: Pid)
    | Decide(p: Pid)
    | Clear(p: Pid)
    | Create(p: Pid)
    | CreateFails(p: Pid)
    | Write(p: Pid)
    | Unlock(p: Pid)
    | UnlinkLock(p: Pid)
    | RemovePid(p: Pid)
    | Die(p: Pid)
    | KillLook(client: nat)
    | KillTest(client: nat)
    | KillAct(client: nat)
    | KillRemove(client: nat)

  function Content(s: State): Pid {
    if s.pidFile.Some? then s.pidFile.value.pid else 0
  }

  predicate At(s: State, p: Pid, phase: Phase) {
    p in s.procs && s.procs[p].phase == phase
  }

  function Move(s: State, p: Pid, phase: Phase): State
    requires p in s.procs
  {
    s.(procs := s.procs[p := s.procs[p].(phase := phase)])
  }

  function Born(s: State, p: Pid, parent: Pid): State {
    s.(procs := s.procs[p := Proc(parent, None, Launched)])
  }

  predicate Held(s: State, inode: nat) {
    exists p | p in s.procs :: s.procs[p].lock == Some(inode)
  }

  /** The start-up test: a PID other than the process's own and its parent's, that belongs to
      a live process of the server program. */
  predicate FindsServer(s: State, p: Pid, seen: Pid)
    requires p in s.procs
  {
    seen != 0 && seen != p && seen != s.procs[p].parent && seen in s.procs
  }

  ghost predicate Enabled(s: State, step: Step) {
    match step
    case Launch(p) => p != 0 && p !in s.procs
    case Fork(p, child) => At(s, p, Launched) && child != 0 && child !in s.procs
    case Touch(p) => At(s, p, Launched)
    case Open(p) => At(s, p, Touched)
    case Lock(p) => p in s.procs && s.procs[p].phase.Opened? && !Held(s, s.procs[p].phase.inode)
    case LockFails(p) => p in s.procs && s.procs[p].phase.Opened?
    case Look(p) => At(s, p, Locked)
    case Decide(p) => p in s.procs && s.procs[p].phase.Looked?
    case Clear(p) => At(s, p, Admitted)
    case Create(p) => At(s, p, Cleared)
    case CreateFails(p) => At(s, p, Cleared)
    case Write(p) => p in s.procs && s.procs[p].phase.Writing?
    case Unlock(p) => (At(s, p, Serving) || At(s, p, Refused)) && s.procs[p].lock.Some?
    case UnlinkLock(p) => At(s, p, Serving) && s.procs[p].lock.None?
    case RemovePid(p) => At(s, p, Closing) || (At(s, p, Serving) && s.procs[p].lock.None?)
    case Die(p) => p in s.procs
    case KillLook(client) => client !in s.clients
    case KillTest(client) => client in s.clients && s.clients[client].Read?
    case KillAct(client) => client in s.clients && s.clients[client].Targeting?
    case KillRemove(client) => client in s.clients && s.clients[client].Removing?
  }

  /** The effect of a step. */
  ghost function Apply(s: State, step: Step): State
    requires Enabled(s, step)
  {
    match step
    case Launch(p) => Born(s, p, p)
    case Fork(p, child) => Born(Move(s, p, Waiting), child, p)
    case Touch(p) =>
      var t := Move(s, p, Touched);
      if s.lockFile.None? then t.(lockFile := Some(s.next), next := s.next + 1) else t
    case Open(p) =>
      // The lock file may have been removed since: then there is nothing to lock.
      if s.lockFile.None? then Move(s, p, Locked) else Move(s, p, Opened(s.lockFile.value))
    case Lock(p) =>
      s.(procs := s.procs[p := Proc(s.procs[p].parent, Some(s.procs[p].phase.inode), Locked)])
    case LockFails(p) => Move(s, p, Locked)
    case Look(p) => Move(s, p, Looked(Content(s)))
    case Decide(p) => Move(s, p, if FindsServer(s, p, s.procs[p].phase.seen) then Refused else Admitted)
    case Clear(p) => Move(s, p, Cleared).(pidFile := None)
    case Create(p) =>
      var inode := if s.pidFile.Some? then s.pidFile.value.inode else s.next;
      Move(s, p, Writing(inode)).(pidFile := Some(PidFile(inode, 0)), next := s.next + 1)
    case CreateFails(p) => Move(s, p, Serving)
    case Write(p) =>
      // The PID reaches the file only if the file opened is still the PID file.
      var t := Move(s, p, Serving);
      var file := s.procs[p].phase.file;
      if s.pidFile.Some? && s.pidFile.value.inode == file then t.(pidFile := Some(PidFile(file, p))) else t
    case Unlock(p) => s.(procs := s.procs[p := s.procs[p].(lock := None)])
    case UnlinkLock(p) => Move(s, p, Closing).(lockFile := None)
    case RemovePid(p) => Move(s, p, Stopped).(pidFile := None)
    case Die(p) => s.(procs := s.procs - {p})
    case KillLook(client) => s.(clients := s.clients[client := Read(Content(s))])
    case KillTest(client) =>
      var pid := s.clients[client].pid;
      s.(clients := s.clients[client := if pid in s.procs then Targeting(pid) else Removing(pid)])
    case KillAct(client) =>
      var pid := s.clients[client].pid;
      s.(procs := s.procs - {pid}, clients := s.clients[client := Removing(pid)])
    case KillRemove(client) => s.(pidFile := None, clients := s.clients - {client})
  }

  ghost predicate Runs(s: State, steps: seq<Step>, t: State)
    decreases |steps|
  {
    if steps == [] then s == t
    else Enabled(s, steps[0]) && Runs(Apply(s, steps[0]), steps[1..], t)
  }

  /** No process and no client yet; the files may be left over from anything. */
  predicate Initial(s: State) {
    s.procs == map[] && s.clients == map[] && (s.lockFile.Some? ==> s.lockFile.value < s.next)
  }

  // ----- Safety.

  predicate IsServer(s: State, p: Pid) {
    At(s, p, Serving) || At(s, p, Closing)
  }

  ghost predicate AtMostOneServer(s: State) {
    forall p, q :: IsServer(s, p) && IsServer(s, q) ==> p == q
  }

  ghost predicate ServerIsNamed(s: State) {
    forall p :: IsServer(s, p) ==> Content(s) == p
  }

  // ----- What can go wrong around the protocol.

  datatype Fault =
    | PidReuse     // a starter finds a server that has got the PID of its parent
    | LockLost     // the lock file is gone or cannot be locked, and start-up goes on without it
    | WriteLost    // the PID file cannot be created, and start-up goes on without it
    | EarlyUnlink  // a stopping server removes the lock file that a starter has opened or locked
    | LateKill     // a forced kill removes the PID file of a live server, or one being written

  /** A starter that has opened the lock file or decides under the lock. */
  predicate UsesLock(proc: Proc) {
    proc.phase.Opened? || (proc.lock.Some? && proc.phase != Refused)
  }

  ghost predicate LockInUse(s: State) {
    exists q | q in s.procs :: UsesLock(s.procs[q])
  }

  ghost predicate BeingWritten(s: State) {
    exists q | q in s.procs :: s.procs[q].phase.Writing?
  }

  ghost predicate Faulty(s: State, step: Step, fault: Fault) {
    match fault
    case PidReuse =>
      step.Look? && step.p in s.procs && Content(s) == s.procs[step.p].parent && IsServer(s, Content(s))
    case LockLost => step.LockFails? || (step.Open? && s.lockFile.None?)
    case WriteLost => step.CreateFails?
    case EarlyUnlink => step.UnlinkLock? && LockInUse(s)
    case LateKill => step.KillRemove? && (IsServer(s, Content(s)) || BeingWritten(s))
  }

  ghost predicate Clean(s: State, step: Step) {
    forall fault: Fault :: !Faulty(s, step, fault)
  }

  /** The run has no fault except of the kinds given. */
  ghost predicate OnlyFaults(s: State, steps: seq<Step>, faults: set<Fault>)
    decreases |steps|
  {
    steps != [] && Enabled(s, steps[0]) ==>
      && (forall fault | fault !in faults :: !Faulty(s, steps[0], fault))
      && OnlyFaults(Apply(s, steps[0]), steps[1..], faults)
  }

  // ----- The invariant.

  predicate BeforeLock(phase: Phase) {
    phase == Launched || phase == Touched || phase.Opened?
  }

  predicate InSection(phase: Phase) {
    phase == Locked || phase.Looked? || phase == Admitted || phase == Cleared || phase.Writing?
  }

  predicate Claims(phase: Phase) {
    phase == Admitted || phase == Cleared || phase.Writing? || phase == Serving || phase == Closing
  }

  predicate LockOk(s: State, p: Pid)
    requires p in s.procs
  {
    var proc := s.procs[p];
    && p != 0
    && (proc.phase.Opened? ==> s.lockFile == Some(proc.phase.inode))
    && (proc.lock.Some? && proc.phase != Refused ==> proc.lock == s.lockFile)
    && (InSection(proc.phase) ==> proc.lock.Some?)
    && (proc.lock.Some? ==> InSection(proc.phase) || proc.phase == Serving || proc.phase == Refused)
  }

  predicate FileOk(s: State, p: Pid)
    requires p in s.procs
  {
    && (IsServer(s, p) ==> Content(s) == p)
    && (s.procs[p].phase.Writing? ==> s.pidFile == Some(PidFile(s.procs[p].phase.file, 0)))
    && (s.procs[p].phase == Cleared ==> s.pidFile == None)
  }

  predicate PairOk(s: State, p: Pid, q: Pid)
    requires p in s.procs && q in s.procs && p != q
  {
    var a, b := s.procs[p], s.procs[q];
    && !(a.lock.Some? && b.lock.Some? && a.phase != Refused && b.phase != Refused)
    && !(Claims(a.phase) && Claims(b.phase))
    && (a.phase.Looked? && IsServer(s, q) ==> a.phase.seen == q && a.parent != q)
  }

  ghost predicate Inv(s: State) {
    && (s.lockFile.Some? ==> s.lockFile.value < s.next)
    && (forall p | p in s.procs :: LockOk(s, p) && FileOk(s, p))
    && (forall p, q | p in s.procs && q in s.procs && p != q :: PairOk(s, p, q))
  }

  lemma InvIsSafe(s: State)
    requires Inv(s)
    ensures AtMostOneServer(s) && ServerIsNamed(s)
  {
    forall p | IsServer(s, p) ensures Content(s) == p {
      assert FileOk(s, p);
    }
  }

  /** A step of a server process, not of a shutdown client. */
  predicate Moved(step: Step) {
    !step.KillLook? && !step.KillTest? && !step.KillAct? && !step.KillRemove?
  }

  /** A step does not change the other processes. */
  lemma OthersStay(s: State, step: Step, p: Pid)
    requires Enabled(s, step) && p in s.procs && p in Apply(s, step).procs && (Moved(step) ==> p != step.p)
    ensures Apply(s, step).procs[p] == s.procs[p]
  {}

  /** Nobody else comes about but by being launched or forked. */
  lemma BornOrThere(s: State, step: Step, p: Pid)
    requires Enabled(s, step) && p in Apply(s, step).procs && p !in s.procs
    ensures step == Launch(p) || (step.Fork? && step.child == p)
    ensures Apply(s, step).procs[p].phase == Launched && Apply(s, step).procs[p].lock.None? && p != 0
  {}

  lemma LockFileKept(s: State, step: Step)
    requires Enabled(s, step)
    ensures Apply(s, step).lockFile == s.lockFile || step.UnlinkLock? || (step.Touch? && s.lockFile.None?)
    ensures step.UnlinkLock? ==> Apply(s, step).lockFile.None?
    ensures (s.lockFile.Some? ==> s.lockFile.value < s.next) ==>
              var t := Apply(s, step); t.lockFile.Some? ==> t.lockFile.value < t.next
  {}

  lemma LockKeptByOther(s: State, step: Step, p: Pid)
    requires Enabled(s, step) && p in s.procs && p in Apply(s, step).procs && LockOk(s, p)
    requires (Moved(step) ==> p != step.p) && !Faulty(s, step, EarlyUnlink)
    ensures LockOk(Apply(s, step), p)
  {
    OthersStay(s, step, p);
    LockFileKept(s, step);
    assert step.UnlinkLock? ==> !UsesLock(s.procs[p]);
  }

  lemma LockKeptByActor(s: State, step: Step)
    requires Enabled(s, step) && Moved(step) && step.p in s.procs && step.p in Apply(s, step).procs
    requires LockOk(s, step.p)
    requires !Faulty(s, step, LockLost) && !Faulty(s, step, EarlyUnlink) && !Faulty(s, step, WriteLost)
    ensures LockOk(Apply(s, step), step.p)
  {}

  lemma LockKept(s: State, step: Step, p: Pid)
    requires Enabled(s, step) && p in Apply(s, step).procs
    requires p in s.procs ==> LockOk(s, p)
    requires !Faulty(s, step, LockLost) && !Faulty(s, step, EarlyUnlink) && !Faulty(s, step, WriteLost)
    ensures LockOk(Apply(s, step), p)
  {
    if p !in s.procs {
      BornOrThere(s, step, p);
    } else if Moved(step) && p == step.p {
      LockKeptByActor(s, step);
    } else {
      LockKeptByOther(s, step, p);
    }
  }

  /** Which steps touch the PID file. */
  lemma PidFileKept(s: State, step: Step)
    requires Enabled(s, step)
    ensures var t := Apply(s, step);
            || t.pidFile == s.pidFile
            || (t.pidFile == None && (step.Clear? || step.RemovePid? || step.KillRemove?))
            || step.Create? || step.Write?
    ensures Moved(step) && Apply(s, step).pidFile != s.pidFile ==> step.p in s.procs && Claims(s.procs[step.p].phase)
  {}

  lemma FileKeptByOther(s: State, step: Step, p: Pid)
    requires Enabled(s, step) && p in s.procs && p in Apply(s, step).procs && FileOk(s, p)
    requires Moved(step) ==> p != step.p && (step.p in s.procs ==> PairOk(s, p, step.p))
    requires !Faulty(s, step, LateKill)
    ensures FileOk(Apply(s, step), p)
  {
    OthersStay(s, step, p);
    PidFileKept(s, step);
    assert step.KillRemove? ==> !s.procs[p].phase.Writing?;
  }

  lemma FileKeptByActor(s: State, step: Step)
    requires Enabled(s, step) && Moved(step) && step.p in s.procs && step.p in Apply(s, step).procs
    requires LockOk(s, step.p) && FileOk(s, step.p) && !Faulty(s, step, WriteLost)
    ensures FileOk(Apply(s, step), step.p)
  {}

  lemma FileKept(s: State, step: Step, p: Pid)
    requires Enabled(s, step) && p in Apply(s, step).procs
    requires p in s.procs ==> LockOk(s, p) && FileOk(s, p)
    requires Moved(step) && step.p in s.procs && p in s.procs && p != step.p ==> PairOk(s, p, step.p)
    requires !Faulty(s, step, WriteLost) && !Faulty(s, step, LateKill)
    ensures FileOk(Apply(s, step), p)
  {
    if p !in s.procs {
      BornOrThere(s, step, p);
    } else if Moved(step) && p == step.p {
      FileKeptByActor(s, step);
    } else {
      FileKeptByOther(s, step, p);
    }
  }

  lemma PairKept(s: State, step: Step, p: Pid, q: Pid)
    requires Enabled(s, step) && p in Apply(s, step).procs && q in Apply(s, step).procs && p != q
    requires p in s.procs ==> LockOk(s, p) && FileOk(s, p)
    requires q in s.procs ==> LockOk(s, q) && FileOk(s, q)
    requires p in s.procs && q in s.procs ==> PairOk(s, p, q) && PairOk(s, q, p)
    requires !Faulty(s, step, PidReuse) && !Faulty(s, step, LockLost) && !Faulty(s, step, WriteLost)
    ensures PairOk(Apply(s, step), p, q)
  {
    if p !in s.procs || q !in s.procs {
      PairBorn(s, step, p, q);
    } else if Moved(step) && p == step.p {
      OthersStay(s, step, q);
      FirstOfPair(s, step, q);
    } else if Moved(step) && q == step.p {
      OthersStay(s, step, p);
      SecondOfPair(s, step, p);
    } else {
      OthersStay(s, step, p);
      OthersStay(s, step, q);
    }
  }

  lemma PairBorn(s: State, step: Step, p: Pid, q: Pid)
    requires Enabled(s, step) && p in Apply(s, step).procs && q in Apply(s, step).procs && p != q
    requires p !in s.procs || q !in s.procs
    requires !Faulty(s, step, WriteLost)
    ensures PairOk(Apply(s, step), p, q)
  {
    if p !in s.procs {
      BornOrThere(s, step, p);
    } else {
      BornOrThere(s, step, q);
    }
  }

  /** A step before the test has been passed. */
  predicate Entering(step: Step) {
    step.Touch? || step.Open? || step.Lock? || step.LockFails? || step.Look? || step.Decide?
  }

  lemma FirstEnters(s: State, step: Step, q: Pid)
    requires Enabled(s, step) && Moved(step) && step.p in s.procs && q in s.procs && step.p != q
    requires step.p in Apply(s, step).procs && q in Apply(s, step).procs && Apply(s, step).procs[q] == s.procs[q]
    requires LockOk(s, step.p) && LockOk(s, q) && FileOk(s, q) && PairOk(s, step.p, q) && PairOk(s, q, step.p)
    requires Entering(step) && !Faulty(s, step, PidReuse) && !Faulty(s, step, LockLost)
    ensures PairOk(Apply(s, step), step.p, q)
  {}

  lemma FirstGoesOn(s: State, step: Step, q: Pid)
    requires Enabled(s, step) && Moved(step) && step.p in s.procs && q in s.procs && step.p != q
    requires step.p in Apply(s, step).procs && q in Apply(s, step).procs && Apply(s, step).procs[q] == s.procs[q]
    requires LockOk(s, step.p) && LockOk(s, q) && FileOk(s, q) && PairOk(s, step.p, q) && PairOk(s, q, step.p)
    requires !Entering(step) && !Faulty(s, step, WriteLost)
    ensures PairOk(Apply(s, step), step.p, q)
  {}

  lemma FirstOfPair(s: State, step: Step, q: Pid)
    requires Enabled(s, step) && Moved(step) && step.p in s.procs && q in s.procs && step.p != q
    requires step.p in Apply(s, step).procs && q in Apply(s, step).procs && Apply(s, step).procs[q] == s.procs[q]
    requires LockOk(s, step.p) && LockOk(s, q) && FileOk(s, q) && PairOk(s, step.p, q) && PairOk(s, q, step.p)
    requires !Faulty(s, step, PidReuse) && !Faulty(s, step, LockLost) && !Faulty(s, step, WriteLost)
    ensures PairOk(Apply(s, step), step.p, q)
  {
    if Entering(step) {
      FirstEnters(s, step, q);
    } else {
      FirstGoesOn(s, step, q);
    }
  }

  lemma SecondEnters(s: State, step: Step, p: Pid)
    requires Enabled(s, step) && Moved(step) && step.p in s.procs && p in s.procs && step.p != p
    requires step.p in Apply(s, step).procs && p in Apply(s, step).procs && Apply(s, step).procs[p] == s.procs[p]
    requires LockOk(s, step.p) && LockOk(s, p) && FileOk(s, p) && PairOk(s, step.p, p) && PairOk(s, p, step.p)
    requires Entering(step) && !Faulty(s, step, LockLost)
    ensures PairOk(Apply(s, step), p, step.p)
  {}

  lemma SecondGoesOn(s: State, step: Step, p: Pid)
    requires Enabled(s, step) && Moved(step) && step.p in s.procs && p in s.procs && step.p != p
    requires step.p in Apply(s, step).procs && p in Apply(s, step).procs && Apply(s, step).procs[p] == s.procs[p]
    requires LockOk(s, step.p) && LockOk(s, p) && FileOk(s, p) && PairOk(s, step.p, p) && PairOk(s, p, step.p)
    requires !Entering(step) && !Faulty(s, step, WriteLost)
    ensures PairOk(Apply(s, step), p, step.p)
  {}

  lemma SecondOfPair(s: State, step: Step, p: Pid)
    requires Enabled(s, step) && Moved(step) && step.p in s.procs && p in s.procs && step.p != p
    requires step.p in Apply(s, step).procs && p in Apply(s, step).procs && Apply(s, step).procs[p] == s.procs[p]
    requires LockOk(s, step.p) && LockOk(s, p) && FileOk(s, p) && PairOk(s, step.p, p) && PairOk(s, p, step.p)
    requires !Faulty(s, step, LockLost) && !Faulty(s, step, WriteLost)
    ensures PairOk(Apply(s, step), p, step.p)
  {
    if Entering(step) {
      SecondEnters(s, step, p);
    } else {
      SecondGoesOn(s, step, p);
    }
  }

  lemma StepKeepsInv(s: State, step: Step)
    requires Inv(s) && Enabled(s, step) && Clean(s, step)
    ensures Inv(Apply(s, step))
  {
    var t := Apply(s, step);
    assert !Faulty(s, step, PidReuse) && !Faulty(s, step, LockLost) && !Faulty(s, step, WriteLost);
    assert !Faulty(s, step, EarlyUnlink) && !Faulty(s, step, LateKill);
    LockFileKept(s, step);
    forall p | p in t.procs ensures LockOk(t, p) && FileOk(t, p) {
      LockKept(s, step, p);
      FileKept(s, step, p);
    }
    forall p, q | p in t.procs && q in t.procs && p != q ensures PairOk(t, p, q) {
      PairKept(s, step, p, q);
    }
  }

  lemma {:induction false} CleanRunKeepsInv(s: State, steps: seq<Step>, t: State)
    requires Inv(s) && Runs(s, steps, t) && OnlyFaults(s, steps, {})
    ensures Inv(t)
    decreases |steps|
  {
    if steps != [] {
      StepKeepsInv(s, steps[0]);
      CleanRunKeepsInv(Apply(s, steps[0]), steps[1..], t);
    }
  }

  /** In every interleaving without faults at most one live process serves, and the PID file
      names it. */
  lemma SingleServer(s: State, steps: seq<Step>, t: State)
    requires Initial(s) && Runs(s, steps, t) && OnlyFaults(s, steps, {})
    ensures AtMostOneServer(t) && ServerIsNamed(t)
  {
    CleanRunKeepsInv(s, steps, t);
    InvIsSafe(t);
  }

  /** The process is alive in every state of the run. */
  ghost predicate Lives(s: State, steps: seq<Step>, p: Pid)
    decreases |steps|
  {
    p in s.procs && (steps != [] && Enabled(s, steps[0]) ==> Lives(Apply(s, steps[0]), steps[1..], p))
  }

  /** A process that was refused stays refused as long as it lives, whatever happens and goes
      wrong around it, and none of its steps touches the PID file: it releases the lock and
      dies. */
  lemma {:induction false} RefusedLeavesFile(s: State, steps: seq<Step>, t: State, p: Pid, step: Step)
    requires At(s, p, Refused) && Runs(s, steps, t) && Lives(s, steps, p)
    requires Enabled(t, step) && Moved(step) && step.p == p
    ensures At(t, p, Refused) && (step == Unlock(p) || step == Die(p))
    ensures Apply(t, step).pidFile == t.pidFile && Apply(t, step).lockFile == t.lockFile
    decreases |steps|
  {
    if steps != [] {
      RefusedLeavesFile(Apply(s, steps[0]), steps[1..], t, p, step);
    }
  }

  // ----- What is left of a server that stops, and of one that dies.

  predicate Without(steps: seq<Step>, kind: Step -> bool) {
    forall i | 0 <= i < |steps| :: !kind(steps[i])
  }

  lemma TailWithout(steps: seq<Step>, kind: Step -> bool)
    requires steps != [] && Without(steps, kind)
    ensures Without(steps[1..], kind) && !kind(steps[0])
  {
    assert forall i | 0 <= i < |steps[1..]| :: steps[1..][i] == steps[i + 1];
  }

  lemma {:induction false} NoFileStays(s: State, steps: seq<Step>, t: State)
    requires s.pidFile.None? && Runs(s, steps, t) && Without(steps, (step: Step) => step.Create?)
    ensures t.pidFile.None?
    decreases |steps|
  {
    if steps != [] {
      TailWithout(steps, (step: Step) => step.Create?);
      PidFileKept(s, steps[0]);
      NoFileStays(Apply(s, steps[0]), steps[1..], t);
    }
  }

  /** A server that stops leaves no PID file, whatever else happens, until a starter creates one. */
  lemma StopLeavesNoFile(s: State, p: Pid, steps: seq<Step>, t: State)
    requires Runs(s, [RemovePid(p)] + steps, t) && Without(steps, (step: Step) => step.Create?)
    ensures t.pidFile.None?
  {
    assert ([RemovePid(p)] + steps)[1..] == steps;
    NoFileStays(Apply(s, RemovePid(p)), steps, t);
  }

  /** No process has come past the test. */
  ghost predicate NoneBeyondTest(s: State) {
    forall q | q in s.procs :: !Claims(s.procs[q].phase) || s.procs[q].phase == Admitted
  }

  /** A starter that has passed the test removes the PID file, and so does a forced kill. */
  predicate Clears(step: Step) {
    step.Clear? || step.KillRemove?
  }

  lemma NoneGetsBeyond(s: State, step: Step)
    requires NoneBeyondTest(s) && Enabled(s, step) && !Clears(step)
    ensures NoneBeyondTest(Apply(s, step)) && Apply(s, step).pidFile == s.pidFile
  {
    forall q | q in Apply(s, step).procs
      ensures var phase := Apply(s, step).procs[q].phase; !Claims(phase) || phase == Admitted
    {
      if q !in s.procs {
        BornOrThere(s, step, q);
      } else if Moved(step) ==> q != step.p {
        OthersStay(s, step, q);
      }
    }
  }

  lemma {:induction false} FileStays(s: State, steps: seq<Step>, t: State)
    requires NoneBeyondTest(s) && Runs(s, steps, t) && Without(steps, Clears)
    ensures t.pidFile == s.pidFile
    decreases |steps|
  {
    if steps != [] {
      TailWithout(steps, Clears);
      NoneGetsBeyond(s, steps[0]);
      FileStays(Apply(s, steps[0]), steps[1..], t);
    }
  }

  /** A server that dies leaves its PID file, until a starter that has passed the test, or a forced
      kill, removes it. */
  lemma CrashLeavesFile(s: State, p: Pid, steps: seq<Step>, t: State)
    requires Inv(s) && IsServer(s, p) && Runs(s, [Die(p)] + steps, t) && Without(steps, Clears)
    ensures Content(t) == p
  {
    assert ([Die(p)] + steps)[1..] == steps;
    assert FileOk(s, p);
    forall q | q in s.procs && q != p ensures !Claims(s.procs[q].phase) {
      assert PairOk(s, p, q);
    }
    FileStays(Apply(s, Die(p)), steps, t);
  }

  // ----- Where a server with the PID of a starter's parent comes from.

  predicate Unread(phase: Phase) {
    BeforeLock(phase) || phase == Locked
  }

  /** The step gives a process the PID that a starter, which has yet to read the PID file, knows
      as its parent's. */
  ghost predicate Reuses(s: State, step: Step) {
    (step.Launch? || step.Fork?) &&
    var born := if step.Launch? then step.p else step.child;
    exists q | q in s.procs :: q != born && Unread(s.procs[q].phase) && s.procs[q].parent == born
  }

  ghost predicate NoReuse(s: State, steps: seq<Step>)
    decreases |steps|
  {
    steps != [] && Enabled(s, steps[0]) ==> !Reuses(s, steps[0]) && NoReuse(Apply(s, steps[0]), steps[1..])
  }

  /** The parent of the process, if it is another one, waits or is gone. */
  ghost predicate ParentWaits(s: State, q: Pid)
    requires q in s.procs
  {
    var parent := s.procs[q].parent;
    Unread(s.procs[q].phase) && parent != q && parent in s.procs ==> s.procs[parent].phase == Waiting
  }

  /** Parents that are still there wait. */
  ghost predicate ParentsWait(s: State) {
    forall q | q in s.procs :: ParentWaits(s, q)
  }

  lemma ParentWaitsOn(s: State, step: Step, q: Pid)
    requires Enabled(s, step) && !Reuses(s, step) && q in Apply(s, step).procs
    requires q in s.procs ==> ParentWaits(s, q)
    ensures ParentWaits(Apply(s, step), q)
  {
    var t := Apply(s, step);
    var parent := t.procs[q].parent;
    if q !in s.procs {
      BornOrThere(s, step, q);
    } else if parent in t.procs && parent != q {
      if parent !in s.procs {
        BornOrThere(s, step, parent);
      } else if Moved(step) && parent == step.p {
        OthersStay(s, step, q);
      } else {
        OthersStay(s, step, parent);
      }
    }
  }

  lemma ParentsWaitOn(s: State, step: Step)
    requires ParentsWait(s) && Enabled(s, step) && !Reuses(s, step)
    ensures ParentsWait(Apply(s, step)) && !Faulty(s, step, PidReuse)
  {
    forall q | q in Apply(s, step).procs ensures ParentWaits(Apply(s, step), q) {
      ParentWaitsOn(s, step, q);
    }
    assert step.Look? ==> ParentWaits(s, step.p);
  }

  /** Without such a step no starter ever finds a server that has its parent's PID. */
  lemma {:induction false} ReuseIsTheCause(s: State, steps: seq<Step>, faults: set<Fault>)
    requires ParentsWait(s) && NoReuse(s, steps) && OnlyFaults(s, steps, faults)
    ensures OnlyFaults(s, steps, faults - {PidReuse})
    decreases |steps|
  {
    if steps != [] && Enabled(s, steps[0]) {
      ParentsWaitOn(s, steps[0]);
      ReuseIsTheCause(Apply(s, steps[0]), steps[1..], faults);
    }
  }
}

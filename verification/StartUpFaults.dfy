/** The faults of the start-up protocol are exactly the steps after which two servers can come
    about (src/Server/cimserver.cpp, src/Service/ServerRunStatus.cpp, src/Service/PidFile.cpp). */
module StartUpFaults {
  import opened Wrappers
  import opened StartUp

  ghost predicate TwoServers(s: State) {
    exists p, q :: p != q && IsServer(s, p) && IsServer(s, q)
  }

  ghost predicate Reaches(s: State, faults: set<Fault>, t: State) {
    exists steps :: Runs(s, steps, t) && OnlyFaults(s, steps, faults)
  }

  /** Two servers can come about from here without a fault. */
  ghost predicate Breakable(s: State) {
    exists t :: Reaches(s, {}, t) && TwoServers(t)
  }

  // ----- Making runs.

  ghost predicate Permitted(s: State, step: Step, faults: set<Fault>) {
    Enabled(s, step) && forall fault | fault !in faults :: !Faulty(s, step, fault)
  }

  lemma {:induction false} RunsMore(s: State, steps: seq<Step>, t: State, faults: set<Fault>, step: Step)
    requires Runs(s, steps, t) && OnlyFaults(s, steps, faults) && Permitted(t, step, faults)
    ensures Runs(s, steps + [step], Apply(t, step)) && OnlyFaults(s, steps + [step], faults)
    decreases |steps|
  {
    var more := steps + [step];
    if steps == [] {
      assert more[1..] == [];
    } else {
      assert more[0] == steps[0] && more[1..] == steps[1..] + [step];
      RunsMore(Apply(s, steps[0]), steps[1..], t, faults, step);
    }
  }

  lemma Then(s: State, faults: set<Fault>, t: State, step: Step) returns (u: State)
    requires Reaches(s, faults, t) && Permitted(t, step, faults)
    ensures u == Apply(t, step) && Reaches(s, faults, u)
  {
    var steps :| Runs(s, steps, t) && OnlyFaults(s, steps, faults);
    RunsMore(s, steps, t, faults, step);
    u := Apply(t, step);
  }

  lemma Begin(s: State, faults: set<Fault>)
    ensures Reaches(s, faults, s)
  {
    assert Runs(s, [], s) && OnlyFaults(s, [], faults);
  }

  /** A step that is never a fault. */
  predicate Ordinary(step: Step) {
    !step.Look? && !step.Open? && !step.LockFails? && !step.CreateFails? && !step.UnlinkLock? && !step.KillRemove?
  }

  lemma Next(s: State, faults: set<Fault>, t: State, step: Step) returns (u: State)
    requires Reaches(s, faults, t) && Ordinary(step) && Enabled(t, step)
    ensures u == Apply(t, step) && Reaches(s, faults, u)
  {
    u := Then(s, faults, t, step);
  }

  // ----- One starter goes through.

  /** No process holds the lock file that is there, or the next one to be created. */
  ghost predicate LockFree(s: State) {
    forall q | q in s.procs ::
      s.procs[q].lock.None? || (s.procs[q].lock != s.lockFile && s.procs[q].lock.value < s.next)
  }

  lemma OpenNext(s: State, faults: set<Fault>, t: State, p: Pid) returns (u: State)
    requires Reaches(s, faults, t) && At(t, p, Touched) && t.lockFile.Some?
    ensures u == Move(t, p, Opened(t.lockFile.value)) && Reaches(s, faults, u)
  {
    u := Then(s, faults, t, Open(p));
  }

  lemma LookNext(s: State, faults: set<Fault>, t: State, p: Pid) returns (u: State)
    requires Reaches(s, faults, t) && At(t, p, Locked)
    requires Content(t) != t.procs[p].parent || !IsServer(t, Content(t))
    ensures u == Move(t, p, Looked(Content(t))) && Reaches(s, faults, u)
  {
    u := Then(s, faults, t, Look(p));
  }

  lemma Enter(s: State, faults: set<Fault>, t: State, p: Pid) returns (u: State)
    requires Reaches(s, faults, t) && At(t, p, Launched) && LockFree(t)
    ensures Reaches(s, faults, u) && u.pidFile == t.pidFile && u.clients == t.clients
    ensures u.lockFile == Some(if t.lockFile.Some? then t.lockFile.value else t.next)
    ensures u.next == if t.lockFile.Some? then t.next else t.next + 1
    ensures u.procs == t.procs[p := Proc(t.procs[p].parent, u.lockFile, Locked)]
  {
    var v := Next(s, faults, t, Touch(p));
    var w := OpenNext(s, faults, v, p);
    assert !Held(w, v.lockFile.value);
    u := Next(s, faults, w, Lock(p));
  }

  /** A starter past the lock who finds no live process named goes on to be admitted. */
  lemma Test(s: State, faults: set<Fault>, t: State, p: Pid) returns (u: State)
    requires Reaches(s, faults, t) && At(t, p, Locked) && (Content(t) == p || Content(t) !in t.procs)
    ensures Reaches(s, faults, u) && u == Move(t, p, Admitted)
  {
    u := LookNext(s, faults, t, p);
    u := Next(s, faults, u, Decide(p));
  }

  /** From there it goes on to serve and to name itself. */
  lemma Commit(s: State, faults: set<Fault>, t: State, p: Pid) returns (u: State)
    requires Reaches(s, faults, t) && At(t, p, Cleared)
    ensures Reaches(s, faults, u) && u.lockFile == t.lockFile && u.clients == t.clients
    ensures Content(u) == p && u.next == t.next + 1
    ensures u.procs == t.procs[p := t.procs[p].(phase := Serving)]
  {
    u := Next(s, faults, t, Create(p));
    u := Next(s, faults, u, Write(p));
  }

  lemma Admit(s: State, faults: set<Fault>, t: State, p: Pid) returns (u: State)
    requires Reaches(s, faults, t) && p != 0 && p !in t.procs && LockFree(t) && Content(t) !in t.procs
    ensures Reaches(s, faults, u) && u.pidFile == t.pidFile && u.clients == t.clients && u.next >= t.next
    ensures u.lockFile == Some(if t.lockFile.Some? then t.lockFile.value else t.next)
    ensures u.procs == t.procs[p := Proc(p, u.lockFile, Admitted)]
  {
    u := Next(s, faults, t, Launch(p));
    u := Enter(s, faults, u, p);
    u := Test(s, faults, u, p);
  }

  lemma Finish(s: State, faults: set<Fault>, t: State, p: Pid) returns (u: State)
    requires Reaches(s, faults, t) && At(t, p, Admitted)
    ensures Reaches(s, faults, u) && u.lockFile == t.lockFile && u.clients == t.clients
    ensures Content(u) == p && u.next == t.next + 1
    ensures u.procs == t.procs[p := t.procs[p].(phase := Serving)]
  {
    u := Next(s, faults, t, Clear(p));
    u := Commit(s, faults, u, p);
  }

  /** A new process starts and serves when no live process is named. */
  lemma Serve(s: State, faults: set<Fault>, t: State, p: Pid) returns (u: State)
    requires Reaches(s, faults, t) && p != 0 && p !in t.procs && LockFree(t) && Content(t) !in t.procs
    ensures Reaches(s, faults, u) && u.clients == t.clients
    ensures u.lockFile == Some(if t.lockFile.Some? then t.lockFile.value else t.next) && u.next > t.next
    ensures Content(u) == p && u.procs == t.procs[p := Proc(p, None, Serving)]
  {
    u := Admit(s, faults, t, p);
    u := Finish(s, faults, u, p);
    u := Next(s, faults, u, Unlock(p));
  }

  // ----- Any other process may die.

  function Kept(procs: map<Pid, Proc>, keep: Pid): map<Pid, Proc> {
    map p | p in procs && p == keep :: procs[p]
  }

  lemma OneDies(procs: map<Pid, Proc>, p: Pid, keep: Pid)
    requires p in procs && p != keep
    ensures |procs - {p}| < |procs| && Kept(procs - {p}, keep) == Kept(procs, keep)
  {
    assert procs.Keys == (procs - {p}).Keys + {p};
  }

  /** All processes but one die. */
  lemma {:induction false} OthersDie(s: State, faults: set<Fault>, t: State, keep: Pid) returns (u: State)
    requires Reaches(s, faults, t)
    ensures Reaches(s, faults, u) && u == t.(procs := Kept(t.procs, keep))
    decreases |t.procs|
  {
    if p :| p in t.procs && p != keep {
      u := Next(s, faults, t, Die(p));
      OneDies(t.procs, p, keep);
      u := OthersDie(s, faults, u, keep);
    } else {
      u := t;
      assert Kept(t.procs, keep) == t.procs;
    }
  }

  lemma OneLeft(procs: map<Pid, Proc>, p: Pid)
    requires p in procs
    ensures Kept(procs, p) == map[p := procs[p]]
  {}

  /** The process is the only one. */
  predicate Alone(s: State, p: Pid, proc: Proc) {
    s.procs == map[p := proc]
  }

  lemma Isolate(s: State, faults: set<Fault>, t: State, p: Pid) returns (u: State)
    requires Reaches(s, faults, t) && p in t.procs
    ensures Reaches(s, faults, u) && Alone(u, p, t.procs[p]) && u == t.(procs := u.procs)
  {
    u := OthersDie(s, faults, t, p);
    OneLeft(t.procs, p);
  }

  // ----- What each fault leads to.

  /** A server that is alone releases the lock, if it still holds it. */
  lemma LetGo(s: State, faults: set<Fault>, t: State, p: Pid) returns (u: State)
    requires Reaches(s, faults, t) && IsServer(t, p) && p != 0 && Alone(t, p, t.procs[p])
    requires t.procs[p].phase == Closing ==> t.procs[p].lock.None?
    ensures Reaches(s, faults, u) && u.pidFile == t.pidFile && LockFree(u) && 0 !in u.procs
    ensures Alone(u, p, t.procs[p].(lock := None))
  {
    u := t;
    if t.procs[p].lock.Some? {
      u := Next(s, faults, t, Unlock(p));
    }
  }

  /** A server that is alone and not named is not found by the next starter. */
  lemma UnnamedBreaks(s: State, faults: set<Fault>, t: State, p: Pid) returns (u: State)
    requires Reaches(s, faults, t) && IsServer(t, p) && p != 0 && t.pidFile.None?
    requires t.procs[p].phase == Closing ==> t.procs[p].lock.None?
    ensures Reaches(s, faults, u) && TwoServers(u)
  {
    u := Isolate(s, faults, t, p);
    u := LetGo(s, faults, u, p);
    u := Serve(s, faults, u, p + 1);
    assert IsServer(u, p) && IsServer(u, p + 1);
  }

  /** A starter that is past the test and has removed the PID file does not keep the next one
      out, if that one finds its lock free. */
  lemma OvertakenBreaks(s: State, faults: set<Fault>, t: State, p: Pid) returns (u: State)
    requires Reaches(s, faults, t) && p != 0 && p in t.procs && Alone(t, p, t.procs[p]) && At(t, p, Admitted)
    requires LockFree(t)
    ensures Reaches(s, faults, u) && TwoServers(u)
  {
    u := Next(s, faults, t, Clear(p));
    assert LockFree(u) && 0 !in u.procs;
    u := Serve(s, faults, u, p + 1);
    u := Commit(s, faults, u, p);
    assert IsServer(u, p) && IsServer(u, p + 1);
  }

  /** A starter in the section without a lock that others would wait for. */
  lemma LockedBreaks(s: State, faults: set<Fault>, t: State, p: Pid) returns (u: State)
    requires Reaches(s, faults, t) && p != 0 && At(t, p, Locked) && (Content(t) == p || Content(t) !in t.procs)
    requires Alone(t, p, t.procs[p]) && LockFree(t)
    ensures Reaches(s, faults, u) && TwoServers(u)
  {
    u := Test(s, faults, t, p);
    u := OvertakenBreaks(s, faults, u, p);
  }

  lemma UnlockedBreaks(s: State, faults: set<Fault>, t: State, p: Pid) returns (u: State)
    requires Reaches(s, faults, t) && p != 0 && At(t, p, Locked) && t.procs[p].lock.None?
    ensures Reaches(s, faults, u) && TwoServers(u)
  {
    u := Isolate(s, faults, t, p);
    u := LockedBreaks(s, faults, u, p);
  }

  /** The lock file has been removed, and the starter has opened it before. */
  lemma OpenedBreaks(s: State, faults: set<Fault>, t: State, p: Pid) returns (u: State)
    requires Reaches(s, faults, t) && p != 0 && p in t.procs && t.lockFile.None?
    requires t.procs[p].phase.Opened? && t.procs[p].phase.inode < t.next && t.procs[p].lock.None?
    ensures Reaches(s, faults, u) && TwoServers(u)
  {
    u := Isolate(s, faults, t, p);
    assert !Held(u, u.procs[p].phase.inode);
    u := Next(s, faults, u, Lock(p));
    u := LockedBreaks(s, faults, u, p);
  }

  /** The same when it holds the lock, and has read the PID of a server or nothing yet. */
  lemma HolderBreaks(s: State, faults: set<Fault>, t: State, p: Pid) returns (u: State)
    requires Reaches(s, faults, t) && p != 0 && p in t.procs && t.lockFile.None?
    requires t.procs[p].phase == Locked || t.procs[p].phase.Looked?
    requires t.procs[p].lock.Some? && t.procs[p].lock.value < t.next
    ensures Reaches(s, faults, u) && TwoServers(u)
  {
    u := Isolate(s, faults, t, p);
    if u.procs[p].phase == Locked {
      u := LockedBreaks(s, faults, u, p);
    } else {
      u := Next(s, faults, u, Decide(p));
      u := OvertakenBreaks(s, faults, u, p);
    }
  }

  /** A starter that reads its parent's PID although a server has it. */
  lemma MistakenBreaks(s: State, faults: set<Fault>, t: State, p: Pid, server: Pid) returns (u: State)
    requires Reaches(s, faults, t) && At(t, p, Looked(server)) && t.procs[p].parent == server && IsServer(t, server)
    ensures Reaches(s, faults, u) && TwoServers(u)
  {
    u := Next(s, faults, t, Decide(p));
    u := Finish(s, faults, u, p);
    assert IsServer(u, p) && IsServer(u, server);
  }

  /** The PID file is removed while it is being written. */
  lemma UnwrittenBreaks(s: State, faults: set<Fault>, t: State, p: Pid) returns (u: State)
    requires Reaches(s, faults, t) && p != 0 && p in t.procs && t.procs[p].phase.Writing? && t.pidFile.None?
    ensures Reaches(s, faults, u) && TwoServers(u)
  {
    u := Next(s, faults, t, Write(p));
    u := UnnamedBreaks(s, faults, u, p);
  }

  // ----- The faults are exactly the steps that let two servers come about.

  /** What a starter that uses the lock is like when a server without a lock removes the lock file. */
  lemma UserOfLock(before: State, p: Pid, q: Pid)
    requires Inv(before) && Enabled(before, UnlinkLock(p)) && q in before.procs && UsesLock(before.procs[q])
    ensures p != q && q != 0 && before.lockFile.Some? && before.lockFile.value < before.next
    ensures var proc := before.procs[q];
            if proc.phase.Opened? then proc.lock.None? && proc.phase.inode == before.lockFile.value
            else proc.lock == before.lockFile && (proc.phase == Locked || proc.phase.Looked?)
  {
    assert LockOk(before, q) && LockOk(before, p);
    assert p != q && PairOk(before, q, p);
  }

  lemma UnlinkBreaks(s: State, faults: set<Fault>, before: State, p: Pid) returns (u: State)
    requires Inv(before) && Enabled(before, UnlinkLock(p)) && LockInUse(before)
    requires Reaches(s, faults, Apply(before, UnlinkLock(p)))
    ensures Reaches(s, faults, u) && TwoServers(u)
  {
    var q :| q in before.procs && UsesLock(before.procs[q]);
    UserOfLock(before, p, q);
    if before.procs[q].phase.Opened? {
      u := OpenedBreaks(s, faults, Apply(before, UnlinkLock(p)), q);
    } else {
      u := HolderBreaks(s, faults, Apply(before, UnlinkLock(p)), q);
    }
  }

  lemma RemovalBreaks(s: State, faults: set<Fault>, before: State, client: nat) returns (u: State)
    requires Inv(before) && Enabled(before, KillRemove(client))
    requires IsServer(before, Content(before)) || BeingWritten(before)
    requires Reaches(s, faults, Apply(before, KillRemove(client)))
    ensures Reaches(s, faults, u) && TwoServers(u)
  {
    var t := Apply(before, KillRemove(client));
    if IsServer(before, Content(before)) {
      assert LockOk(before, Content(before));
      u := UnnamedBreaks(s, faults, t, Content(before));
    } else {
      var q :| q in before.procs && before.procs[q].phase.Writing?;
      assert LockOk(before, q);
      u := UnwrittenBreaks(s, faults, t, q);
    }
  }

  lemma ReuseBreaks(s: State, faults: set<Fault>, before: State, p: Pid) returns (u: State)
    requires Enabled(before, Look(p)) && Faulty(before, Look(p), PidReuse)
    requires Reaches(s, faults, Apply(before, Look(p)))
    ensures Reaches(s, faults, u) && TwoServers(u)
  {
    u := MistakenBreaks(s, faults, Apply(before, Look(p)), p, Content(before));
  }

  lemma LockFaultBreaks(s: State, faults: set<Fault>, before: State, step: Step) returns (u: State)
    requires Inv(before) && Enabled(before, step) && Faulty(before, step, LockLost)
    requires Reaches(s, faults, Apply(before, step))
    ensures Reaches(s, faults, u) && TwoServers(u)
  {
    assert LockOk(before, step.p);
    u := UnlockedBreaks(s, faults, Apply(before, step), step.p);
  }

  lemma WriteFaultBreaks(s: State, faults: set<Fault>, before: State, p: Pid) returns (u: State)
    requires Inv(before) && Enabled(before, CreateFails(p))
    requires Reaches(s, faults, Apply(before, CreateFails(p)))
    ensures Reaches(s, faults, u) && TwoServers(u)
  {
    assert LockOk(before, p) && FileOk(before, p);
    u := UnnamedBreaks(s, faults, Apply(before, CreateFails(p)), p);
  }

  /** After a fault in a state that the invariant holds of, two servers come about. */
  lemma FaultBreaks(s: State, faults: set<Fault>, before: State, step: Step, fault: Fault) returns (u: State)
    requires Inv(before) && Enabled(before, step) && Faulty(before, step, fault)
    requires Reaches(s, faults, Apply(before, step))
    ensures Reaches(s, faults, u) && TwoServers(u)
  {
    match fault
    case PidReuse => u := ReuseBreaks(s, faults, before, step.p);
    case LockLost => u := LockFaultBreaks(s, faults, before, step);
    case WriteLost => u := WriteFaultBreaks(s, faults, before, step.p);
    case EarlyUnlink => u := UnlinkBreaks(s, faults, before, step.p);
    case LateKill => u := RemovalBreaks(s, faults, before, step.client);
  }

  /** While the invariant holds, a step is a fault exactly if two servers can come about after it
      without any other fault. */
  lemma FaultExactlyWhen(s: State, step: Step)
    requires Inv(s) && Enabled(s, step)
    ensures Clean(s, step) <==> !Breakable(Apply(s, step))
  {
    var next := Apply(s, step);
    if Clean(s, step) {
      StepKeepsInv(s, step);
      InvNotBreakable(next);
    } else {
      var fault :| Faulty(s, step, fault);
      Begin(next, {});
      var u := FaultBreaks(next, {}, s, step, fault);
    }
  }

  lemma InvNotBreakable(s: State)
    requires Inv(s)
    ensures !Breakable(s)
  {
    forall t | Reaches(s, {}, t) ensures !TwoServers(t) {
      var steps :| Runs(s, steps, t) && OnlyFaults(s, steps, {});
      CleanRunKeepsInv(s, steps, t);
      InvIsSafe(t);
    }
  }

  /** At no point of the run can two servers come about without a further fault. */
  ghost predicate NeverBreakable(s: State, steps: seq<Step>)
    decreases |steps|
  {
    !Breakable(s) && (steps != [] && Enabled(s, steps[0]) ==> NeverBreakable(Apply(s, steps[0]), steps[1..]))
  }

  lemma {:induction false} FaultFreeFrom(s: State, steps: seq<Step>)
    requires Inv(s)
    ensures OnlyFaults(s, steps, {}) <==> NeverBreakable(s, steps)
    decreases |steps|
  {
    InvNotBreakable(s);
    if steps != [] && Enabled(s, steps[0]) {
      FaultExactlyWhen(s, steps[0]);
      if Clean(s, steps[0]) {
        StepKeepsInv(s, steps[0]);
        FaultFreeFrom(Apply(s, steps[0]), steps[1..]);
      }
    }
  }

  /** A run is without faults exactly if at no point of it two servers are there or can come about
      without a further fault: no step is counted as a fault that does no harm. */
  lemma FaultFreeExactly(s: State, steps: seq<Step>)
    requires Initial(s)
    ensures OnlyFaults(s, steps, {}) <==> NeverBreakable(s, steps)
  {
    FaultFreeFrom(s, steps);
  }

  // ----- Every kind of fault can be the first one.

  const START := State(map[], None, None, map[], 0)

  /** A fault after a run without faults. */
  lemma FirstFaultBreaks(t: State, step: Step, fault: Fault) returns (u: State)
    requires Reaches(START, {}, t) && Faulty(t, step, fault) && Permitted(t, step, {fault})
    ensures Reaches(START, {fault}, u) && TwoServers(u)
  {
    var steps :| Runs(START, steps, t) && OnlyFaults(START, steps, {});
    CleanRunKeepsInv(START, steps, t);
    MoreFaults(START, steps, {}, {fault});
    u := Then(START, {fault}, t, step);
    u := FaultBreaks(START, {fault}, t, step, fault);
  }

  lemma {:induction false} MoreFaults(s: State, steps: seq<Step>, few: set<Fault>, many: set<Fault>)
    requires few <= many && OnlyFaults(s, steps, few)
    ensures OnlyFaults(s, steps, many)
    decreases |steps|
  {
    if steps != [] && Enabled(s, steps[0]) {
      MoreFaults(Apply(s, steps[0]), steps[1..], few, many);
    }
  }

  /** A process that gets the PID of a starter's dead parent serves, and the starter takes it for
      its parent. */
  lemma PidReuseBreaks() returns (u: State)
    ensures Reaches(START, {PidReuse}, u) && TwoServers(u)
  {
    u := Reused();
    u := FirstFaultBreaks(u, Look(2), PidReuse);
  }

  lemma Reused() returns (u: State)
    ensures Reaches(START, {}, u) && Content(u) == 1 && At(u, 1, Serving) && At(u, 2, Locked)
    ensures u.procs[2].parent == 1
  {
    u := Orphan();
    u := Serve(START, {}, u, 1);
    u := Enter(START, {}, u, 2);
  }

  lemma Orphan() returns (u: State)
    ensures Reaches(START, {}, u) && u == START.(procs := map[2 := Proc(1, None, Launched)])
  {
    Begin(START, {});
    u := Next(START, {}, START, Launch(1));
    u := Next(START, {}, u, Fork(1, 2));
    u := Next(START, {}, u, Die(1));
    assert u.procs == map[2 := Proc(1, None, Launched)];
  }

  /** A starter cannot lock the file and goes on. */
  lemma LockLostBreaks() returns (u: State)
    ensures Reaches(START, {LockLost}, u) && TwoServers(u)
  {
    Begin(START, {});
    u := Opener(START, 1);
    u := FirstFaultBreaks(u, LockFails(1), LockLost);
  }

  lemma Opener(t: State, p: Pid) returns (u: State)
    requires Reaches(START, {}, t) && p != 0 && p !in t.procs
    ensures Reaches(START, {}, u) && u.lockFile.Some? && u.pidFile == t.pidFile
    ensures u.procs == t.procs[p := Proc(p, None, Opened(u.lockFile.value))]
  {
    u := Next(START, {}, t, Launch(p));
    u := Next(START, {}, u, Touch(p));
    u := OpenNext(START, {}, u, p);
  }

  /** A starter cannot create the PID file and goes on. */
  lemma WriteLostBreaks() returns (u: State)
    ensures Reaches(START, {WriteLost}, u) && TwoServers(u)
  {
    u := Unnamed();
    u := FirstFaultBreaks(u, CreateFails(1), WriteLost);
  }

  lemma Unnamed() returns (u: State)
    ensures Reaches(START, {}, u) && At(u, 1, Cleared)
  {
    Begin(START, {});
    u := Admit(START, {}, START, 1);
    u := Next(START, {}, u, Clear(1));
  }

  /** A starter has opened the lock file when a stopping server removes it. */
  lemma EarlyUnlinkBreaks() returns (u: State)
    ensures Reaches(START, {EarlyUnlink}, u) && TwoServers(u)
  {
    Begin(START, {});
    u := Serve(START, {}, START, 1);
    u := Opener(u, 2);
    assert UsesLock(u.procs[2]);
    u := FirstFaultBreaks(u, UnlinkLock(1), EarlyUnlink);
  }

  /** A shutdown client that read no PID before a server started removes that server's PID file. */
  lemma LateKillBreaks() returns (u: State)
    ensures Reaches(START, {LateKill}, u) && TwoServers(u)
  {
    u := Uninformed();
    u := Serve(START, {}, u, 1);
    u := FirstFaultBreaks(u, KillRemove(9), LateKill);
  }

  lemma Uninformed() returns (u: State)
    ensures Reaches(START, {}, u) && u == START.(clients := map[9 := Removing(0)])
  {
    Begin(START, {});
    u := Next(START, {}, START, KillLook(9));
    u := Next(START, {}, u, KillTest(9));
    assert u.clients == map[9 := Removing(0)];
  }

  /** So does one that killed the server it read of, if another server starts between the kill
      and the removal, */
  lemma StartBeforeRemovalBreaks() returns (u: State)
    ensures Reaches(START, {LateKill}, u) && TwoServers(u)
  {
    u := Killed();
    u := Serve(START, {}, u, 2);
    u := FirstFaultBreaks(u, KillRemove(9), LateKill);
  }

  /** even one with the same PID. */
  lemma KilledPidReuseBreaks() returns (u: State)
    ensures Reaches(START, {LateKill}, u) && TwoServers(u)
  {
    u := Killed();
    u := Serve(START, {}, u, 1);
    u := FirstFaultBreaks(u, KillRemove(9), LateKill);
  }

  lemma Killed() returns (u: State)
    ensures Reaches(START, {}, u) && u.procs == map[] && u.clients == map[9 := Removing(1)]
  {
    u := Targeted();
    u := Next(START, {}, u, KillAct(9));
    assert u.procs == map[];
  }

  lemma Targeted() returns (u: State)
    ensures Reaches(START, {}, u) && u.procs == map[1 := Proc(1, None, Serving)]
    ensures u.clients == map[9 := Targeting(1)]
  {
    Begin(START, {});
    u := Serve(START, {}, START, 1);
    u := Next(START, {}, u, KillLook(9));
    u := Next(START, {}, u, KillTest(9));
  }

  lemma OneFaultBreaks(fault: Fault) returns (u: State)
    ensures Reaches(START, {fault}, u) && TwoServers(u)
  {
    match fault
    case PidReuse => u := PidReuseBreaks();
    case LockLost => u := LockLostBreaks();
    case WriteLost => u := WriteLostBreaks();
    case EarlyUnlink => u := EarlyUnlinkBreaks();
    case LateKill => u := LateKillBreaks();
  }

  /** There is at most one server in every run whose faults are of the given kinds exactly when
      no kind of fault is given: none of the five kinds can be left out. */
  lemma SingleServerExactlyWhen(faults: set<Fault>)
    ensures (forall s, t | Initial(s) && Reaches(s, faults, t) :: AtMostOneServer(t)) <==> faults == {}
  {
    if faults == {} {
      forall s, t | Initial(s) && Reaches(s, faults, t) ensures AtMostOneServer(t) {
        var steps :| Runs(s, steps, t) && OnlyFaults(s, steps, faults);
        SingleServer(s, steps, t);
      }
    } else {
      var fault :| fault in faults;
      var t := OneFaultBreaks(fault);
      var steps :| Runs(START, steps, t) && OnlyFaults(START, steps, {fault});
      MoreFaults(START, steps, {fault}, faults);
      assert Reaches(START, faults, t) && !AtMostOneServer(t);
    }
  }
}

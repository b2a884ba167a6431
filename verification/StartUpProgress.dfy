/** Nobody is stuck: whatever has happened and gone wrong, every starter can come to its end and
    every server can stop (src/Server/cimserver.cpp, src/Service/ServerRunStatus.cpp). */
module StartUpProgress {
  import opened Wrappers
  import opened StartUp

  // ----- Where the lock is held.

  /** From the lock to its release. */
  predicate MayHold(phase: Phase) {
    InSection(phase) || phase == Serving || phase == Refused
  }

  ghost predicate Placed(s: State) {
    forall p | p in s.procs && s.procs[p].lock.Some? :: MayHold(s.procs[p].phase)
  }

  lemma StepKeepsPlaced(s: State, step: Step)
    requires Placed(s) && Enabled(s, step)
    ensures Placed(Apply(s, step))
  {
    var t := Apply(s, step);
    forall p | p in t.procs && t.procs[p].lock.Some? ensures MayHold(t.procs[p].phase) {
      if p !in s.procs {
        BornOrThere(s, step, p);
      } else if Moved(step) ==> p != step.p {
        OthersStay(s, step, p);
      }
    }
  }

  /** In every run, with any faults, only processes between the lock and their end as starters hold
      it. */
  lemma {:induction false} RunKeepsPlaced(s: State, steps: seq<Step>, t: State)
    requires Placed(s) && Runs(s, steps, t)
    ensures Placed(t)
    decreases |steps|
  {
    if steps != [] {
      StepKeepsPlaced(s, steps[0]);
      RunKeepsPlaced(Apply(s, steps[0]), steps[1..], t);
    }
  }

  // ----- Runs in which only some processes move.

  /** The run leads on, and all its steps are those of processes in the set; none of them dies. */
  ghost predicate Leads(s: State, movers: set<Pid>, t: State) {
    exists steps :: Runs(s, steps, t) && OnlyBy(steps, movers)
  }

  predicate OnlyBy(steps: seq<Step>, movers: set<Pid>) {
    forall i | 0 <= i < |steps| :: Moved(steps[i]) && !steps[i].Die? && steps[i].p in movers
  }

  lemma Stays(s: State, movers: set<Pid>)
    ensures Leads(s, movers, s)
  {
    assert Runs(s, [], s) && OnlyBy([], movers);
  }

  lemma First(s: State, step: Step, movers: set<Pid>, t: State)
    requires Enabled(s, step) && Moved(step) && !step.Die? && step.p in movers
    requires Leads(Apply(s, step), movers, t)
    ensures Leads(s, movers, t)
  {
    var rest :| Runs(Apply(s, step), rest, t) && OnlyBy(rest, movers);
    var steps := [step] + rest;
    assert steps[0] == step && steps[1..] == rest;
    assert Runs(s, steps, t) && OnlyBy(steps, movers);
  }

  lemma {:induction false} RunsOn(s: State, first: seq<Step>, t: State, second: seq<Step>, u: State)
    requires Runs(s, first, t) && Runs(t, second, u)
    ensures Runs(s, first + second, u)
    decreases |first|
  {
    if first == [] {
      assert first + second == second;
    } else {
      assert (first + second)[0] == first[0] && (first + second)[1..] == first[1..] + second;
      RunsOn(Apply(s, first[0]), first[1..], t, second, u);
    }
  }

  lemma LeadsOn(s: State, t: State, u: State, movers: set<Pid>, others: set<Pid>)
    requires Leads(s, movers, t) && Leads(t, others, u)
    ensures Leads(s, movers + others, u)
  {
    var first :| Runs(s, first, t) && OnlyBy(first, movers);
    var second :| Runs(t, second, u) && OnlyBy(second, others);
    RunsOn(s, first, t, second, u);
    assert OnlyBy(first + second, movers + others);
  }

  // ----- The way of a starter from the lock to its end.

  /** The next step of a process that holds the lock or is past it. */
  function NextStep(phase: Phase, p: Pid): Step {
    if phase == Locked then Look(p)
    else if phase.Looked? then Decide(p)
    else if phase == Admitted then Clear(p)
    else if phase == Cleared then Create(p)
    else if phase.Writing? then Write(p)
    else Unlock(p)
  }

  function Distance(phase: Phase): nat {
    if phase == Locked then 5
    else if phase.Looked? then 4
    else if phase == Admitted then 3
    else if phase == Cleared then 2
    else if phase.Writing? then 1
    else 0
  }

  /** Everybody but p is as before, and so is the lock file. */
  ghost predicate OthersSame(s: State, t: State, p: Pid) {
    && t.lockFile == s.lockFile
    && (forall q | q != p :: q in t.procs <==> q in s.procs)
    && forall q | q != p && q in s.procs :: t.procs[q] == s.procs[q]
  }

  lemma OneStep(s: State, p: Pid)
    requires p in s.procs && MayHold(s.procs[p].phase) && s.procs[p].lock.Some?
    ensures var step := NextStep(s.procs[p].phase, p);
            && Enabled(s, step) && Moved(step) && !step.Die? && step.p == p
            && OthersSame(s, Apply(s, step), p) && p in Apply(s, step).procs
            && var proc := Apply(s, step).procs[p];
               if step.Unlock? then proc == s.procs[p].(lock := None)
               else proc.lock == s.procs[p].lock && MayHold(proc.phase)
                    && Distance(proc.phase) < Distance(s.procs[p].phase)
  {}

  /** Whoever holds the lock can come to its end and let it go, on its own. */
  lemma {:induction false} HolderLetsGo(s: State, p: Pid) returns (t: State)
    requires p in s.procs && MayHold(s.procs[p].phase) && s.procs[p].lock.Some?
    ensures Leads(s, {p}, t) && OthersSame(s, t, p)
    ensures (At(t, p, Serving) || At(t, p, Refused)) && t.procs[p].lock.None?
    decreases Distance(s.procs[p].phase)
  {
    var step := NextStep(s.procs[p].phase, p);
    OneStep(s, p);
    var u := Apply(s, step);
    if step.Unlock? {
      t := u;
      Stays(u, {p});
    } else {
      t := HolderLetsGo(u, p);
    }
    First(s, step, {p}, t);
  }

  // ----- Waiting for the lock.

  ghost function Holders(s: State, inode: nat): set<Pid> {
    set p | p in s.procs && s.procs[p].lock == Some(inode)
  }

  /** A lock can be waited for: its holders let it go one after the other, and nobody else moves. */
  lemma {:induction false} LockComesFree(s: State, inode: nat) returns (t: State)
    requires Placed(s)
    ensures Leads(s, Holders(s, inode), t) && !Held(t, inode) && t.lockFile == s.lockFile && Placed(t)
    ensures forall q | q !in Holders(s, inode) :: q in t.procs <==> q in s.procs
    ensures forall q | q !in Holders(s, inode) && q in s.procs :: t.procs[q] == s.procs[q]
    decreases |Holders(s, inode)|
  {
    var holders := Holders(s, inode);
    if holders == {} {
      t := s;
      Stays(s, holders);
      forall p | p in s.procs ensures s.procs[p].lock != Some(inode) {
        assert p !in holders;
      }
    } else {
      var p :| p in holders;
      var u := HolderLetsGo(s, p);
      LeadsKeepsPlaced(s, {p}, u);
      assert Holders(u, inode) == holders - {p};
      t := LockComesFree(u, inode);
      LeadsOn(s, u, t, {p}, holders - {p});
      assert {p} + (holders - {p}) == holders;
    }
  }

  lemma LeadsKeepsPlaced(s: State, movers: set<Pid>, t: State)
    requires Placed(s) && Leads(s, movers, t)
    ensures Placed(t)
  {
    var steps :| Runs(s, steps, t) && OnlyBy(steps, movers);
    RunKeepsPlaced(s, steps, t);
  }

  // ----- The test, serving and stopping.

  /** A process of the server program that the PID file names: neither p nor its parent. */
  ghost predicate NamesAnother(s: State, p: Pid)
    requires p in s.procs
  {
    exists q | q in s.procs :: s.pidFile.Some? && s.pidFile.value.pid == q && q != 0 && q != p && q != s.procs[p].parent
  }

  /** Under the lock a starter is refused exactly if the PID file names another live process of the
      server program; the test itself changes nothing for anybody else. */
  lemma TestDecides(s: State, p: Pid)
    requires At(s, p, Locked)
    ensures Enabled(s, Look(p)) && Enabled(Apply(s, Look(p)), Decide(p))
    ensures var t := Apply(Apply(s, Look(p)), Decide(p));
            && t == Move(s, p, if NamesAnother(s, p) then Refused else Admitted)
  {
    var u := Apply(s, Look(p));
    var t := Apply(u, Decide(p));
    assert FindsServer(u, p, Content(s)) <==> NamesAnother(s, p);
    assert t.procs == s.procs[p := t.procs[p]];
  }

  lemma Declares(s: State, p: Pid) returns (t: State)
    requires p in s.procs && s.procs[p].phase.Writing?
    requires s.pidFile.Some? && s.pidFile.value.inode == s.procs[p].phase.file
    ensures Leads(s, {p}, t) && OthersSame(s, t, p)
    ensures At(t, p, Serving) && t.procs[p].lock == s.procs[p].lock && Content(t) == p
  {
    t := Apply(s, Write(p));
    Stays(t, {p});
    First(s, Write(p), {p}, t);
  }

  lemma Declared(s: State, p: Pid) returns (t: State)
    requires At(s, p, Cleared)
    ensures Leads(s, {p}, t) && OthersSame(s, t, p)
    ensures At(t, p, Serving) && t.procs[p].lock == s.procs[p].lock && Content(t) == p
  {
    var created := Apply(s, Create(p));
    t := Declares(created, p);
    First(s, Create(p), {p}, t);
  }

  /** A starter that passes the test can go on to serve, and then the PID file names it. */
  lemma AdmittedServes(s: State, p: Pid) returns (t: State)
    requires At(s, p, Admitted)
    ensures Leads(s, {p}, t) && OthersSame(s, t, p)
    ensures At(t, p, Serving) && t.procs[p].lock == s.procs[p].lock && Content(t) == p
  {
    var cleared := Apply(s, Clear(p));
    t := Declared(cleared, p);
    First(s, Clear(p), {p}, t);
  }

  /** A starter under the lock can come to serve, named by the PID file, exactly if that file names
      no other live process of the program; otherwise it can leave, and the file is as it was. */
  lemma StarterEnds(s: State, p: Pid) returns (t: State)
    requires At(s, p, Locked)
    ensures Leads(s, {p}, t) && OthersSame(s, t, p)
    ensures if NamesAnother(s, p) then At(t, p, Refused) && t.pidFile == s.pidFile
            else At(t, p, Serving) && Content(t) == p
  {
    TestDecides(s, p);
    var looked := Apply(s, Look(p));
    var decided := Apply(looked, Decide(p));
    if NamesAnother(s, p) {
      t := decided;
      Stays(t, {p});
    } else {
      t := AdmittedServes(decided, p);
    }
    First(looked, Decide(p), {p}, t);
    First(s, Look(p), {p}, t);
  }

  ghost function LockHolders(s: State): set<Pid> {
    set p | p in s.procs && s.procs[p].lock.Some?
  }

  lemma MoreMovers(s: State, movers: set<Pid>, t: State, others: set<Pid>)
    requires Leads(s, movers, t) && movers <= others
    ensures Leads(s, others, t)
  {
    var steps :| Runs(s, steps, t) && OnlyBy(steps, movers);
    assert OnlyBy(steps, others);
  }

  /** From opening the lock file to the end of the start-up. */
  lemma OpenerFinishes(s: State, p: Pid) returns (t: State)
    requires Placed(s) && p in s.procs && s.procs[p].phase.Opened?
    ensures Leads(s, {p} + LockHolders(s), t)
    ensures (At(t, p, Serving) || At(t, p, Refused)) && t.procs[p].lock.None?
    ensures forall q | q in s.procs && q != p && s.procs[q].lock.None? :: q in t.procs && t.procs[q] == s.procs[q]
  {
    var inode := s.procs[p].phase.inode;
    assert s.procs[p].lock.None?;
    var free := LockComesFree(s, inode);
    assert free.procs[p] == s.procs[p];
    var locked := Apply(free, Lock(p));
    t := HolderLetsGo(locked, p);
    First(free, Lock(p), {p}, t);
    LeadsOn(s, free, t, Holders(s, inode), {p});
    MoreMovers(s, Holders(s, inode) + {p}, t, {p} + LockHolders(s));
  }

  lemma OpensLock(s: State, p: Pid) returns (t: State)
    requires Placed(s) && At(s, p, Launched)
    ensures Leads(s, {p}, t) && Placed(t) && p in t.procs && t.procs[p].phase.Opened?
    ensures LockHolders(t) == LockHolders(s)
    ensures forall q | q != p && q in s.procs :: q in t.procs && t.procs[q] == s.procs[q]
  {
    assert s.procs[p].lock.None?;
    var touched := Apply(s, Touch(p));
    t := Apply(touched, Open(p));
    StepKeepsPlaced(s, Touch(p));
    StepKeepsPlaced(touched, Open(p));
    Stays(t, {p});
    First(touched, Open(p), {p}, t);
    First(s, Touch(p), {p}, t);
  }

  /** Whatever has happened and gone wrong before, a process that is launched can come to the end of
      its start-up, if those that hold the lock go on and nobody removes the lock file meanwhile:
      it serves or is refused, and holds no lock. Nobody else needs to move, let alone to die. */
  lemma EveryStarterFinishes(start: State, steps: seq<Step>, s: State, p: Pid) returns (t: State)
    requires Initial(start) && Runs(start, steps, s) && At(s, p, Launched)
    ensures Leads(s, {p} + LockHolders(s), t)
    ensures (At(t, p, Serving) || At(t, p, Refused)) && t.procs[p].lock.None?
    ensures forall q | q in s.procs && q != p && s.procs[q].lock.None? :: q in t.procs && t.procs[q] == s.procs[q]
  {
    RunKeepsPlaced(start, steps, s);
    var ready := OpensLock(s, p);
    t := OpenerFinishes(ready, p);
    var movers := {p} + LockHolders(s);
    LeadsOn(s, ready, t, {p}, movers);
    assert {p} + movers == movers;
  }

  /** A server can always stop: it lets the lock go if it still has it, removes the lock file and
      then the PID file. Without the lock it may also remove the PID file only. */
  lemma ServerStops(s: State, p: Pid) returns (t: State)
    requires At(s, p, Serving)
    ensures Leads(s, {p}, t) && At(t, p, Stopped) && t.pidFile.None? && t.lockFile.None?
    ensures s.procs[p].lock.None? ==> Enabled(s, RemovePid(p)) && Apply(s, RemovePid(p)).lockFile == s.lockFile
  {
    var unlocked := if s.procs[p].lock.Some? then Apply(s, Unlock(p)) else s;
    var unlinked := Apply(unlocked, UnlinkLock(p));
    t := Apply(unlinked, RemovePid(p));
    Stays(t, {p});
    First(unlinked, RemovePid(p), {p}, t);
    First(unlocked, UnlinkLock(p), {p}, t);
    if s.procs[p].lock.Some? {
      First(s, Unlock(p), {p}, t);
    }
  }
}

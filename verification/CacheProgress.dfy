/** A server that is not stopped gets to serve (internal/runtime/prep.go, internal/runtime/serve.go). */
module CacheProgress {
  import opened Wrappers
  import opened Files
  import opened CacheProtocol

  /** A process can crash in any state, leaving the files as they are, and its lock goes with it. */
  lemma ServersCanCrash(c: Config, s: State, p: Pid)
    requires p in s.procs && !s.procs[p].pc.Stopped?
    ensures Enabled(c, s, Stop(p))
    ensures var t := Do(c, s, Stop(p));
            && t.disk == s.disk && t.procs[p].pc.Stopped?
            && (WellPlaced(c, s, p) && Here(s, p) in s.locks && s.locks[Here(s, p)] == p ==> Here(s, p) !in t.locks)
  {
  }

  /** A download can deliver anything, and what it delivers is appended. */
  lemma AnythingCanArrive(c: Config, s: State, p: Pid, chunk: Bytes)
    requires WellPlaced(c, s, p) && s.procs[p].pc.Writing? && AtFile(c, s, p, s.procs[p].pc.i)
    ensures Enabled(c, s, Receive(p, chunk))
    ensures var at := (Here(s, p), c.lists(Here(s, p))[s.procs[p].pc.i].path);
            var t := Do(c, s, Receive(p, chunk));
            at in t.disk && t.disk[at] == (if at in s.disk then s.disk[at] else []) + chunk
  {
  }

  /** The store's copy of every listed file. */
  type Supply = (Dir, string) -> Bytes

  /** What can be fetched is worth fetching, and what must be in place is, for every job still to do. */
  predicate Feasible(c: Config, s: State, p: Pid, supply: Supply)
    requires p in s.procs
  {
    forall k | s.procs[p].done <= k < |s.procs[p].plan| :: JobFeasible(c, s, s.procs[p].plan[k], supply)
  }

  predicate JobFeasible(c: Config, s: State, job: Job, supply: Supply) {
    if job.fetch then
      forall i | 0 <= i < |c.lists(job.dir)| ::
        Matches(supply(job.dir, c.lists(job.dir)[i].path), c.lists(job.dir)[i], c.hash)
    else Settled(c, s, job.dir)
  }

  /** Nobody else is inside a directory. */
  predicate Alone(s: State, p: Pid) { forall q | q in s.procs && q != p :: !Inside(s.procs[q].pc) }

  predicate Good(c: Config, s: State, p: Pid, supply: Supply) {
    p in s.procs && Inv(c, s) && NoStaleLock(s) && Alone(s, p) && Feasible(c, s, p, supply)
  }

  predicate Forward(step: Step) { !step.Stop? && !step.ReadFails? && !step.Begin? }

  predicate Solo(p: Pid, steps: seq<Step>) {
    forall i | 0 <= i < |steps| :: steps[i].p == p && Forward(steps[i])
  }

  lemma GoodStep(c: Config, s: State, p: Pid, supply: Supply, step: Step)
    requires c.Ok() && c.locking && !c.readsFail && Good(c, s, p, supply)
    requires Enabled(c, s, step) && step.p == p && Forward(step)
    ensures Good(c, Do(c, s, step), p, supply)
  {
    var t := Do(c, s, step);
    StepKeepsInv(c, s, step);
    StepKeepsLocksLive(c, s, step);
    OthersStand(c, s, step);
    DoneAfter(c, s, step, p);
    forall k | t.procs[p].done <= k < |t.procs[p].plan| ensures JobFeasible(c, t, t.procs[p].plan[k], supply) {
      var job := s.procs[p].plan[k];
      assert JobFeasible(c, s, job, supply);
      if !job.fetch {
        SettledStays(c, s, step, job.dir);
      }
    }
  }

  lemma OthersStand(c: Config, s: State, step: Step)
    requires Enabled(c, s, step) && !step.Begin?
    ensures Do(c, s, step).procs.Keys == s.procs.Keys
    ensures forall q | q in s.procs && q != step.p :: Do(c, s, step).procs[q] == s.procs[q]
  {
  }

  /** One more step of p in a run from s. */
  lemma Take(c: Config, s: State, p: Pid, supply: Supply, steps: seq<Step>, step: Step) returns (longer: seq<Step>)
    requires c.Ok() && c.locking && !c.readsFail && Solo(p, steps) && Run(c, s, steps).Some?
    requires Good(c, Run(c, s, steps).value, p, supply)
    requires step.p == p && Forward(step) && Enabled(c, Run(c, s, steps).value, step)
    ensures longer == steps + [step] && Solo(p, longer)
    ensures Run(c, s, longer) == Some(Do(c, Run(c, s, steps).value, step))
    ensures Good(c, Run(c, s, longer).value, p, supply)
  {
    longer := steps + [step];
    assert longer[..|longer| - 1] == steps;
    GoodStep(c, Run(c, s, steps).value, p, supply, step);
  }

  /** Where a run of p from s has brought it. */
  predicate At(c: Config, s: State, p: Pid, supply: Supply, steps: seq<Step>, plan: seq<Job>, done: nat, pc: PC) {
    && Solo(p, steps) && Run(c, s, steps).Some?
    && var t := Run(c, s, steps).value;
       && Good(c, t, p, supply)
       && t.procs[p].plan == plan && t.procs[p].done == done && t.procs[p].pc == pc
  }

  predicate InDisk(s: State, d: Dir, path: string, content: Bytes) {
    (d, path) in s.disk && s.disk[(d, path)] == content
  }

  lemma Opens(c: Config, s: State, p: Pid, supply: Supply, steps: seq<Step>, plan: seq<Job>, done: nat, i: nat)
    returns (longer: seq<Step>)
    requires c.Ok() && c.locking && !c.readsFail && At(c, s, p, supply, steps, plan, done, Missed(i))
    requires done < |plan| && plan[done].fetch && i < |c.lists(plan[done].dir)|
    ensures At(c, s, p, supply, longer, plan, done, Writing(i))
    ensures InDisk(Run(c, s, longer).value, plan[done].dir, c.lists(plan[done].dir)[i].path, [])
  {
    longer := Take(c, s, p, supply, steps, Truncate(p));
  }

  lemma Fills(c: Config, s: State, p: Pid, supply: Supply, steps: seq<Step>, plan: seq<Job>, done: nat, i: nat,
              content: Bytes)
    returns (longer: seq<Step>)
    requires c.Ok() && c.locking && !c.readsFail && At(c, s, p, supply, steps, plan, done, Writing(i))
    requires done < |plan| && i < |c.lists(plan[done].dir)|
    requires InDisk(Run(c, s, steps).value, plan[done].dir, c.lists(plan[done].dir)[i].path, [])
    ensures At(c, s, p, supply, longer, plan, done, Writing(i))
    ensures InDisk(Run(c, s, longer).value, plan[done].dir, c.lists(plan[done].dir)[i].path, content)
  {
    longer := Take(c, s, p, supply, steps, Receive(p, content));
    assert [] + content == content;
  }

  lemma Closes(c: Config, s: State, p: Pid, supply: Supply, steps: seq<Step>, plan: seq<Job>, done: nat, i: nat,
               content: Bytes)
    returns (longer: seq<Step>)
    requires c.Ok() && c.locking && !c.readsFail && At(c, s, p, supply, steps, plan, done, Writing(i))
    requires done < |plan| && i < |c.lists(plan[done].dir)|
    requires InDisk(Run(c, s, steps).value, plan[done].dir, c.lists(plan[done].dir)[i].path, content)
    ensures At(c, s, p, supply, longer, plan, done, Arrived(i))
    ensures InDisk(Run(c, s, longer).value, plan[done].dir, c.lists(plan[done].dir)[i].path, content)
  {
    longer := Take(c, s, p, supply, steps, EndDownload(p));
  }

  lemma LooksAgain(c: Config, s: State, p: Pid, supply: Supply, steps: seq<Step>, plan: seq<Job>, done: nat, i: nat,
                   content: Bytes)
    returns (longer: seq<Step>)
    requires c.Ok() && c.locking && !c.readsFail && At(c, s, p, supply, steps, plan, done, Arrived(i))
    requires done < |plan| && i < |c.lists(plan[done].dir)| && Matches(content, c.lists(plan[done].dir)[i], c.hash)
    requires InDisk(Run(c, s, steps).value, plan[done].dir, c.lists(plan[done].dir)[i].path, content)
    ensures At(c, s, p, supply, longer, plan, done, Checking(i + 1))
  {
    longer := StatsAgain(c, s, p, supply, steps, plan, done, i, content);
    longer := Take(c, s, p, supply, longer, HashAgain(p));
  }

  lemma StatsAgain(c: Config, s: State, p: Pid, supply: Supply, steps: seq<Step>, plan: seq<Job>, done: nat, i: nat,
                   content: Bytes)
    returns (longer: seq<Step>)
    requires c.Ok() && c.locking && !c.readsFail && At(c, s, p, supply, steps, plan, done, Arrived(i))
    requires done < |plan| && i < |c.lists(plan[done].dir)| && |content| == c.lists(plan[done].dir)[i].size
    requires InDisk(Run(c, s, steps).value, plan[done].dir, c.lists(plan[done].dir)[i].path, content)
    ensures At(c, s, p, supply, longer, plan, done, ArrivedSize(i))
    ensures InDisk(Run(c, s, longer).value, plan[done].dir, c.lists(plan[done].dir)[i].path, content)
  {
    longer := Take(c, s, p, supply, steps, StatAgain(p));
  }

  /** A file that was missed is fetched, and what arrives passes the second look. */
  lemma Fetches(c: Config, s: State, p: Pid, supply: Supply, steps: seq<Step>, plan: seq<Job>, done: nat, i: nat)
    returns (longer: seq<Step>)
    requires c.Ok() && c.locking && !c.readsFail && At(c, s, p, supply, steps, plan, done, Missed(i))
    requires done < |plan| && plan[done].fetch && i < |c.lists(plan[done].dir)|
    ensures At(c, s, p, supply, longer, plan, done, Checking(i + 1))
  {
    var content := supply(plan[done].dir, c.lists(plan[done].dir)[i].path);
    assert JobFeasible(c, Run(c, s, steps).value, plan[done], supply);
    longer := Opens(c, s, p, supply, steps, plan, done, i);
    longer := Fills(c, s, p, supply, longer, plan, done, i, content);
    longer := Closes(c, s, p, supply, longer, plan, done, i, content);
    longer := LooksAgain(c, s, p, supply, longer, plan, done, i, content);
  }

  /** A file of a directory used in place is never missed. */
  lemma InPlaceMatches(c: Config, s: State, p: Pid, supply: Supply, i: nat)
    requires Good(c, s, p, supply) && s.procs[p].done < |s.procs[p].plan|
    requires !s.procs[p].plan[s.procs[p].done].fetch && i < |c.lists(Here(s, p))|
    ensures Holds(c, s, Here(s, p), c.lists(Here(s, p))[i])
  {
    assert JobFeasible(c, s, s.procs[p].plan[s.procs[p].done], supply);
    assert DirReady(c, s, Here(s, p));
  }

  lemma LooksAt(c: Config, s: State, p: Pid, supply: Supply, steps: seq<Step>, plan: seq<Job>, done: nat, i: nat)
    returns (longer: seq<Step>, missed: bool)
    requires c.Ok() && c.locking && !c.readsFail && At(c, s, p, supply, steps, plan, done, Checking(i))
    requires done < |plan| && i < |c.lists(plan[done].dir)|
    ensures At(c, s, p, supply, longer, plan, done, if missed then Missed(i) else Checking(i + 1))
    ensures missed ==> plan[done].fetch
  {
    var t := Run(c, s, steps).value;
    assert ProcInv(c, t, p);
    longer := Take(c, s, p, supply, steps, Stat(p));
    var u := Run(c, s, longer).value;
    if !plan[done].fetch {
      InPlaceMatches(c, t, p, supply, i);
      InPlaceMatches(c, u, p, supply, i);
    }
    missed := u.procs[p].pc.Missed?;
    if !missed {
      longer := Take(c, s, p, supply, longer, HashFile(p));
      missed := Run(c, s, longer).value.procs[p].pc.Missed?;
    }
  }

  /** One listed file, left alone or fetched. */
  lemma PassesFile(c: Config, s: State, p: Pid, supply: Supply, steps: seq<Step>, plan: seq<Job>, done: nat, i: nat)
    returns (longer: seq<Step>)
    requires c.Ok() && c.locking && !c.readsFail && At(c, s, p, supply, steps, plan, done, Checking(i))
    requires done < |plan| && i < |c.lists(plan[done].dir)|
    ensures At(c, s, p, supply, longer, plan, done, Checking(i + 1))
  {
    var missed;
    longer, missed := LooksAt(c, s, p, supply, steps, plan, done, i);
    if missed {
      longer := Fetches(c, s, p, supply, longer, plan, done, i);
    }
  }

  lemma {:induction false} PassesFiles(c: Config, s: State, p: Pid, supply: Supply, steps: seq<Step>, plan: seq<Job>,
                                       done: nat, i: nat)
    returns (longer: seq<Step>)
    requires c.Ok() && c.locking && !c.readsFail && At(c, s, p, supply, steps, plan, done, Checking(i))
    requires done < |plan| && i <= |c.lists(plan[done].dir)|
    ensures At(c, s, p, supply, longer, plan, done, Unlocking)
    decreases |c.lists(plan[done].dir)| - i
  {
    if i == |c.lists(plan[done].dir)| {
      longer := Take(c, s, p, supply, steps, Stat(p));
    } else {
      longer := PassesFile(c, s, p, supply, steps, plan, done, i);
      longer := PassesFiles(c, s, p, supply, longer, plan, done, i + 1);
    }
  }

  /** The lock is free when nobody else is inside. */
  lemma LockIsFree(c: Config, s: State, p: Pid)
    requires p in s.procs && s.procs[p].pc.Outside? && s.procs[p].done < |s.procs[p].plan|
    requires NoStaleLock(s) && Alone(s, p)
    ensures Enabled(c, s, Lock(p))
  {
    if Here(s, p) in s.locks {
      assert LiveLock(s, Here(s, p));
    }
  }

  lemma DoesJob(c: Config, s: State, p: Pid, supply: Supply, steps: seq<Step>, plan: seq<Job>, done: nat)
    returns (longer: seq<Step>)
    requires c.Ok() && c.locking && !c.readsFail && At(c, s, p, supply, steps, plan, done, Outside)
    requires done < |plan|
    ensures At(c, s, p, supply, longer, plan, done + 1, Outside)
  {
    LockIsFree(c, Run(c, s, steps).value, p);
    longer := Take(c, s, p, supply, steps, Lock(p));
    longer := PassesFiles(c, s, p, supply, longer, plan, done, 0);
    longer := Take(c, s, p, supply, longer, Unlock(p));
  }

  lemma {:induction false} DoesJobs(c: Config, s: State, p: Pid, supply: Supply, steps: seq<Step>, plan: seq<Job>,
                                    done: nat)
    returns (longer: seq<Step>)
    requires c.Ok() && c.locking && !c.readsFail && At(c, s, p, supply, steps, plan, done, Outside)
    requires done <= |plan|
    ensures At(c, s, p, supply, longer, plan, |plan|, Outside)
    decreases |plan| - done
  {
    if done == |plan| {
      longer := steps;
    } else {
      longer := DoesJob(c, s, p, supply, steps, plan, done);
      longer := DoesJobs(c, s, p, supply, longer, plan, done + 1);
    }
  }

  lemma GetsToServe(c: Config, s: State, p: Pid, supply: Supply) returns (steps: seq<Step>)
    requires c.Ok() && c.locking && !c.readsFail && Good(c, s, p, supply) && s.procs[p].pc.Outside?
    ensures Solo(p, steps) && Run(c, s, steps).Some? && Ready(Run(c, s, steps).value, p, true)
  {
    assert ProcInv(c, s, p);
    steps := DoesJobs(c, s, p, supply, [], s.procs[p].plan, s.procs[p].done);
    steps := Take(c, s, p, supply, steps, MemoryCheckPasses(p));
    steps := Take(c, s, p, supply, steps, SetWeightsLoaded(p, 1.0));
  }

  lemma {:induction false} RunAppend(c: Config, s: State, first: seq<Step>, more: seq<Step>)
    requires Run(c, s, first).Some?
    ensures Run(c, s, first + more) == Run(c, Run(c, s, first).value, more)
  {
    if more == [] {
      assert first + more == first;
    } else {
      var n := |more| - 1;
      assert (first + more)[..|first + more| - 1] == first + more[..n];
      RunAppend(c, s, first, more[..n]);
    }
  }

  /**
   * Convergence: in every reachable state, whatever crashed before and whatever the cache holds, a server
   * that is not inside a directory, when nobody else is, can prepare every directory it may fetch from a
   * store that has the files, find the others in place, and become ready; and then all of them match.
   */
  lemma EveryServerCanServe(c: Config, s: State, first: seq<Step>, p: Pid, supply: Supply) returns (steps: seq<Step>)
    requires c.Ok() && c.locking && !c.readsFail && Init(s) && Run(c, s, first).Some?
    requires var t := Run(c, s, first).value;
             p in t.procs && t.procs[p].pc.Outside? && Alone(t, p) && Feasible(c, t, p, supply)
    ensures Solo(p, steps) && Run(c, s, first + steps).Some?
    ensures var t := Run(c, s, first + steps).value;
            && Ready(t, p, true)
            && forall k | 0 <= k < |t.procs[p].plan| :: DirReady(c, t, t.procs[p].plan[k].dir)
  {
    ReachableInv(c, s, first);
    ReachableLocks(c, s, first);
    steps := GetsToServe(c, Run(c, s, first).value, p, supply);
    RunAppend(c, s, first, steps);
    ReadyMeansVerified(c, s, first + steps, p, true);
  }
}

/**
 * Any number of `fornax serve` processes preparing weight directories on one host, under a lock per
 * directory, with non-atomic downloads and crashes at any step (internal/runtime/prep.go,
 * internal/runtime/serve.go, internal/runtime/shim.go).
 */
module CacheProtocol {
  import opened Wrappers
  import opened Files

  type Pid = nat
  type Dir = string

  /** One directory to prepare; load: local checks it without fetching. */
  datatype Job = Job(dir: Dir, fetch: bool)

  /**
   * `lists(d)` is the file list every process uses for directory d; `locking` is what lockDir provides;
   * `readsFail` says whether looking at a file may fail, which counts as a miss.
   */
  datatype Config = Config(lists: Dir -> seq<FileEntry>, hash: Hash, locking: bool, readsFail: bool)
  {
    ghost predicate Ok() { forall d: Dir :: Consistent(lists(d)) }
  }

  datatype PC =
    | Outside                  // between jobs; after the last one, before the memory check
    | Checking(i: nat)         // holds the lock, about to stat file i
    | SizeMatched(i: nat)      // about to hash it
    | Missed(i: nat)           // decided to fetch it, file not opened yet
    | Writing(i: nat)          // truncated it and is writing what arrives
    | Arrived(i: nat)          // download done, about to stat
    | ArrivedSize(i: nat)      // about to hash
    | Unlocking                // every file of this job is in place
    | Budgeted                 // CheckMemoryBudget returned nil
    | Serving                  // SetWeightsLoaded was called; the engine may run
    | Stopped                  // crashed, or returned an error

  /** `done` jobs are finished; weightsSecs is the shim's field, 0 until the weights are loaded. */
  datatype Proc = Proc(plan: seq<Job>, done: nat, pc: PC, weightsSecs: real)

  datatype State = State(disk: map<(Dir, string), Bytes>, locks: map<Dir, Pid>, procs: map<Pid, Proc>)

  /** The files of one directory. */
  predicate Holds(c: Config, s: State, d: Dir, f: FileEntry) {
    (d, f.path) in s.disk && Matches(s.disk[(d, f.path)], f, c.hash)
  }

  predicate DirReady(c: Config, s: State, d: Dir) {
    forall i | 0 <= i < |c.lists(d)| :: Holds(c, s, d, c.lists(d)[i])
  }

  datatype Step =
    | Begin(p: Pid, plan: seq<Job>)
    | Lock(p: Pid)
    | Stat(p: Pid)
    | HashFile(p: Pid)
    | ReadFails(p: Pid)
    | Truncate(p: Pid)
    | Receive(p: Pid, chunk: Bytes)
    | EndDownload(p: Pid)
    | StatAgain(p: Pid)
    | HashAgain(p: Pid)
    | Unlock(p: Pid)
    | MemoryCheckPasses(p: Pid)
    | SetWeightsLoaded(p: Pid, seconds: real)
    | Stop(p: Pid) // a crash or an error; the lock goes with the descriptor

  /** Inside lockDir's critical section. */
  predicate Inside(pc: PC) {
    pc.Checking? || pc.SizeMatched? || pc.Missed? || pc.Writing? || pc.Arrived? || pc.ArrivedSize? || pc.Unlocking?
  }

  predicate WellPlaced(c: Config, s: State, p: Pid) {
    p in s.procs && Inside(s.procs[p].pc) && s.procs[p].done < |s.procs[p].plan|
  }

  /** The directory the process is working on. */
  function Here(s: State, p: Pid): Dir
    requires p in s.procs && s.procs[p].done < |s.procs[p].plan|
  {
    s.procs[p].plan[s.procs[p].done].dir
  }

  predicate AtFile(c: Config, s: State, p: Pid, i: nat) {
    WellPlaced(c, s, p) && i < |c.lists(Here(s, p))|
  }

  predicate Enabled(c: Config, s: State, step: Step) {
    match step
    case Begin(p, plan) => p !in s.procs
    case Lock(p) => p in s.procs && s.procs[p].pc.Outside? && s.procs[p].done < |s.procs[p].plan|
                    && (c.locking ==> Here(s, p) !in s.locks)
    case Stat(p) => WellPlaced(c, s, p) && s.procs[p].pc.Checking?
    case HashFile(p) => WellPlaced(c, s, p) && s.procs[p].pc.SizeMatched? && AtFile(c, s, p, s.procs[p].pc.i)
    case ReadFails(p) => c.readsFail && WellPlaced(c, s, p)
                         && (s.procs[p].pc.Checking? || s.procs[p].pc.SizeMatched?) && AtFile(c, s, p, s.procs[p].pc.i)
    case Truncate(p) => WellPlaced(c, s, p) && s.procs[p].pc.Missed? && AtFile(c, s, p, s.procs[p].pc.i)
                        && s.procs[p].plan[s.procs[p].done].fetch
    case Receive(p, chunk) => WellPlaced(c, s, p) && s.procs[p].pc.Writing? && AtFile(c, s, p, s.procs[p].pc.i)
    case EndDownload(p) => WellPlaced(c, s, p) && s.procs[p].pc.Writing?
    case StatAgain(p) => WellPlaced(c, s, p) && s.procs[p].pc.Arrived? && AtFile(c, s, p, s.procs[p].pc.i)
    case HashAgain(p) => WellPlaced(c, s, p) && s.procs[p].pc.ArrivedSize? && AtFile(c, s, p, s.procs[p].pc.i)
    case Unlock(p) => WellPlaced(c, s, p) && s.procs[p].pc.Unlocking?
    case MemoryCheckPasses(p) => p in s.procs && s.procs[p].pc.Outside? && s.procs[p].done == |s.procs[p].plan|
    case SetWeightsLoaded(p, seconds) => p in s.procs && s.procs[p].pc.Budgeted? && seconds >= 0.0
    case Stop(p) => p in s.procs && !s.procs[p].pc.Stopped?
  }

  function Move(s: State, p: Pid, pc: PC): State
    requires p in s.procs
  {
    s.(procs := s.procs[p := s.procs[p].(pc := pc)])
  }

  function Free(c: Config, s: State, p: Pid): map<Dir, Pid> {
    if WellPlaced(c, s, p) && Here(s, p) in s.locks && s.locks[Here(s, p)] == p then s.locks - {Here(s, p)}
    else s.locks
  }

  function Do(c: Config, s: State, step: Step): State
    requires Enabled(c, s, step)
  {
    match step
    case Begin(p, plan) => s.(procs := s.procs[p := Proc(plan, 0, Outside, 0.0)])
    case Lock(p) => Move(s, p, Checking(0)).(locks := s.locks[Here(s, p) := p])
    case Stat(p) =>
      var d, i := Here(s, p), s.procs[p].pc.i;
      if i >= |c.lists(d)| then Move(s, p, Unlocking)
      else
        var f := c.lists(d)[i];
        if (d, f.path) in s.disk && |s.disk[(d, f.path)]| == f.size then Move(s, p, SizeMatched(i))
        else Move(s, p, Missed(i))
    case HashFile(p) =>
      var d, i := Here(s, p), s.procs[p].pc.i;
      var f := c.lists(d)[i];
      if (d, f.path) in s.disk && c.hash(s.disk[(d, f.path)]) == f.sha256 then Move(s, p, Checking(i + 1))
      else Move(s, p, Missed(i))
    case ReadFails(p) => Move(s, p, Missed(s.procs[p].pc.i))
    case Truncate(p) =>
      var d, i := Here(s, p), s.procs[p].pc.i;
      Move(s, p, Writing(i)).(disk := s.disk[(d, c.lists(d)[i].path) := []])
    case Receive(p, chunk) =>
      var d, i := Here(s, p), s.procs[p].pc.i;
      var at := (d, c.lists(d)[i].path);
      s.(disk := s.disk[at := (if at in s.disk then s.disk[at] else []) + chunk])
    case EndDownload(p) => Move(s, p, Arrived(s.procs[p].pc.i))
    case StatAgain(p) =>
      var d, i := Here(s, p), s.procs[p].pc.i;
      var f := c.lists(d)[i];
      if (d, f.path) in s.disk && |s.disk[(d, f.path)]| == f.size then Move(s, p, ArrivedSize(i))
      else Move(s, p, Stopped).(locks := Free(c, s, p))
    case HashAgain(p) =>
      var d, i := Here(s, p), s.procs[p].pc.i;
      var f := c.lists(d)[i];
      if (d, f.path) in s.disk && c.hash(s.disk[(d, f.path)]) == f.sha256 then Move(s, p, Checking(i + 1))
      else Move(s, p, Stopped).(locks := Free(c, s, p))
    case Unlock(p) =>
      var proc := s.procs[p];
      State(s.disk, Free(c, s, p), s.procs[p := proc.(done := proc.done + 1, pc := Outside)])
    case MemoryCheckPasses(p) => Move(s, p, Budgeted)
    case SetWeightsLoaded(p, seconds) =>
      s.(procs := s.procs[p := s.procs[p].(pc := Serving, weightsSecs := seconds)])
    case Stop(p) => Move(s, p, Stopped).(locks := Free(c, s, p))
  }

  /** Any cache contents; nobody is running. */
  predicate Init(s: State) { s.procs == map[] && s.locks == map[] }

  function Run(c: Config, s: State, steps: seq<Step>): Option<State> {
    if steps == [] then Some(s)
    else
      var before := Run(c, s, steps[..|steps| - 1]);
      var last := steps[|steps| - 1];
      if before.Some? && Enabled(c, before.value, last) then Some(Do(c, before.value, last)) else None
  }

  /** What /readyz asks: the shim's field is positive and the engine answers. */
  predicate Ready(s: State, p: Pid, engineHealthy: bool) {
    p in s.procs && s.procs[p].pc.Serving? && s.procs[p].weightsSecs > 0.0 && engineHealthy
  }

  // ----- what every state keeps -----

  /** Somebody is in the middle of writing a file of this directory. */
  predicate BeingWritten(s: State, d: Dir) {
    exists p | p in s.procs :: s.procs[p].pc.Writing? && s.procs[p].done < |s.procs[p].plan| && Here(s, p) == d
  }

  predicate Settled(c: Config, s: State, d: Dir) { DirReady(c, s, d) && !BeingWritten(s, d) }

  /** A process inside a critical section has a job, holds its lock, and is at a listed file. */
  predicate LockInv(c: Config, s: State, p: Pid)
    requires p in s.procs
  {
    var proc := s.procs[p];
    && proc.done <= |proc.plan|
    && (Inside(proc.pc) ==>
          && proc.done < |proc.plan|
          && Here(s, p) in s.locks && s.locks[Here(s, p)] == p)
  }

  /** The files it has been past match. */
  predicate PassedInv(c: Config, s: State, p: Pid)
    requires p in s.procs && LockInv(c, s, p)
  {
    var pc := s.procs[p].pc;
    Inside(pc) ==>
      var files := c.lists(Here(s, p));
      var n := if pc.Unlocking? then |files| else pc.i;
      && n <= |files|
      && (!pc.Unlocking? && !pc.Checking? ==> n < |files|)
      && forall j | 0 <= j < n :: Holds(c, s, Here(s, p), files[j])
  }

  /** No earlier entry of the list is the same file. */
  predicate FirstMention(files: seq<FileEntry>, i: nat)
    requires i < |files|
  {
    forall j | 0 <= j < i :: files[j].path != files[i].path
  }

  /** Sizes read in one step still hold at the next, and a decision to fetch is still justified. */
  predicate FileInv(c: Config, s: State, p: Pid)
    requires p in s.procs && LockInv(c, s, p) && PassedInv(c, s, p)
  {
    var pc := s.procs[p].pc;
    && (pc.Missed? ==> !Holds(c, s, Here(s, p), c.lists(Here(s, p))[pc.i]))
    && (pc.SizeMatched? || pc.ArrivedSize? ==>
          var f := c.lists(Here(s, p))[pc.i];
          (Here(s, p), f.path) in s.disk && |s.disk[(Here(s, p), f.path)]| == f.size)
    && (pc.Writing? ==> FirstMention(c.lists(Here(s, p)), pc.i))
  }

  /** Finished jobs are settled; the later stages of Serve have finished them all. */
  predicate DoneInv(c: Config, s: State, p: Pid)
    requires p in s.procs && LockInv(c, s, p)
  {
    var proc := s.procs[p];
    && (forall k | 0 <= k < proc.done :: Settled(c, s, proc.plan[k].dir))
    && (proc.pc.Budgeted? || proc.pc.Serving? ==> proc.done == |proc.plan|)
  }

  predicate ProcInv(c: Config, s: State, p: Pid)
    requires p in s.procs
  {
    LockInv(c, s, p) && PassedInv(c, s, p) && FileInv(c, s, p) && DoneInv(c, s, p)
  }

  predicate Inv(c: Config, s: State) { forall p | p in s.procs :: ProcInv(c, s, p) }

  lemma OneHolder(c: Config, s: State, p: Pid, q: Pid)
    requires p in s.procs && q in s.procs && LockInv(c, s, p) && LockInv(c, s, q)
    requires Inside(s.procs[p].pc) && Inside(s.procs[q].pc) && Here(s, p) == Here(s, q)
    ensures p == q
  {
  }

  /** The file a step writes, if it writes one. */
  function Target(c: Config, s: State, step: Step): Option<(Dir, string)>
    requires Enabled(c, s, step)
  {
    if step.Truncate? || step.Receive? then
      Some((Here(s, step.p), c.lists(Here(s, step.p))[s.procs[step.p].pc.i].path))
    else None
  }

  lemma OnlyTargetChanges(c: Config, s: State, step: Step, at: (Dir, string))
    requires Enabled(c, s, step) && Target(c, s, step) != Some(at)
    ensures var t := Do(c, s, step);
            (at in t.disk <==> at in s.disk) && (at in s.disk ==> t.disk[at] == s.disk[at])
  {
  }

  /** A settled directory is never written: whoever wants to has to see a mismatch first. */
  lemma SettledIsNoTarget(c: Config, s: State, step: Step, d: Dir)
    requires Inv(c, s) && Enabled(c, s, step) && Settled(c, s, d)
    ensures Target(c, s, step).Some? ==> Target(c, s, step).value.0 != d
  {
    if step.p in s.procs {
      assert ProcInv(c, s, step.p);
    }
  }

  lemma SettledStays(c: Config, s: State, step: Step, d: Dir)
    requires Inv(c, s) && Enabled(c, s, step) && Settled(c, s, d)
    ensures Settled(c, Do(c, s, step), d)
  {
    var t := Do(c, s, step);
    SettledIsNoTarget(c, s, step, d);
    forall i | 0 <= i < |c.lists(d)| ensures Holds(c, t, d, c.lists(d)[i]) {
      assert Holds(c, s, d, c.lists(d)[i]);
      OnlyTargetChanges(c, s, step, (d, c.lists(d)[i].path));
    }
    forall p | p in t.procs && t.procs[p].pc.Writing? && t.procs[p].done < |t.procs[p].plan|
      ensures Here(t, p) != d
    {
      assert p in s.procs && Here(s, p) == Here(t, p);
    }
  }

  /** What a process inside a directory relies on, other processes cannot touch. */
  lemma OthersLeaveItAlone(c: Config, s: State, step: Step, p: Pid, path: string)
    requires Inv(c, s) && Enabled(c, s, step) && step.p != p
    requires p in s.procs && Inside(s.procs[p].pc)
    ensures var t := Do(c, s, step);
            var at := (Here(s, p), path);
            && p in t.procs && t.procs[p] == s.procs[p]
            && (at in t.disk <==> at in s.disk) && (at in s.disk ==> t.disk[at] == s.disk[at])
  {
    assert ProcInv(c, s, p);
    if Target(c, s, step).Some? {
      assert ProcInv(c, s, step.p);
      if Here(s, step.p) == Here(s, p) {
        OneHolder(c, s, p, step.p);
      }
    }
    OnlyTargetChanges(c, s, step, (Here(s, p), path));
  }

  lemma OtherKeepsLock(c: Config, s: State, step: Step, p: Pid)
    requires c.locking && Enabled(c, s, step) && step.p != p
    requires p in s.procs && LockInv(c, s, p) && (step.p in s.procs ==> LockInv(c, s, step.p))
    ensures LockInv(c, Do(c, s, step), p)
  {
    assert Do(c, s, step).procs[p] == s.procs[p];
  }

  lemma SelfKeepsLock(c: Config, s: State, step: Step)
    requires c.locking && Enabled(c, s, step) && (step.p in s.procs ==> LockInv(c, s, step.p))
    ensures LockInv(c, Do(c, s, step), step.p)
  {
  }

  predicate LocksHeld(c: Config, s: State) { forall p | p in s.procs :: LockInv(c, s, p) }

  lemma StepKeepsLock(c: Config, s: State, step: Step, p: Pid)
    requires c.locking && LocksHeld(c, s) && Enabled(c, s, step)
    requires p in Do(c, s, step).procs
    ensures LockInv(c, Do(c, s, step), p)
  {
    if p == step.p {
      SelfKeepsLock(c, s, step);
    } else {
      assert p in s.procs;
      OtherKeepsLock(c, s, step, p);
    }
  }

  lemma OtherKeepsProgress(c: Config, s: State, step: Step, p: Pid)
    requires c.locking && Inv(c, s) && Enabled(c, s, step) && step.p != p && p in s.procs
    requires LockInv(c, Do(c, s, step), p)
    ensures PassedInv(c, Do(c, s, step), p) && FileInv(c, Do(c, s, step), p)
  {
    var t := Do(c, s, step);
    assert ProcInv(c, s, p);
    if Inside(s.procs[p].pc) {
      var d := Here(s, p);
      forall path ensures
        ((d, path) in t.disk <==> (d, path) in s.disk)
        && ((d, path) in s.disk ==> t.disk[(d, path)] == s.disk[(d, path)])
      {
        OthersLeaveItAlone(c, s, step, p, path);
      }
      assert t.procs[p] == s.procs[p];
      forall f: FileEntry ensures Holds(c, t, d, f) <==> Holds(c, s, d, f) {
      }
    }
  }

  lemma SelfLooks(c: Config, s: State, step: Step)
    requires c.Ok() && c.locking && !c.readsFail && Enabled(c, s, step) && Target(c, s, step).None?
    requires step.p in s.procs ==> ProcInv(c, s, step.p)
    requires LockInv(c, Do(c, s, step), step.p)
    ensures PassedInv(c, Do(c, s, step), step.p) && FileInv(c, Do(c, s, step), step.p)
  {
    assert Do(c, s, step).disk == s.disk;
  }

  lemma SelfWrites(c: Config, s: State, step: Step)
    requires c.Ok() && c.locking && !c.readsFail && Enabled(c, s, step) && Target(c, s, step).Some?
    requires step.p in s.procs && ProcInv(c, s, step.p)
    requires LockInv(c, Do(c, s, step), step.p)
    ensures PassedInv(c, Do(c, s, step), step.p) && FileInv(c, Do(c, s, step), step.p)
  {
    var t := Do(c, s, step);
    var p := step.p;
    var d := Here(s, p);
    var i := s.procs[p].pc.i;
    forall j | 0 <= j < i ensures Holds(c, t, d, c.lists(d)[j]) {
      assert Holds(c, s, d, c.lists(d)[j]);
      NotEarlierFile(c, s, p, i, j);
      OnlyTargetChanges(c, s, step, (d, c.lists(d)[j].path));
    }
    if step.Truncate? {
      forall j | 0 <= j < i ensures c.lists(d)[j].path != c.lists(d)[i].path {
        NotEarlierFile(c, s, p, i, j);
      }
    }
  }

  lemma SelfKeepsProgress(c: Config, s: State, step: Step)
    requires c.Ok() && c.locking && !c.readsFail && Inv(c, s) && Enabled(c, s, step)
    requires LockInv(c, Do(c, s, step), step.p)
    ensures PassedInv(c, Do(c, s, step), step.p) && FileInv(c, Do(c, s, step), step.p)
  {
    if step.p in s.procs {
      assert ProcInv(c, s, step.p);
    }
    if Target(c, s, step).Some? {
      SelfWrites(c, s, step);
    } else {
      SelfLooks(c, s, step);
    }
  }

  /** The file being fetched is none of those already passed: they match and it did not. */
  lemma NotEarlierFile(c: Config, s: State, p: Pid, i: nat, j: nat)
    requires c.Ok() && p in s.procs && ProcInv(c, s, p) && Inside(s.procs[p].pc)
    requires s.procs[p].pc.Missed? || s.procs[p].pc.Writing?
    requires i == s.procs[p].pc.i && j < i
    ensures c.lists(Here(s, p))[j].path != c.lists(Here(s, p))[i].path
  {
  }

  /** What a step can do to the count of finished jobs. */
  lemma DoneAfter(c: Config, s: State, step: Step, p: Pid)
    requires Enabled(c, s, step) && p in s.procs
    ensures var t := Do(c, s, step);
            && p in t.procs && t.procs[p].plan == s.procs[p].plan
            && (t.procs[p].done == s.procs[p].done
                || (step == Unlock(p) && t.procs[p].done == s.procs[p].done + 1))
            && (t.procs[p].pc.Budgeted? || t.procs[p].pc.Serving? ==>
                  step == MemoryCheckPasses(p) || s.procs[p].pc.Budgeted? || s.procs[p].pc.Serving?)
  {
  }

  lemma StepKeepsDone(c: Config, s: State, step: Step, p: Pid)
    requires c.locking && Inv(c, s) && Enabled(c, s, step)
    requires p in Do(c, s, step).procs && LockInv(c, Do(c, s, step), p)
    ensures DoneInv(c, Do(c, s, step), p)
  {
    var t := Do(c, s, step);
    if p in s.procs {
      assert ProcInv(c, s, p);
      DoneAfter(c, s, step, p);
      forall k | 0 <= k < t.procs[p].done ensures Settled(c, t, t.procs[p].plan[k].dir) {
        DoneIsSettled(c, s, step, p, k);
      }
    }
  }

  lemma DoneIsSettled(c: Config, s: State, step: Step, p: Pid, k: nat)
    requires c.locking && Inv(c, s) && Enabled(c, s, step)
    requires p in s.procs && k < |s.procs[p].plan|
    requires k < s.procs[p].done || (step == Unlock(p) && k == s.procs[p].done)
    ensures Settled(c, Do(c, s, step), s.procs[p].plan[k].dir)
  {
    assert ProcInv(c, s, p);
    if k == s.procs[p].done {
      FinishedJobIsSettled(c, s, p);
    }
    SettledStays(c, s, step, s.procs[p].plan[k].dir);
  }

  /** At the moment of unlocking every file matches and, thanks to the lock, nobody else is writing. */
  lemma FinishedJobIsSettled(c: Config, s: State, p: Pid)
    requires c.locking && Inv(c, s) && WellPlaced(c, s, p) && s.procs[p].pc.Unlocking?
    ensures Settled(c, s, Here(s, p))
  {
    assert ProcInv(c, s, p);
    forall q | q in s.procs && s.procs[q].pc.Writing? && s.procs[q].done < |s.procs[q].plan|
      ensures Here(s, q) != Here(s, p)
    {
      assert ProcInv(c, s, q);
    }
  }

  lemma StepKeepsInv(c: Config, s: State, step: Step)
    requires c.Ok() && c.locking && !c.readsFail && Inv(c, s) && Enabled(c, s, step)
    ensures Inv(c, Do(c, s, step))
  {
    var t := Do(c, s, step);
    assert LocksHeld(c, s) by {
      assert forall p | p in s.procs :: ProcInv(c, s, p);
    }
    forall p | p in t.procs ensures ProcInv(c, t, p) {
      StepKeepsLock(c, s, step, p);
      if p == step.p {
        SelfKeepsProgress(c, s, step);
      } else {
        OtherKeepsProgress(c, s, step, p);
      }
      StepKeepsDone(c, s, step, p);
    }
  }

  predicate LiveLock(s: State, d: Dir)
    requires d in s.locks
  {
    && s.locks[d] in s.procs && Inside(s.procs[s.locks[d]].pc)
    && s.procs[s.locks[d]].done < |s.procs[s.locks[d]].plan| && Here(s, s.locks[d]) == d
  }

  /** Every lock is held by a live process inside that directory, so a crash never wedges the cache. */
  predicate NoStaleLock(s: State) { forall d | d in s.locks :: LiveLock(s, d) }

  lemma LockStaysLive(c: Config, s: State, step: Step, d: Dir)
    requires c.locking && Enabled(c, s, step)
    requires d in s.locks && LiveLock(s, d) && d in Do(c, s, step).locks
    ensures LiveLock(Do(c, s, step), d)
  {
    var t := Do(c, s, step);
    var p := s.locks[d];
    if step.p != p {
      assert t.procs[p] == s.procs[p];
    }
  }

  lemma StepKeepsLocksLive(c: Config, s: State, step: Step)
    requires c.locking && NoStaleLock(s) && Enabled(c, s, step)
    ensures NoStaleLock(Do(c, s, step))
  {
    var t := Do(c, s, step);
    forall d | d in t.locks ensures LiveLock(t, d) {
      if d in s.locks {
        LockStaysLive(c, s, step, d);
      } else {
        assert step == Lock(step.p);
      }
    }
  }

  // ----- every reachable state -----

  /** What the lock alone keeps, also while reads fail. */
  lemma {:induction false} ReachableLocks(c: Config, s: State, steps: seq<Step>)
    requires c.locking && Init(s) && Run(c, s, steps).Some?
    ensures LocksHeld(c, Run(c, s, steps).value) && NoStaleLock(Run(c, s, steps).value)
  {
    if steps != [] {
      var n := |steps| - 1;
      var before := Run(c, s, steps[..n]).value;
      var t := Run(c, s, steps).value;
      ReachableLocks(c, s, steps[..n]);
      forall p | p in t.procs ensures LockInv(c, t, p) {
        StepKeepsLock(c, before, steps[n], p);
      }
      StepKeepsLocksLive(c, before, steps[n]);
    }
  }

  /** Mutual exclusion, in every reachable state. */
  lemma OneInside(c: Config, s: State, steps: seq<Step>, p: Pid, q: Pid)
    requires c.locking && Init(s) && Run(c, s, steps).Some?
    requires WellPlaced(c, Run(c, s, steps).value, p) && WellPlaced(c, Run(c, s, steps).value, q)
    requires Here(Run(c, s, steps).value, p) == Here(Run(c, s, steps).value, q)
    ensures p == q
  {
    ReachableLocks(c, s, steps);
    OneHolder(c, Run(c, s, steps).value, p, q);
  }

  /** A process that wants a directory can take it as soon as nobody is inside it. */
  lemma LocksAreLive(c: Config, s: State, steps: seq<Step>, p: Pid)
    requires c.locking && Init(s) && Run(c, s, steps).Some?
    ensures var t := Run(c, s, steps).value;
            && NoStaleLock(t)
            && (p in t.procs && t.procs[p].pc.Outside? && t.procs[p].done < |t.procs[p].plan| ==>
                  (Enabled(c, t, Lock(p)) <==> forall q | WellPlaced(c, t, q) :: Here(t, q) != Here(t, p)))
  {
    ReachableLocks(c, s, steps);
    var t := Run(c, s, steps).value;
    forall q | WellPlaced(c, t, q) ensures Here(t, q) in t.locks {
      assert LockInv(c, t, q);
    }
    if p in t.procs && t.procs[p].pc.Outside? && t.procs[p].done < |t.procs[p].plan| && Here(t, p) in t.locks {
      assert LiveLock(t, Here(t, p));
      assert WellPlaced(c, t, t.locks[Here(t, p)]);
    }
  }

  lemma {:induction false} ReachableInv(c: Config, s: State, steps: seq<Step>)
    requires c.Ok() && c.locking && !c.readsFail && Init(s) && Run(c, s, steps).Some?
    ensures Inv(c, Run(c, s, steps).value)
  {
    if steps != [] {
      ReachableInv(c, s, steps[..|steps| - 1]);
      StepKeepsInv(c, Run(c, s, steps[..|steps| - 1]).value, steps[|steps| - 1]);
    }
  }

  /** The file is not being written by anybody. */
  predicate Quiet(c: Config, s: State, d: Dir, path: string) {
    forall p | p in s.procs && s.procs[p].pc.Writing? && AtFile(c, s, p, s.procs[p].pc.i) ::
      (Here(s, p), c.lists(Here(s, p))[s.procs[p].pc.i].path) != (d, path)
  }

  /** Nobody starts or goes on writing a quiet file that matches. */
  lemma MatchingIsNoTarget(c: Config, s: State, step: Step, d: Dir, f: FileEntry)
    requires c.Ok() && Inv(c, s) && Enabled(c, s, step)
    requires f in c.lists(d) && Holds(c, s, d, f) && Quiet(c, s, d, f.path)
    ensures Target(c, s, step) != Some((d, f.path))
  {
    if step.p in s.procs {
      assert ProcInv(c, s, step.p);
    }
  }

  lemma QuietStays(c: Config, s: State, step: Step, d: Dir, path: string)
    requires Enabled(c, s, step) && Quiet(c, s, d, path) && Target(c, s, step) != Some((d, path))
    ensures Quiet(c, Do(c, s, step), d, path)
  {
    var t := Do(c, s, step);
    forall p | p in t.procs && t.procs[p].pc.Writing? && AtFile(c, t, p, t.procs[p].pc.i)
      ensures (Here(t, p), c.lists(Here(t, p))[t.procs[p].pc.i].path) != (d, path)
    {
      if p != step.p {
        assert t.procs[p] == s.procs[p];
      }
    }
  }

  lemma MatchingFileStays(c: Config, s: State, step: Step, d: Dir, f: FileEntry)
    requires c.Ok() && Inv(c, s) && Enabled(c, s, step)
    requires f in c.lists(d) && Holds(c, s, d, f) && Quiet(c, s, d, f.path)
    ensures var t := Do(c, s, step);
            Holds(c, t, d, f) && Quiet(c, t, d, f.path) && t.disk[(d, f.path)] == s.disk[(d, f.path)]
  {
    MatchingIsNoTarget(c, s, step, d, f);
    QuietStays(c, s, step, d, f.path);
    OnlyTargetChanges(c, s, step, (d, f.path));
  }

  /**
   * In every interleaving a listed file that matches while nobody is downloading it is never written
   * again, to the byte, for the rest of the run.
   */
  lemma {:induction false} MatchingFileIsNeverWrittenAgain(c: Config, s: State, first: seq<Step>, more: seq<Step>,
                                                           d: Dir, f: FileEntry)
    requires c.Ok() && c.locking && !c.readsFail && Init(s) && Run(c, s, first).Some? && Run(c, s, first + more).Some?
    requires f in c.lists(d)
    requires Holds(c, Run(c, s, first).value, d, f) && Quiet(c, Run(c, s, first).value, d, f.path)
    ensures var t := Run(c, s, first + more).value;
            && Holds(c, t, d, f) && Quiet(c, t, d, f.path)
            && t.disk[(d, f.path)] == Run(c, s, first).value.disk[(d, f.path)]
  {
    if more == [] {
      assert first + more == first;
    } else {
      var n := |more| - 1;
      var shorter := first + more[..n];
      assert (first + more)[..|first + more| - 1] == shorter;
      MatchingFileIsNeverWrittenAgain(c, s, first, more[..n], d, f);
      ReachableInv(c, s, shorter);
      MatchingFileStays(c, Run(c, s, shorter).value, more[n], d, f);
    }
  }

  /** The process has been handed this directory by prepareArtifact. */
  predicate HasReturned(s: State, p: Pid, d: Dir) {
    p in s.procs
    && exists k | 0 <= k < s.procs[p].done && k < |s.procs[p].plan| :: s.procs[p].plan[k].dir == d
  }

  lemma StepKeepsReturned(c: Config, s: State, step: Step, p: Pid, d: Dir)
    requires Enabled(c, s, step) && HasReturned(s, p, d)
    ensures HasReturned(Do(c, s, step), p, d)
  {
    var t := Do(c, s, step);
    assert p in t.procs && t.procs[p].plan == s.procs[p].plan && t.procs[p].done >= s.procs[p].done;
  }

  lemma {:induction false} ReturnedStays(c: Config, s: State, first: seq<Step>, more: seq<Step>, p: Pid, d: Dir)
    requires Run(c, s, first).Some? && Run(c, s, first + more).Some?
    requires HasReturned(Run(c, s, first).value, p, d)
    ensures HasReturned(Run(c, s, first + more).value, p, d)
  {
    if more == [] {
      assert first + more == first;
    } else {
      var n := |more| - 1;
      var shorter := first + more[..n];
      assert (first + more)[..|first + more| - 1] == shorter;
      ReturnedStays(c, s, first, more[..n], p, d);
      StepKeepsReturned(c, Run(c, s, shorter).value, more[n], p, d);
    }
  }

  /** So once any process has been handed the directory, every listed file matches in all later states. */
  lemma ReturnedDirectoryIsReadyForever(c: Config, s: State, first: seq<Step>, more: seq<Step>, p: Pid, d: Dir)
    requires c.Ok() && c.locking && !c.readsFail && Init(s) && Run(c, s, first).Some? && Run(c, s, first + more).Some?
    requires HasReturned(Run(c, s, first).value, p, d)
    ensures DirReady(c, Run(c, s, first + more).value, d)
  {
    ReturnedStays(c, s, first, more, p, d);
    ReachableInv(c, s, first + more);
    var t := Run(c, s, first + more).value;
    assert ProcInv(c, t, p);
  }

  /**
   * Whenever /readyz passes, every artifact of that process's plan matches its manifest in that very
   * state, and the memory check has passed.
   */
  lemma ReadyMeansVerified(c: Config, s: State, steps: seq<Step>, p: Pid, engineHealthy: bool)
    requires c.Ok() && c.locking && !c.readsFail && Init(s) && Run(c, s, steps).Some?
    requires Ready(Run(c, s, steps).value, p, engineHealthy)
    ensures var t := Run(c, s, steps).value;
            && (forall k | 0 <= k < |t.procs[p].plan| :: DirReady(c, t, t.procs[p].plan[k].dir))
            && (exists j | 0 <= j < |steps| :: steps[j] == MemoryCheckPasses(p))
  {
    ReachableInv(c, s, steps);
    var t := Run(c, s, steps).value;
    assert ProcInv(c, t, p);
    LateStagesPassedTheCheck(c, s, steps, p);
  }

  lemma WeightsStep(c: Config, s: State, step: Step, p: Pid)
    requires Enabled(c, s, step) && p in Do(c, s, step).procs && Do(c, s, step).procs[p].weightsSecs > 0.0
    ensures Loads(step, p)
            || (p in s.procs && s.procs[p].weightsSecs == Do(c, s, step).procs[p].weightsSecs)
  {
  }

  predicate Loads(step: Step, p: Pid) { step.SetWeightsLoaded? && step.p == p && step.seconds > 0.0 }

  lemma {:induction false} WeightsTakeLoading(c: Config, s: State, steps: seq<Step>, p: Pid)
    requires Init(s) && Run(c, s, steps).Some?
    requires p in Run(c, s, steps).value.procs && Run(c, s, steps).value.procs[p].weightsSecs > 0.0
    ensures exists j | 0 <= j < |steps| :: Loads(steps[j], p)
  {
    var n := |steps| - 1;
    WeightsStep(c, Run(c, s, steps[..n]).value, steps[n], p);
    if !Loads(steps[n], p) {
      WeightsTakeLoading(c, s, steps[..n], p);
      var j :| 0 <= j < n && Loads(steps[..n][j], p);
      assert Loads(steps[j], p);
    }
  }

  /** Readiness takes an engine that answers and weights that were loaded, in some positive time. */
  lemma ReadyTakesLoading(c: Config, s: State, steps: seq<Step>, p: Pid, engineHealthy: bool)
    requires Init(s) && Run(c, s, steps).Some? && Ready(Run(c, s, steps).value, p, engineHealthy)
    ensures engineHealthy && exists j | 0 <= j < |steps| :: Loads(steps[j], p)
  {
    WeightsTakeLoading(c, s, steps, p);
  }

  /** Only the memory check leads into the last stages of Serve. */
  lemma LateStageEntered(c: Config, s: State, step: Step, p: Pid)
    requires Enabled(c, s, step) && p in Do(c, s, step).procs
    requires Do(c, s, step).procs[p].pc.Budgeted? || Do(c, s, step).procs[p].pc.Serving?
    ensures step == MemoryCheckPasses(p) || (p in s.procs && (s.procs[p].pc.Budgeted? || s.procs[p].pc.Serving?))
  {
  }

  lemma {:induction false} LateStagesPassedTheCheck(c: Config, s: State, steps: seq<Step>, p: Pid)
    requires Init(s) && Run(c, s, steps).Some? && p in Run(c, s, steps).value.procs
    requires Run(c, s, steps).value.procs[p].pc.Budgeted? || Run(c, s, steps).value.procs[p].pc.Serving?
    ensures exists j | 0 <= j < |steps| :: steps[j] == MemoryCheckPasses(p)
  {
    var n := |steps| - 1;
    if steps[n] == MemoryCheckPasses(p) {
    } else {
      LateStageEntered(c, Run(c, s, steps[..n]).value, steps[n], p);
      LateStagesPassedTheCheck(c, s, steps[..n], p);
      var j :| 0 <= j < n && steps[..n][j] == MemoryCheckPasses(p);
      assert steps[j] == MemoryCheckPasses(p);
    }
  }

  // ----- load: local never writes -----

  /** Every process that is started uses the directory in place. */
  predicate InPlaceOnly(steps: seq<Step>, d: Dir) {
    forall i | 0 <= i < |steps| && steps[i].Begin? ::
      forall k | 0 <= k < |steps[i].plan| && steps[i].plan[k].dir == d :: !steps[i].plan[k].fetch
  }

  predicate PlansInPlace(s: State, d: Dir) {
    forall p | p in s.procs ::
      forall k | 0 <= k < |s.procs[p].plan| && s.procs[p].plan[k].dir == d :: !s.procs[p].plan[k].fetch
  }

  /** Only a job that may fetch ever gets to write. */
  predicate WritersFetch(s: State) {
    forall p | p in s.procs && s.procs[p].pc.Writing? && s.procs[p].done < |s.procs[p].plan| ::
      s.procs[p].plan[s.procs[p].done].fetch
  }

  lemma StepKeepsWriters(c: Config, s: State, step: Step)
    requires WritersFetch(s) && Enabled(c, s, step)
    ensures WritersFetch(Do(c, s, step))
  {
    var t := Do(c, s, step);
    forall p | p in t.procs && t.procs[p].pc.Writing? && t.procs[p].done < |t.procs[p].plan|
      ensures t.procs[p].plan[t.procs[p].done].fetch
    {
      if p != step.p {
        assert t.procs[p] == s.procs[p];
      }
    }
  }

  lemma {:induction false} ReachableWriters(c: Config, s: State, steps: seq<Step>)
    requires Init(s) && Run(c, s, steps).Some?
    ensures WritersFetch(Run(c, s, steps).value)
  {
    if steps != [] {
      var n := |steps| - 1;
      ReachableWriters(c, s, steps[..n]);
      StepKeepsWriters(c, Run(c, s, steps[..n]).value, steps[n]);
    }
  }

  /** No step of a process on a job that must not fetch changes any file, with or without the lock. */
  lemma LocalJobWritesNothing(c: Config, s: State, steps: seq<Step>, step: Step)
    requires Init(s) && Run(c, s, steps).Some? && Enabled(c, Run(c, s, steps).value, step)
    requires var t := Run(c, s, steps).value;
             step.p in t.procs && (t.procs[step.p].done < |t.procs[step.p].plan| ==>
                                     !t.procs[step.p].plan[t.procs[step.p].done].fetch)
    ensures Do(c, Run(c, s, steps).value, step).disk == Run(c, s, steps).value.disk
  {
    ReachableWriters(c, s, steps);
  }

  /** A mismatch in a directory used in place is the end of that start. */
  lemma LocalMissOnlyStops(c: Config, s: State, step: Step)
    requires Enabled(c, s, step) && step.p in s.procs && s.procs[step.p].pc.Missed?
    requires s.procs[step.p].done < |s.procs[step.p].plan| && !s.procs[step.p].plan[s.procs[step.p].done].fetch
    ensures step == Stop(step.p)
  {
  }

  /**
   * Weights that every process uses in place are the operator's: in every run, with or without the lock and
   * also while reads fail, such a directory keeps its files, to the byte.
   */
  lemma {:induction false} InPlaceIsUntouched(c: Config, s: State, steps: seq<Step>, d: Dir, path: string)
    requires Init(s) && Run(c, s, steps).Some? && InPlaceOnly(steps, d)
    ensures var t := Run(c, s, steps).value;
            && PlansInPlace(t, d)
            && ((d, path) in t.disk <==> (d, path) in s.disk)
            && ((d, path) in s.disk ==> t.disk[(d, path)] == s.disk[(d, path)])
  {
    if steps != [] {
      var n := |steps| - 1;
      var before := Run(c, s, steps[..n]).value;
      assert forall i | 0 <= i < n :: steps[..n][i] == steps[i];
      InPlaceIsUntouched(c, s, steps[..n], d, path);
      ReachableWriters(c, s, steps[..n]);
      PlansStayInPlace(c, before, steps[n], d);
      NotWrittenInPlace(c, before, steps[n], d);
      OnlyTargetChanges(c, before, steps[n], (d, path));
    }
  }

  lemma PlansStayInPlace(c: Config, s: State, step: Step, d: Dir)
    requires Enabled(c, s, step) && PlansInPlace(s, d)
    requires step.Begin? ==> forall k | 0 <= k < |step.plan| && step.plan[k].dir == d :: !step.plan[k].fetch
    ensures PlansInPlace(Do(c, s, step), d)
  {
    var t := Do(c, s, step);
    forall p | p in t.procs
      ensures forall k | 0 <= k < |t.procs[p].plan| && t.procs[p].plan[k].dir == d :: !t.procs[p].plan[k].fetch
    {
      if !(step.Begin? && p == step.p) {
        assert p in s.procs && t.procs[p].plan == s.procs[p].plan;
      }
    }
  }

  lemma NotWrittenInPlace(c: Config, s: State, step: Step, d: Dir)
    requires Enabled(c, s, step) && PlansInPlace(s, d) && WritersFetch(s)
    ensures Target(c, s, step).Some? ==> Target(c, s, step).value.0 != d
  {
    if Target(c, s, step).Some? {
      assert s.procs[step.p].plan[s.procs[step.p].done].fetch;
    }
  }

  // ----- without the lock -----

  const RACER := Job("d", true)

  function Racing(readsFail: bool): Config {
    Config((d: Dir) => [FileEntry("f", 1, "")], (b: Bytes) => "", false, readsFail)
  }

  const NOBODY := State(map[], map[], map[])

  function Racer(pc: PC): Proc { Proc([RACER], 0, pc, 0.0) }

  function Race(content: Option<Bytes>, a: PC, b: PC): State {
    State(if content.Some? then map[("d", "f") := content.value] else map[], map["d" := 1],
          map[0 := Racer(a), 1 := Racer(b)])
  }

  /** One more step of a run, with the state it is claimed to lead to. */
  lemma Follow(c: Config, s: State, steps: seq<Step>, last: Step, next: State) returns (longer: seq<Step>)
    requires Run(c, s, steps).Some? && Enabled(c, Run(c, s, steps).value, last)
    requires Do(c, Run(c, s, steps).value, last) == next
    ensures longer == steps + [last] && Run(c, s, longer) == Some(next)
  {
    longer := steps + [last];
    assert longer[..|longer| - 1] == steps;
  }

  lemma BothBegin(readsFail: bool) returns (steps: seq<Step>)
    ensures Run(Racing(readsFail), NOBODY, steps) ==
            Some(State(map[], map[], map[0 := Racer(Outside), 1 := Racer(Outside)]))
  {
    var c, s := Racing(readsFail), NOBODY;
    steps := [];
    steps := Follow(c, s, steps, Begin(0, [RACER]), State(map[], map[], map[0 := Racer(Outside)]));
    steps := Follow(c, s, steps, Begin(1, [RACER]), State(map[], map[], map[0 := Racer(Outside), 1 := Racer(Outside)]));
  }

  /** Nothing keeps the second process out. */
  lemma BothEnter(readsFail: bool) returns (steps: seq<Step>)
    ensures Run(Racing(readsFail), NOBODY, steps) == Some(Race(None, Checking(0), Checking(0)))
  {
    var c, s := Racing(readsFail), NOBODY;
    steps := BothBegin(readsFail);
    steps := Follow(c, s, steps, Lock(0),
                    State(map[], map["d" := 0], map[0 := Racer(Checking(0)), 1 := Racer(Outside)]));
    steps := Follow(c, s, steps, Lock(1), Race(None, Checking(0), Checking(0)));
  }

  lemma BothMiss(readsFail: bool) returns (steps: seq<Step>)
    ensures Run(Racing(readsFail), NOBODY, steps) == Some(Race(None, Missed(0), Missed(0)))
  {
    var c, s := Racing(readsFail), NOBODY;
    steps := BothEnter(readsFail);
    steps := Follow(c, s, steps, Stat(0), Race(None, Missed(0), Checking(0)));
    steps := Follow(c, s, steps, Stat(1), Race(None, Missed(0), Missed(0)));
  }

  lemma FirstDownloads(readsFail: bool) returns (steps: seq<Step>)
    ensures Run(Racing(readsFail), NOBODY, steps) == Some(Race(Some([7]), Arrived(0), Missed(0)))
  {
    var c, s := Racing(readsFail), NOBODY;
    steps := BothMiss(readsFail);
    steps := Follow(c, s, steps, Truncate(0), Race(Some([]), Writing(0), Missed(0)));
    var arrived: Bytes := [7];
    assert [] + arrived == arrived;
    steps := Follow(c, s, steps, Receive(0, [7]), Race(Some([7]), Writing(0), Missed(0)));
    steps := Follow(c, s, steps, EndDownload(0), Race(Some([7]), Arrived(0), Missed(0)));
  }

  /** It re-checks, and every file is in place. */
  lemma FirstFinishes(readsFail: bool) returns (steps: seq<Step>)
    ensures Run(Racing(readsFail), NOBODY, steps) == Some(Race(Some([7]), Unlocking, Missed(0)))
  {
    var c, s := Racing(readsFail), NOBODY;
    steps := FirstDownloads(readsFail);
    steps := Follow(c, s, steps, StatAgain(0), Race(Some([7]), ArrivedSize(0), Missed(0)));
    steps := Follow(c, s, steps, HashAgain(0), Race(Some([7]), Checking(1), Missed(0)));
    steps := Follow(c, s, steps, Stat(0), Race(Some([7]), Unlocking, Missed(0)));
  }

  /**
   * The property is the lock's doing. Without it both processes can miss the file; one downloads it and
   * returns the directory, and then the other truncates it.
   */
  lemma LockIsNeeded(readsFail: bool)
    ensures var c := Racing(readsFail);
            && c.Ok() && Init(NOBODY)
            && exists steps :: Run(c, NOBODY, steps).Some? && HasReturned(Run(c, NOBODY, steps).value, 0, "d")
                               && !DirReady(c, Run(c, NOBODY, steps).value, "d")
  {
    var c := Racing(readsFail);
    var steps := FirstFinishes(readsFail);
    var after := Proc([RACER], 1, Outside, 0.0);
    var returned := Race(Some([7]), Unlocking, Missed(0)).(procs := map[0 := after, 1 := Racer(Missed(0))]);
    steps := Follow(c, NOBODY, steps, Unlock(0), returned);
    var end := State(map[("d", "f") := []], map["d" := 1], map[0 := after, 1 := Racer(Writing(0))]);
    steps := Follow(c, NOBODY, steps, Truncate(1), end);
    assert end.procs[0].plan[0].dir == "d";
    assert HasReturned(end, 0, "d");
    assert !Holds(c, end, "d", c.lists("d")[0]);
  }

  // ----- with reads that fail -----

  function Flaky(): Config { Config((d: Dir) => [FileEntry("f", 1, "")], (b: Bytes) => "", true, true) }

  /** The directory's one file, in place and verified. */
  const WARM: map<(Dir, string), Bytes> := map[("d", "f") := [7]]

  const BOOTED := Proc([RACER], 1, Serving, 1.0)

  const WARM_START := State(WARM, map[], map[])

  function Two(content: Bytes, locks: map<Dir, Pid>, a: Proc, b: PC): State {
    State(map[("d", "f") := content], locks, map[0 := a, 1 := Racer(b)])
  }

  lemma FirstLocks() returns (steps: seq<Step>)
    ensures Run(Flaky(), WARM_START, steps) == Some(Two([7], map["d" := 0], Racer(Checking(0)), Outside))
  {
    var c, s := Flaky(), WARM_START;
    steps := [];
    steps := Follow(c, s, steps, Begin(0, [RACER]), State(WARM, map[], map[0 := Racer(Outside)]));
    steps := Follow(c, s, steps, Begin(1, [RACER]), Two([7], map[], Racer(Outside), Outside));
    steps := Follow(c, s, steps, Lock(0), Two([7], map["d" := 0], Racer(Checking(0)), Outside));
  }

  lemma FirstLooks() returns (steps: seq<Step>)
    ensures Run(Flaky(), WARM_START, steps) == Some(Two([7], map["d" := 0], Racer(SizeMatched(0)), Outside))
  {
    var c, s := Flaky(), WARM_START;
    steps := FirstLocks();
    steps := Follow(c, s, steps, Stat(0), Two([7], map["d" := 0], Racer(SizeMatched(0)), Outside));
  }

  /** It finds the file in place. */
  lemma FirstVerifies() returns (steps: seq<Step>)
    ensures Run(Flaky(), WARM_START, steps) == Some(Two([7], map["d" := 0], Racer(Unlocking), Outside))
  {
    var c, s := Flaky(), WARM_START;
    steps := FirstLooks();
    steps := Follow(c, s, steps, HashFile(0), Two([7], map["d" := 0], Racer(Checking(1)), Outside));
    steps := Follow(c, s, steps, Stat(0), Two([7], map["d" := 0], Racer(Unlocking), Outside));
  }

  lemma FirstReturns() returns (steps: seq<Step>)
    ensures Run(Flaky(), WARM_START, steps) == Some(Two([7], map[], Proc([RACER], 1, Outside, 0.0), Outside))
  {
    var c, s := Flaky(), WARM_START;
    steps := FirstVerifies();
    steps := Follow(c, s, steps, Unlock(0), Two([7], map[], Proc([RACER], 1, Outside, 0.0), Outside));
  }

  lemma FirstPassesTheCheck() returns (steps: seq<Step>)
    ensures Run(Flaky(), WARM_START, steps) == Some(Two([7], map[], Proc([RACER], 1, Budgeted, 0.0), Outside))
  {
    var c, s := Flaky(), WARM_START;
    steps := FirstReturns();
    steps := Follow(c, s, steps, MemoryCheckPasses(0), Two([7], map[], Proc([RACER], 1, Budgeted, 0.0), Outside));
  }

  /** And gets to serve. */
  lemma FirstServes() returns (steps: seq<Step>)
    ensures Run(Flaky(), WARM_START, steps) == Some(Two([7], map[], BOOTED, Outside))
  {
    var c, s := Flaky(), WARM_START;
    steps := FirstPassesTheCheck();
    steps := Follow(c, s, steps, SetWeightsLoaded(0, 1.0), Two([7], map[], BOOTED, Outside));
  }

  lemma SecondTruncates() returns (steps: seq<Step>)
    ensures Run(Flaky(), WARM_START, steps) == Some(Two([], map["d" := 1], BOOTED, Writing(0)))
  {
    var c, s := Flaky(), WARM_START;
    steps := FirstServes();
    steps := Follow(c, s, steps, Lock(1), Two([7], map["d" := 1], BOOTED, Checking(0)));
    steps := Follow(c, s, steps, ReadFails(1), Two([7], map["d" := 1], BOOTED, Missed(0)));
    steps := Follow(c, s, steps, Truncate(1), Two([], map["d" := 1], BOOTED, Writing(0)));
  }

  lemma ReadyButEmpty()
    ensures var t := Two([], map["d" := 1], BOOTED, Writing(0));
            Ready(t, 0, true) && HasReturned(t, 0, RACER.dir) && !DirReady(Flaky(), t, RACER.dir)
  {
    var t := Two([], map["d" := 1], BOOTED, Writing(0));
    assert t.procs[0].plan[0].dir == RACER.dir;
    assert !Holds(Flaky(), t, "d", Flaky().lists("d")[0]);
  }

  /**
   * The lock is not enough when looking at a file can fail: a second process that cannot read a verified
   * file takes it for missing and truncates it, under the lock, while the first answers that it is ready.
   */
  lemma ReadErrorsAreFatal()
    ensures var c, s := Flaky(), WARM_START;
            && c.Ok() && c.locking && Init(s)
            && exists steps :: Run(c, s, steps).Some? && Ready(Run(c, s, steps).value, 0, true)
                               && HasReturned(Run(c, s, steps).value, 0, RACER.dir)
                               && !DirReady(c, Run(c, s, steps).value, RACER.dir)
  {
    var steps := SecondTruncates();
    ReadyButEmpty();
  }

  /** A directory that was handed out matches, in every run of every such system. */
  ghost predicate Guaranteed(locking: bool, readsFail: bool) {
    forall c: Config, s: State, steps: seq<Step>, p: Pid, d: Dir ::
      c.locking == locking && c.readsFail == readsFail && c.Ok() && Init(s)
      && Run(c, s, steps).Some? && HasReturned(Run(c, s, steps).value, p, d) ==>
        DirReady(c, Run(c, s, steps).value, d)
  }

  /** What the guarantee takes, exactly: the lock, and files that can be read. */
  lemma GuaranteedExactly(locking: bool, readsFail: bool)
    ensures Guaranteed(locking, readsFail) <==> locking && !readsFail
  {
    if locking && !readsFail {
      forall c: Config, s: State, steps: seq<Step>, p: Pid, d: Dir
        | c.locking && !c.readsFail && c.Ok() && Init(s)
          && Run(c, s, steps).Some? && HasReturned(Run(c, s, steps).value, p, d)
        ensures DirReady(c, Run(c, s, steps).value, d)
      {
        assert steps + [] == steps;
        ReturnedDirectoryIsReadyForever(c, s, steps, [], p, d);
      }
    } else if locking {
      ReadErrorsAreFatal();
    } else {
      LockIsNeeded(readsFail);
    }
  }
}

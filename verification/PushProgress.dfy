/** A push that is not stopped gets done, and what it leaves (internal/mirror/mirror.go). */
module PushProgress {
  import opened Wrappers
  import opened Text
  import opened Files
  import opened Store
  import opened PushProtocol
  import Mirror

  predicate Live(s: State, p: Pid) { p in s.procs && !s.procs[p].Returned? && !s.procs[p].Stopped? }

  /** Neither a crash nor a failing file system. */
  predicate Forward(step: Step) { !step.Stop? && !step.CopyFails? }

  predicate Solo(p: Pid, steps: seq<Step>) {
    forall i | 0 <= i < |steps| :: steps[i].p == p && Forward(steps[i])
  }

  // ----- somebody can always go on -----

  /** Any set of names leaves a hidden one free. */
  lemma FreshName(objects: Tree) returns (tmp: string)
    ensures Hidden(tmp) && tmp !in objects
  {
    var longest: nat := 0;
    var names := objects.Keys;
    while names != {}
      invariant forall n | n in objects.Keys - names :: |n| <= longest
    {
      var n :| n in names;
      if |n| > longest {
        longest := |n|;
      }
      names := names - {n};
    }
    tmp := TEMP_PREFIX + Zeros(longest);
    InDirectory("", tmp);
    assert objects.Keys - names == objects.Keys;
    assert |tmp| > longest;
  }

  /** In every state the invariant allows, a live push has a step of its own that does not give up. */
  lemma NextStep(c: Config, s: State, p: Pid) returns (step: Step)
    requires c.Ok() && Inv(c, s) && Live(s, p)
    ensures step.p == p && Forward(step) && !step.Begin? && Enabled(c, s, step)
  {
    var pc := s.procs[p];
    assert ProgressInv(c, s, p) && SizeInv(c, s, p) && CopyInv(c, s, p);
    match pc
    case AtFile(_) => step := CheckSize(p);
    case SizeMatched(_) => step := CheckHash(p);
    case MustPut(_) =>
      var tmp := FreshName(s.objects);
      step := CreateTemp(p, tmp);
    case Copying(i, _, done) =>
      step := if done < |c.Content(p, i)| then Copy(p, done + 1) else Publish(p);
  }

  /** None of this leaves out the bad ends: a push can be cut off in any state, and a copy can fail at any byte. */
  lemma PushesCanBreakOff(c: Config, s: State, p: Pid)
    requires Live(s, p)
    ensures Enabled(c, s, Stop(p)) && Do(c, s, Stop(p)).objects == s.objects && Do(c, s, Stop(p)).procs[p].Stopped?
    ensures s.procs[p].Copying? ==> Enabled(c, s, Step.CopyFails(p)) && Do(c, s, Step.CopyFails(p)).procs[p].Stopped?
  {
  }

  /** What a push still has to do, from object i on. */
  function Work(c: Config, p: Pid, i: nat): nat
    decreases |c.entries| + 1 - i
  {
    if i > |c.entries| then 0 else |c.Content(p, i)| + 4 + Work(c, p, i + 1)
  }

  function Left(c: Config, p: Pid, pc: PC): int {
    match pc
    case AtFile(i) => Work(c, p, i)
    case SizeMatched(i) => Work(c, p, i) - 1
    case MustPut(i) => Work(c, p, i) - 2
    case Copying(i, _, done) => Work(c, p, i) - 3 - done
    case Returned => 0
    case Stopped => 0
  }

  /** Such a step never ends in an error, whoever else is running, and brings the push closer to its end. */
  lemma StepGoesOn(c: Config, s: State, step: Step)
    requires c.Ok() && Inv(c, s) && Enabled(c, s, step) && Forward(step) && !step.Begin?
    ensures var t := Do(c, s, step);
            && !t.procs[step.p].Stopped?
            && 0 <= Left(c, step.p, t.procs[step.p]) < Left(c, step.p, s.procs[step.p])
  {
    var p := step.p;
    assert ProgressInv(c, s, p) && SizeInv(c, s, p) && CopyInv(c, s, p);
  }

  lemma {:induction false} RunAppend(c: Config, s: State, first: seq<Step>, more: seq<Step>)
    requires Run(c, s, first).Some?
    ensures Run(c, s, first + more) == Run(c, Run(c, s, first).value, more)
  {
    if more == [] {
      assert first + more == first;
    } else {
      var n := |more| - 1;
      assert (first + more)[..|first + more| - 1] == first + more[..n];
      RunAppend(c, s, first, more[..n]);
    }
  }

  lemma RunOne(c: Config, s: State, step: Step)
    requires Enabled(c, s, step)
    ensures Run(c, s, [step]) == Some(Do(c, s, step))
  {
    assert [step][..0] == [];
    assert Run(c, s, []) == Some(s);
  }

  /** Left to itself, a live push returns. */
  lemma {:induction false} PushReturns(c: Config, s: State, p: Pid) returns (steps: seq<Step>)
    requires c.Ok() && Inv(c, s) && Live(s, p)
    ensures Solo(p, steps) && Run(c, s, steps).Some?
    ensures p in Run(c, s, steps).value.procs && Run(c, s, steps).value.procs[p].Returned?
    decreases Left(c, p, s.procs[p])
  {
    var step := NextStep(c, s, p);
    var t := Do(c, s, step);
    StepGoesOn(c, s, step);
    StepKeepsInv(c, s, step);
    RunOne(c, s, step);
    if t.procs[p].Returned? {
      steps := [step];
    } else {
      var rest := PushReturns(c, t, p);
      RunAppend(c, s, [step], rest);
      steps := [step] + rest;
    }
  }

  // ----- what it leaves -----

  /** The listed files of the directory p pushes from. */
  function Source(c: Config, p: Pid): Tree {
    map path | path in Paths(c.entries) :: c.source(p, path)
  }

  function Paths(entries: seq<FileEntry>): set<string> { set i | 0 <= i < |entries| :: entries[i].path }

  /** The store after the first i files, by the sequential algorithm. */
  function After(c: Config, p: Pid, base: Tree, i: nat): Tree
    requires i <= |c.entries|
  {
    Mirror.PushFiles(base, Source(c, p), c.entries[..i], c.hash)
  }

  lemma AfterOne(c: Config, p: Pid, base: Tree, i: nat)
    requires i < |c.entries|
    ensures var f := c.entries[i];
            After(c, p, base, i + 1) ==
            if FileMatches(After(c, p, base, i), f, c.hash) then After(c, p, base, i)
            else After(c, p, base, i)[f.path := c.source(p, f.path)]
  {
    assert c.entries[..i + 1][..i] == c.entries[..i];
    assert c.entries[i].path in Paths(c.entries);
  }

  /** A visible file is the same in trees that look the same. */
  lemma SameVisibleMatch(a: Tree, b: Tree, f: FileEntry, hash: Hash)
    requires Visible(a) == Visible(b) && !Hidden(f.path)
    ensures FileMatches(a, f, hash) <==> FileMatches(b, f, hash)
  {
    assert f.path in a <==> f.path in Visible(a);
    assert f.path in b <==> f.path in Visible(b);
    assert f.path in a ==> Visible(a)[f.path] == a[f.path];
    assert f.path in b ==> Visible(b)[f.path] == b[f.path];
  }

  /** Where a push that runs alone from `base` has got to. */
  ghost predicate OnTrack(c: Config, base: Tree, s: State, p: Pid)
    requires p in s.procs && Reached(s.procs[p], |c.entries|) <= |c.entries|
  {
    var pc := s.procs[p];
    var i := Reached(pc, |c.entries|);
    && (!pc.Stopped? ==>
          Visible(s.objects) == if pc.Returned? then Visible(After(c, p, base, i))[MANIFEST_NAME := c.Content(p, i)]
                                else Visible(After(c, p, base, i)))
    && ((pc.MustPut? || pc.Copying?) && i < |c.entries| ==> !FileMatches(s.objects, c.entries[i], c.hash))
  }

  lemma PublishStaysOnTrack(c: Config, base: Tree, s: State, p: Pid)
    requires c.Ok() && Inv(c, s) && Enabled(c, s, Publish(p)) && OnTrack(c, base, s, p)
    ensures var t := Do(c, s, Publish(p));
            Reached(t.procs[p], |c.entries|) <= |c.entries| && OnTrack(c, base, t, p)
  {
    var i := s.procs[p].i;
    StepRefinesAtomicPut(c, s, Publish(p));
    if i < |c.entries| {
      SameVisibleMatch(s.objects, After(c, p, base, i), c.entries[i], c.hash);
      AfterOne(c, p, base, i);
      VisiblePut(After(c, p, base, i), c.entries[i].path, c.source(p, c.entries[i].path));
    }
  }

  lemma LookStaysOnTrack(c: Config, base: Tree, s: State, step: Step)
    requires c.Ok() && Inv(c, s) && Enabled(c, s, step) && (step.CheckSize? || step.CheckHash?)
    requires Reached(s.procs[step.p], |c.entries|) <= |c.entries| && OnTrack(c, base, s, step.p)
    ensures var t := Do(c, s, step);
            Reached(t.procs[step.p], |c.entries|) <= |c.entries| && OnTrack(c, base, t, step.p)
  {
    var i := s.procs[step.p].i;
    assert SizeInv(c, s, step.p);
    if i < |c.entries| {
      SameVisibleMatch(s.objects, After(c, step.p, base, i), c.entries[i], c.hash);
      AfterOne(c, step.p, base, i);
    }
  }

  lemma CopyStaysOnTrack(c: Config, base: Tree, s: State, step: Step)
    requires c.Ok() && Inv(c, s) && Enabled(c, s, step) && (step.CreateTemp? || step.Copy?)
    requires Reached(s.procs[step.p], |c.entries|) <= |c.entries| && OnTrack(c, base, s, step.p)
    ensures var t := Do(c, s, step);
            Reached(t.procs[step.p], |c.entries|) <= |c.entries| && OnTrack(c, base, t, step.p)
  {
    var i := s.procs[step.p].i;
    StepRefinesAtomicPut(c, s, step);
    if i < |c.entries| {
      SameVisibleMatch(s.objects, Do(c, s, step).objects, c.entries[i], c.hash);
    }
  }

  lemma StepStaysOnTrack(c: Config, base: Tree, s: State, step: Step)
    requires c.Ok() && Inv(c, s) && Enabled(c, s, step) && Forward(step) && !step.Begin?
    requires Reached(s.procs[step.p], |c.entries|) <= |c.entries| && OnTrack(c, base, s, step.p)
    ensures var t := Do(c, s, step);
            Reached(t.procs[step.p], |c.entries|) <= |c.entries| && OnTrack(c, base, t, step.p)
  {
    match step
    case Publish(p) => PublishStaysOnTrack(c, base, s, p);
    case CheckSize(_) => LookStaysOnTrack(c, base, s, step);
    case CheckHash(_) => LookStaysOnTrack(c, base, s, step);
    case _ => CopyStaysOnTrack(c, base, s, step);
  }

  /**
   * Whatever a push does between its start and its return, if nobody else runs: the store then looks as the
   * sequential algorithm leaves it, with the push's own manifest.
   */
  lemma {:induction false} SoloPush(c: Config, s: State, p: Pid, steps: seq<Step>)
    requires c.Ok() && Inv(c, s) && p !in s.procs && Solo(p, steps) && Run(c, s, steps).Some?
    ensures var t := Run(c, s, steps).value;
            && Inv(c, t)
            && (steps == [] ==> t == s)
            && (steps != [] ==> p in t.procs && Reached(t.procs[p], |c.entries|) <= |c.entries|
                                && OnTrack(c, s.objects, t, p))
  {
    if steps != [] {
      var n := |steps| - 1;
      var before := Run(c, s, steps[..n]).value;
      assert forall i | 0 <= i < n :: steps[..n][i] == steps[i];
      SoloPush(c, s, p, steps[..n]);
      StepKeepsInv(c, before, steps[n]);
      if n == 0 {
        assert c.entries[..0] == [];
        assert steps[n].Begin?;
      } else {
        assert !steps[n].Begin?;
        StepStaysOnTrack(c, s.objects, before, steps[n]);
      }
    }
  }

  /**
   * A push gets done: started in any reachable state and left to itself it can return, and whenever it does
   * the visible objects are those of the sequential algorithm with its manifest on top.
   */
  lemma PushGetsDone(c: Config, s: State, first: seq<Step>, p: Pid) returns (steps: seq<Step>)
    requires c.Ok() && Init(s) && Run(c, s, first).Some? && p !in Run(c, s, first).value.procs
    ensures Solo(p, steps) && Run(c, s, first + steps).Some?
    ensures var base, t := Run(c, s, first).value, Run(c, s, first + steps).value;
            && p in t.procs && t.procs[p].Returned?
            && Visible(t.objects) ==
               Visible(Mirror.PushFiles(base.objects, Source(c, p), c.entries, c.hash))
                 [MANIFEST_NAME := c.codec.encode(c.Manifest(p))]
  {
    ReachableInv(c, s, first);
    var base := Run(c, s, first).value;
    var begun := Do(c, base, Begin(p));
    StepKeepsInv(c, base, Begin(p));
    RunOne(c, base, Begin(p));
    var rest := PushReturns(c, begun, p);
    RunAppend(c, base, [Begin(p)], rest);
    steps := [Begin(p)] + rest;
    RunAppend(c, s, first, steps);
    SoloPush(c, base, p, steps);
    assert c.entries[..|c.entries|] == c.entries;
  }

  /** In every reachable state every live push can go on, and left to itself it returns. */
  lemma EveryPushCanReturn(c: Config, s: State, first: seq<Step>, p: Pid) returns (steps: seq<Step>)
    requires c.Ok() && Init(s) && Run(c, s, first).Some? && Live(Run(c, s, first).value, p)
    ensures Solo(p, steps) && Run(c, s, first + steps).Some?
    ensures var t := Run(c, s, first + steps).value;
            && p in t.procs && t.procs[p].Returned?
            && Verified(t.objects, c.codec, c.hash)
  {
    ReachableInv(c, s, first);
    steps := PushReturns(c, Run(c, s, first).value, p);
    RunAppend(c, s, first, steps);
    ManifestImpliesComplete(c, s, first + steps);
  }
}

/**
 * Any number of concurrent pushes of one verified snapshot into one store, byte by byte, with crashes and
 * failures at any step (internal/mirror/mirror.go, internal/mirror/store.go).
 */
module PushProtocol {
  import opened Wrappers
  import opened Files
  import opened Store

  type Pid = nat

  /** `source(p, path)` is a file of the directory process p pushes from; `clock(p)` is its timestamp. */
  datatype Config = Config(repo: string, sha: string, entries: seq<FileEntry>, source: (Pid, string) -> Bytes,
                           clock: Pid -> string, hash: Hash, codec: Codec)
  {
    function Manifest(p: Pid): StoreManifest {
      StoreManifest(repo, sha, clock(p), TotalSize(entries), entries)
    }

    /** Object i of a push: the files in order, then the manifest. */
    function Name(i: nat): string
      requires i <= |entries|
    {
      if i < |entries| then entries[i].path else MANIFEST_NAME
    }

    function Content(p: Pid, i: nat): Bytes
      requires i <= |entries|
    {
      if i < |entries| then source(p, entries[i].path) else codec.encode(Manifest(p))
    }

    /** Every pusher verified its directory; no path is one of the store's own names. */
    ghost predicate Ok() {
      && codec.RoundTrips()
      && (forall p: Pid, i: nat | i < |entries| :: Matches(source(p, entries[i].path), entries[i], hash))
      && (forall i: nat | i < |entries| :: entries[i].path != MANIFEST_NAME && !Hidden(entries[i].path))
    }
  }

  datatype PC =
    | AtFile(i: nat)                          // about to ask for the size of object i
    | SizeMatched(i: nat)                     // about to hash it
    | MustPut(i: nat)                         // decided to upload it
    | Copying(i: nat, tmp: string, done: nat) // `done` bytes are in the temporary
    | Returned
    | Stopped

  datatype State = State(objects: Tree, procs: map<Pid, PC>)

  datatype Step =
    | Begin(p: Pid)
    | CheckSize(p: Pid)
    | CheckHash(p: Pid)
    | CreateTemp(p: Pid, tmp: string)
    | Copy(p: Pid, upTo: nat)
    | Publish(p: Pid)
    | CopyFails(p: Pid)
    | Stop(p: Pid) // a crash, or an error that leaves the disk as it is

  predicate Enabled(c: Config, s: State, step: Step) {
    var n := |c.entries|;
    match step
    case Begin(p) => p !in s.procs
    case CheckSize(p) => p in s.procs && s.procs[p].AtFile? && s.procs[p].i <= n
    case CheckHash(p) => p in s.procs && s.procs[p].SizeMatched? && s.procs[p].i < n
    case CreateTemp(p, tmp) => p in s.procs && s.procs[p].MustPut? && s.procs[p].i <= n
                               && Hidden(tmp) && tmp !in s.objects
    case Copy(p, upTo) => p in s.procs && s.procs[p].Copying? && s.procs[p].i <= n
                          && s.procs[p].done < upTo <= |c.Content(p, s.procs[p].i)|
    case Publish(p) => p in s.procs && s.procs[p].Copying? && s.procs[p].i <= n
                       && s.procs[p].done == |c.Content(p, s.procs[p].i)| && s.procs[p].tmp in s.objects
    case CopyFails(p) => p in s.procs && s.procs[p].Copying?
    case Stop(p) => p in s.procs && !s.procs[p].Returned?
  }

  function Do(c: Config, s: State, step: Step): State
    requires Enabled(c, s, step)
  {
    match step
    case Begin(p) => s.(procs := s.procs[p := AtFile(0)])
    case CheckSize(p) =>
      var i := s.procs[p].i;
      // the manifest is written without looking at what is there
      var pc := if i < |c.entries| && c.Name(i) in s.objects && |s.objects[c.Name(i)]| == c.entries[i].size
                then SizeMatched(i) else MustPut(i);
      s.(procs := s.procs[p := pc])
    case CheckHash(p) =>
      var i := s.procs[p].i;
      if c.Name(i) !in s.objects then s.(procs := s.procs[p := Stopped])
      else if c.hash(s.objects[c.Name(i)]) == c.entries[i].sha256 then s.(procs := s.procs[p := AtFile(i + 1)])
      else s.(procs := s.procs[p := MustPut(i)])
    case CreateTemp(p, tmp) =>
      State(s.objects[tmp := []], s.procs[p := Copying(s.procs[p].i, tmp, 0)])
    case Copy(p, upTo) =>
      var pc := s.procs[p];
      State(s.objects[pc.tmp := c.Content(p, pc.i)[..upTo]], s.procs[p := pc.(done := upTo)])
    case Publish(p) =>
      var pc := s.procs[p];
      State((s.objects - {pc.tmp})[c.Name(pc.i) := s.objects[pc.tmp]],
            s.procs[p := if pc.i < |c.entries| then AtFile(pc.i + 1) else Returned])
    case CopyFails(p) => State(s.objects - {s.procs[p].tmp}, s.procs[p := Stopped])
    case Stop(p) => s.(procs := s.procs[p := Stopped])
  }

  /** Any store without a manifest, leftovers of earlier pushes included. */
  predicate Init(s: State) { MANIFEST_NAME !in s.objects && s.procs == map[] }

  /** The state a run of steps leads to, if each step was possible when its turn came. */
  function Run(c: Config, s: State, steps: seq<Step>): Option<State> {
    if steps == [] then Some(s)
    else
      var before := Run(c, s, steps[..|steps| - 1]);
      var last := steps[|steps| - 1];
      if before.Some? && Enabled(c, before.value, last) then Some(Do(c, before.value, last)) else None
  }

  // ----- what every state keeps -----

  /** How many objects the process has dealt with. */
  function Reached(pc: PC, n: nat): nat {
    match pc
    case AtFile(i) => i
    case SizeMatched(i) => i
    case MustPut(i) => i
    case Copying(i, _, _) => i
    case Returned => n
    case Stopped => 0
  }

  ghost predicate CopyInv(c: Config, s: State, p: Pid)
    requires p in s.procs
  {
    var pc := s.procs[p];
    pc.Copying? ==>
      && pc.i <= |c.entries| && pc.done <= |c.Content(p, pc.i)|
      && Hidden(pc.tmp) && pc.tmp in s.objects
      && s.objects[pc.tmp] == c.Content(p, pc.i)[..pc.done]
  }

  /** The size read earlier still holds when the hash is read. */
  ghost predicate SizeInv(c: Config, s: State, p: Pid)
    requires p in s.procs
  {
    var pc := s.procs[p];
    pc.SizeMatched? ==>
      && pc.i < |c.entries| && c.Name(pc.i) in s.objects
      && |s.objects[c.Name(pc.i)]| == c.entries[pc.i].size
  }

  ghost predicate ProgressInv(c: Config, s: State, p: Pid)
    requires p in s.procs
  {
    && Reached(s.procs[p], |c.entries|) <= |c.entries|
    && AllMatch(s.objects, c.entries[..Reached(s.procs[p], |c.entries|)], c.hash)
  }

  ghost predicate OwnTemps(s: State) {
    forall p, q | p in s.procs && q in s.procs && p != q && s.procs[p].Copying? && s.procs[q].Copying? ::
      s.procs[p].tmp != s.procs[q].tmp
  }

  /** The manifest certifies the store: it is one of the pushers' and everything it lists is there. */
  ghost predicate Certified(c: Config, objects: Tree) {
    && MANIFEST_NAME in objects
    && (exists p: Pid :: ReadManifest(objects, c.codec) == Some(c.Manifest(p)))
    && AllMatch(objects, c.entries, c.hash)
  }

  ghost predicate Inv(c: Config, s: State) {
    && (forall p | p in s.procs :: CopyInv(c, s, p) && SizeInv(c, s, p) && ProgressInv(c, s, p))
    && OwnTemps(s)
    && (MANIFEST_NAME in s.objects ==> Certified(c, s.objects))
    && (forall p | p in s.procs && s.procs[p].Returned? :: MANIFEST_NAME in s.objects)
  }

  /** A step leaves every visible object alone, or puts one whole object of one pusher in place. */
  lemma StepIsAtomic(c: Config, s: State, step: Step)
    requires c.Ok() && Inv(c, s) && Enabled(c, s, step)
    ensures var t := Do(c, s, step).objects;
            if step.Publish?
            then t == (s.objects - {s.procs[step.p].tmp})[c.Name(s.procs[step.p].i) := c.Content(step.p, s.procs[step.p].i)]
            else exists tmp :: Hidden(tmp) && t - {tmp} == s.objects - {tmp}
  {
    var t := Do(c, s, step).objects;
    match step
    case Publish(p) =>
      assert CopyInv(c, s, p);
      assert c.Content(p, s.procs[p].i)[..s.procs[p].done] == c.Content(p, s.procs[p].i);
    case CreateTemp(p, tmp) =>
      assert t - {tmp} == s.objects - {tmp};
    case Copy(p, _) =>
      assert CopyInv(c, s, p);
      assert t - {s.procs[p].tmp} == s.objects - {s.procs[p].tmp};
    case CopyFails(p) =>
      assert CopyInv(c, s, p);
      assert t - {s.procs[p].tmp} == s.objects - {s.procs[p].tmp};
    case _ =>
      HiddenNameExists();
      var tmp :| Hidden(tmp);
      assert t - {tmp} == s.objects - {tmp};
  }

  lemma HiddenNameExists()
    ensures exists tmp :: Hidden(tmp)
  {
    assert '/' !in TEMP_PREFIX;
    assert Hidden(TEMP_PREFIX);
  }

  lemma VisibleIgnoresTemps(a: Tree, b: Tree, tmp: string)
    requires Hidden(tmp) && a - {tmp} == b - {tmp}
    ensures Visible(a) == Visible(b)
  {
    forall n | n in a && !Hidden(n) ensures n in b && b[n] == a[n] {
      assert n in a - {tmp} && (a - {tmp})[n] == a[n];
      assert n in b - {tmp} && (b - {tmp})[n] == b[n];
    }
    forall n | n in b && !Hidden(n) ensures n in a {
      assert n in b - {tmp};
      assert n in a - {tmp};
    }
  }

  /** Refinement: through List the store only ever takes atomic steps. */
  lemma StepRefinesAtomicPut(c: Config, s: State, step: Step)
    requires c.Ok() && Inv(c, s) && Enabled(c, s, step)
    ensures var t := Do(c, s, step).objects;
            Visible(t) == if step.Publish?
                          then Visible(s.objects)[c.Name(s.procs[step.p].i) := c.Content(step.p, s.procs[step.p].i)]
                          else Visible(s.objects)
  {
    StepIsAtomic(c, s, step);
    var t := Do(c, s, step).objects;
    if step.Publish? {
      var tmp, name := s.procs[step.p].tmp, c.Name(s.procs[step.p].i);
      assert CopyInv(c, s, step.p);
      NamesAreVisible(c, s.procs[step.p].i);
      var rest := s.objects - {tmp};
      assert rest - {tmp} == s.objects - {tmp};
      VisibleIgnoresTemps(rest, s.objects, tmp);
      assert Visible(t) == Visible(rest)[name := t[name]];
    } else {
      var tmp :| Hidden(tmp) && t - {tmp} == s.objects - {tmp};
      VisibleIgnoresTemps(t, s.objects, tmp);
    }
  }

  lemma NamesAreVisible(c: Config, i: nat)
    requires c.Ok() && i <= |c.entries|
    ensures !Hidden(c.Name(i))
  {
    assert '/' !in MANIFEST_NAME;
    assert MANIFEST_NAME[0] == '_' && TEMP_PREFIX[0] == '.';
  }

  /** Verified directories leave no room for two entries that ask different things of one path. */
  lemma SamePathSameEntry(c: Config, i: nat, j: nat)
    requires c.Ok() && i < |c.entries| && j < |c.entries| && c.entries[i].path == c.entries[j].path
    ensures c.entries[i] == c.entries[j]
  {
    var p: Pid := 0;
    assert Matches(c.source(p, c.entries[i].path), c.entries[i], c.hash);
    assert Matches(c.source(p, c.entries[j].path), c.entries[j], c.hash);
  }

  /** A listed file that matches keeps matching, whoever moves. */
  lemma StepKeepsMatch(c: Config, s: State, step: Step, i: nat)
    requires c.Ok() && Inv(c, s) && Enabled(c, s, step)
    requires i < |c.entries| && FileMatches(s.objects, c.entries[i], c.hash)
    ensures FileMatches(Do(c, s, step).objects, c.entries[i], c.hash)
  {
    var path := c.entries[i].path;
    var t := Do(c, s, step).objects;
    StepRefinesAtomicPut(c, s, step);
    assert path in Visible(s.objects);
    assert path in Visible(t) && Visible(t)[path] == t[path];
    if step.Publish? && c.Name(s.procs[step.p].i) == path {
      var j := s.procs[step.p].i;
      SamePathSameEntry(c, i, j);
    }
  }

  lemma StepKeepsMatches(c: Config, s: State, step: Step, n: nat)
    requires c.Ok() && Inv(c, s) && Enabled(c, s, step)
    requires n <= |c.entries| && AllMatch(s.objects, c.entries[..n], c.hash)
    ensures AllMatch(Do(c, s, step).objects, c.entries[..n], c.hash)
  {
    forall i | 0 <= i < n ensures FileMatches(Do(c, s, step).objects, c.entries[..n][i], c.hash) {
      assert FileMatches(s.objects, c.entries[..n][i], c.hash);
      StepKeepsMatch(c, s, step, i);
    }
  }

  lemma OneMore(c: Config, objects: Tree, i: nat)
    requires i < |c.entries|
    requires AllMatch(objects, c.entries[..i], c.hash) && FileMatches(objects, c.entries[i], c.hash)
    ensures AllMatch(objects, c.entries[..i + 1], c.hash)
  {
    assert c.entries[..i + 1] == c.entries[..i] + [c.entries[i]];
  }

  lemma StepKeepsProgress(c: Config, s: State, step: Step, p: Pid)
    requires c.Ok() && Inv(c, s) && Enabled(c, s, step)
    requires p in Do(c, s, step).procs
    ensures ProgressInv(c, Do(c, s, step), p)
  {
    var t := Do(c, s, step);
    var n := |c.entries|;
    if p in s.procs {
      assert ProgressInv(c, s, p);
      StepKeepsMatches(c, s, step, Reached(s.procs[p], n));
      if step.p == p && step.CheckHash? {
        var i := s.procs[p].i;
        if t.procs[p] == AtFile(i + 1) {
          HashOfSizedObject(c, s, p);
          OneMore(c, t.objects, i);
        }
      } else if step.p == p && step.Publish? && s.procs[p].i < n {
        var i := s.procs[p].i;
        StepIsAtomic(c, s, step);
        assert FileMatches(t.objects, c.entries[i], c.hash);
        OneMore(c, t.objects, i);
      }
    }
  }

  /** A matching hash settles the entry even though the size was read in an earlier step. */
  lemma HashOfSizedObject(c: Config, s: State, p: Pid)
    requires Inv(c, s) && Enabled(c, s, CheckHash(p))
    requires c.Name(s.procs[p].i) in s.objects
    requires c.hash(s.objects[c.Name(s.procs[p].i)]) == c.entries[s.procs[p].i].sha256
    ensures FileMatches(s.objects, c.entries[s.procs[p].i], c.hash)
  {
    assert SizeInv(c, s, p);
  }

  lemma StepKeepsSize(c: Config, s: State, step: Step, p: Pid)
    requires c.Ok() && Inv(c, s) && Enabled(c, s, step)
    requires p in Do(c, s, step).procs
    ensures SizeInv(c, Do(c, s, step), p)
  {
    var t := Do(c, s, step);
    if t.procs[p].SizeMatched? && p in s.procs && s.procs[p] == t.procs[p] {
      assert SizeInv(c, s, p);
      var name := c.Name(t.procs[p].i);
      NamesAreVisible(c, t.procs[p].i);
      StepRefinesAtomicPut(c, s, step);
      assert name in Visible(s.objects) && Visible(s.objects)[name] == s.objects[name];
      assert name in Visible(t.objects) && Visible(t.objects)[name] == t.objects[name];
      if step.Publish? && c.Name(s.procs[step.p].i) == name {
        var j := s.procs[step.p].i;
        SamePathSameEntry(c, t.procs[p].i, j);
      }
    }
  }

  lemma StepKeepsCopy(c: Config, s: State, step: Step, p: Pid)
    requires c.Ok() && Inv(c, s) && Enabled(c, s, step)
    requires p in Do(c, s, step).procs
    ensures CopyInv(c, Do(c, s, step), p)
  {
    var t := Do(c, s, step);
    if p in s.procs {
      assert CopyInv(c, s, p);
    }
    if step.p != p && step.p in s.procs {
      assert CopyInv(c, s, step.p);
      if step.Publish? {
        NamesAreVisible(c, s.procs[step.p].i);
      }
    }
  }

  lemma StepKeepsTemps(c: Config, s: State, step: Step)
    requires c.Ok() && Inv(c, s) && Enabled(c, s, step)
    ensures OwnTemps(Do(c, s, step))
  {
    var t := Do(c, s, step);
    forall p, q | p in t.procs && q in t.procs && p != q && t.procs[p].Copying? && t.procs[q].Copying?
      ensures t.procs[p].tmp != t.procs[q].tmp
    {
      if p in s.procs { assert CopyInv(c, s, p); }
      if q in s.procs { assert CopyInv(c, s, q); }
    }
  }

  lemma StepKeepsCertificate(c: Config, s: State, step: Step)
    requires c.Ok() && Inv(c, s) && Enabled(c, s, step)
    requires MANIFEST_NAME in Do(c, s, step).objects
    ensures Certified(c, Do(c, s, step).objects)
  {
    var t := Do(c, s, step);
    assert c.entries[..|c.entries|] == c.entries;
    StepRefinesAtomicPut(c, s, step);
    NamesAreVisible(c, |c.entries|);
    assert MANIFEST_NAME in Visible(t.objects) && Visible(t.objects)[MANIFEST_NAME] == t.objects[MANIFEST_NAME];
    if step.Publish? && s.procs[step.p].i == |c.entries| {
      assert ProgressInv(c, s, step.p);
      StepKeepsMatches(c, s, step, |c.entries|);
      assert ReadManifest(t.objects, c.codec) == Some(c.Manifest(step.p));
    } else {
      assert MANIFEST_NAME in s.objects && s.objects[MANIFEST_NAME] == t.objects[MANIFEST_NAME] by {
        assert MANIFEST_NAME in Visible(s.objects);
      }
      var p: Pid :| ReadManifest(s.objects, c.codec) == Some(c.Manifest(p));
      assert ReadManifest(t.objects, c.codec) == Some(c.Manifest(p));
      StepKeepsMatches(c, s, step, |c.entries|);
    }
  }

  lemma StepKeepsInv(c: Config, s: State, step: Step)
    requires c.Ok() && Inv(c, s) && Enabled(c, s, step)
    ensures Inv(c, Do(c, s, step))
  {
    var t := Do(c, s, step);
    forall p | p in t.procs ensures CopyInv(c, t, p) && SizeInv(c, t, p) && ProgressInv(c, t, p) {
      StepKeepsCopy(c, s, step, p);
      StepKeepsSize(c, s, step, p);
      StepKeepsProgress(c, s, step, p);
    }
    StepKeepsTemps(c, s, step);
    if MANIFEST_NAME in t.objects {
      StepKeepsCertificate(c, s, step);
    }
    ManifestStays(c, s, step);
  }

  lemma ManifestStays(c: Config, s: State, step: Step)
    requires c.Ok() && Inv(c, s) && Enabled(c, s, step)
    ensures var t := Do(c, s, step);
            && (MANIFEST_NAME in s.objects ==> MANIFEST_NAME in t.objects)
            && (forall p | p in t.procs && t.procs[p].Returned? :: MANIFEST_NAME in t.objects)
  {
    var t := Do(c, s, step);
    StepRefinesAtomicPut(c, s, step);
    NamesAreVisible(c, |c.entries|);
    if MANIFEST_NAME in s.objects {
      assert MANIFEST_NAME in Visible(s.objects);
      assert MANIFEST_NAME in Visible(t.objects);
    }
  }

  // ----- every reachable state -----

  lemma {:induction false} ReachableInv(c: Config, s: State, steps: seq<Step>)
    requires c.Ok() && Init(s) && Run(c, s, steps).Some?
    ensures Inv(c, Run(c, s, steps).value)
  {
    if steps != [] {
      ReachableInv(c, s, steps[..|steps| - 1]);
      StepKeepsInv(c, Run(c, s, steps[..|steps| - 1]).value, steps[|steps| - 1]);
    }
  }

  /**
   * Manifest implies complete: in every reachable state a manifest certifies the store, Verify accepts it
   * and its total is the sum of the sizes; and once any push has returned, there is a manifest.
   */
  lemma ManifestImpliesComplete(c: Config, s: State, steps: seq<Step>)
    requires c.Ok() && Init(s) && Run(c, s, steps).Some?
    ensures var t := Run(c, s, steps).value;
            && (MANIFEST_NAME in t.objects ==>
                  && Verified(t.objects, c.codec, c.hash)
                  && ReadManifest(t.objects, c.codec).value.hfRepo == c.repo
                  && ReadManifest(t.objects, c.codec).value.revision == c.sha
                  && ReadManifest(t.objects, c.codec).value.files == c.entries
                  && ReadManifest(t.objects, c.codec).value.totalBytes == TotalSize(c.entries))
            && (forall p | p in t.procs && t.procs[p].Returned? :: MANIFEST_NAME in t.objects)
  {
    ReachableInv(c, s, steps);
  }

  lemma {:induction false} RunConcat(c: Config, s: State, first: seq<Step>, more: seq<Step>)
    requires Run(c, s, first + more).Some?
    ensures Run(c, s, first).Some?
    ensures Run(c, s, first + more) == Run(c, Run(c, s, first).value, more)
  {
    if more == [] {
      assert first + more == first;
    } else {
      var n := |more| - 1;
      assert (first + more)[..|first + more| - 1] == first + more[..n];
      RunConcat(c, s, first, more[..n]);
    }
  }

  /** Nothing undoes a match: once a listed object matches, it matches for the rest of every run. */
  lemma {:induction false} MatchIsForever(c: Config, s: State, first: seq<Step>, more: seq<Step>, i: nat)
    requires c.Ok() && Init(s) && Run(c, s, first + more).Some? && Run(c, s, first).Some?
    requires i < |c.entries| && FileMatches(Run(c, s, first).value.objects, c.entries[i], c.hash)
    ensures FileMatches(Run(c, s, first + more).value.objects, c.entries[i], c.hash)
  {
    if more == [] {
      assert first + more == first;
    } else {
      var n := |more| - 1;
      var shorter := first + more[..n];
      assert (first + more)[..|first + more| - 1] == shorter;
      MatchIsForever(c, s, first, more[..n], i);
      ReachableInv(c, s, shorter);
      StepKeepsMatch(c, Run(c, s, shorter).value, more[n], i);
    }
  }

  /** So Verify succeeds at any time after any push returned, however many others are still running. */
  lemma ReturnedPushVerifiesForever(c: Config, s: State, first: seq<Step>, more: seq<Step>, p: Pid)
    requires c.Ok() && Init(s) && Run(c, s, first + more).Some? && Run(c, s, first).Some?
    requires p in Run(c, s, first).value.procs && Run(c, s, first).value.procs[p].Returned?
    ensures Verified(Run(c, s, first + more).value.objects, c.codec, c.hash)
  {
    ReturnedStays(c, s, first, more, p);
    ManifestImpliesComplete(c, s, first + more);
  }

  lemma {:induction false} ReturnedStays(c: Config, s: State, first: seq<Step>, more: seq<Step>, p: Pid)
    requires Run(c, s, first + more).Some? && Run(c, s, first).Some?
    requires p in Run(c, s, first).value.procs && Run(c, s, first).value.procs[p].Returned?
    ensures p in Run(c, s, first + more).value.procs && Run(c, s, first + more).value.procs[p].Returned?
  {
    if more == [] {
      assert first + more == first;
    } else {
      var n := |more| - 1;
      assert (first + more)[..|first + more| - 1] == first + more[..n];
      ReturnedStays(c, s, first, more[..n], p);
    }
  }
}

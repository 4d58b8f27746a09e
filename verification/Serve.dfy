/** One start of `fornax serve`, from the manifest to the readiness probe (internal/runtime/serve.go). */
module Serve {
  import opened Wrappers
  import opened Text
  import opened Flags
  import opened Manifest
  import opened Engine
  import opened Prep
  import opened CacheProtocol

  /** The directories Serve prepares, as jobs of the shared cache. */
  function Jobs(plan: seq<Artifact>, root: string): seq<Job> {
    if plan == [] then [] else [Job(ArtifactDir(root, plan[0]), plan[0].fetch)] + Jobs(plan[1..], root)
  }

  lemma {:induction false} JobOf(plan: seq<Artifact>, root: string, i: nat)
    requires i < |plan|
    ensures i < |Jobs(plan, root)| && Jobs(plan, root)[i] == Job(ArtifactDir(root, plan[i]), plan[i].fetch)
  {
    if i > 0 {
      JobOf(plan[1..], root, i - 1);
    }
  }

  /** Both paths handed to the engine are prepared directories, unless the primary weights stream. */
  lemma PathsArePrepared(m: Manifest, sp: Speculator, root: string)
    ensures var jobs := Jobs(Plan(m, sp), root);
            && (m.load != S3_STREAM ==> exists k | 0 <= k < |jobs| :: jobs[k].dir == ModelPath(m, root))
            && (sp.SeparateHead() ==> exists k | 0 <= k < |jobs| :: jobs[k].dir == DraftPath(sp, m.load, root))
            && (forall k | 0 <= k < |jobs| :: jobs[k].fetch <==> m.load != LOCAL)
            && (forall k | 0 <= k < |jobs| ::
                  jobs[k].dir == ModelPath(m, root) || jobs[k].dir == DraftPath(sp, m.load, root))
            && |jobs| == (if m.load != S3_STREAM then 1 else 0) + (if sp.SeparateHead() then 1 else 0)
  {
    var plan := Plan(m, sp);
    var jobs := Jobs(plan, root);
    if m.load != S3_STREAM {
      assert plan[0] == PrimaryArtifact(m).value;
      JobOf(plan, root, 0);
      assert exists k | 0 <= k < |jobs| :: jobs[k].dir == ModelPath(m, root);
    }
    if sp.SeparateHead() {
      assert plan[|plan| - 1] == DraftArtifact(sp, m.load).value;
      JobOf(plan, root, |plan| - 1);
      assert exists k | 0 <= k < |jobs| :: jobs[k].dir == DraftPath(sp, m.load, root);
    }
    JobsOfPlan(plan, root);
    forall k | 0 <= k < |jobs|
      ensures jobs[k].fetch <==> m.load != LOCAL
      ensures jobs[k].dir == ModelPath(m, root) || jobs[k].dir == DraftPath(sp, m.load, root)
    {
      JobOf(plan, root, k);
    }
  }

  lemma {:induction false} JobsOfPlan(plan: seq<Artifact>, root: string)
    ensures |Jobs(plan, root)| == |plan|
  {
    if plan != [] {
      JobsOfPlan(plan[1..], root);
    }
  }

  /**
   * In any run, beside any other processes on the same cache: whenever the readiness probe of this
   * process passes, the directories its engine was given match their manifests in that very state, and
   * the memory check has passed.
   */
  lemma ReadyServeIsVerified(m: Manifest, sp: Speculator, root: string, c: Config, s: State, steps: seq<Step>,
                             p: Pid, engineHealthy: bool)
    requires c.Ok() && c.locking && !c.readsFail && Init(s) && Run(c, s, steps).Some?
    requires var t := Run(c, s, steps).value;
             Ready(t, p, engineHealthy) && t.procs[p].plan == Jobs(Plan(m, sp), root)
    ensures var t := Run(c, s, steps).value;
            && (m.load != S3_STREAM ==> DirReady(c, t, ModelPath(m, root)))
            && (sp.SeparateHead() ==> DirReady(c, t, DraftPath(sp, m.load, root)))
            && (exists j | 0 <= j < |steps| :: steps[j] == MemoryCheckPasses(p))
            && (m.load == LOCAL && InPlaceOnly(steps, ModelPath(m, root)) ==>
                  forall path ::
                    && ((ModelPath(m, root), path) in t.disk <==> (ModelPath(m, root), path) in s.disk)
                    && ((ModelPath(m, root), path) in s.disk ==>
                          t.disk[(ModelPath(m, root), path)] == s.disk[(ModelPath(m, root), path)]))
  {
    ReadyMeansVerified(c, s, steps, p, engineHealthy);
    PathsArePrepared(m, sp, root);
    if m.load == LOCAL && InPlaceOnly(steps, ModelPath(m, root)) {
      Untouched(c, s, steps, ModelPath(m, root));
    }
  }

  lemma Untouched(c: Config, s: State, steps: seq<Step>, d: Dir)
    requires Init(s) && Run(c, s, steps).Some? && InPlaceOnly(steps, d)
    ensures var t := Run(c, s, steps).value;
            forall path :: ((d, path) in t.disk <==> (d, path) in s.disk)
                           && ((d, path) in s.disk ==> t.disk[(d, path)] == s.disk[(d, path)])
  {
    var t := Run(c, s, steps).value;
    forall path ensures ((d, path) in t.disk <==> (d, path) in s.disk)
                        && ((d, path) in s.disk ==> t.disk[(d, path)] == s.disk[(d, path)])
    {
      InPlaceIsUntouched(c, s, steps, d, path);
    }
  }

  /**
   * The line starts the runtime's engine on that model, served under the manifest's name and on that port,
   * unless the arguments say otherwise themselves; weights stream exactly for s3-stream.
   */
  predicate LaunchesModel(m: Manifest, sp: Speculator, cmd: seq<string>, model: string, port: int) {
    var args := m.args + sp.args;
    && |cmd| > 3
    && cmd[..3] == (if m.runtime == SGLANG then ["python3", "-m", "sglang.launch_server"] else ["vllm", "serve", model])
    && (m.runtime == SGLANG && FlagValue(args, MODEL_PATH_FLAG) == None ==>
          FlagValue(cmd, MODEL_PATH_FLAG) == Some(model))
    && (FlagValue(args, SERVED_NAME_FLAG) == None ==> FlagValue(cmd, SERVED_NAME_FLAG) == Some(m.name))
    && (FlagValue(args, PORT_FLAG) == None && port >= 0 ==> FlagValue(cmd, PORT_FLAG) == Some(Itoa(port)))
    && (FlagValue(args, LOAD_FORMAT_FLAG) == None ==>
          FlagValue(cmd, LOAD_FORMAT_FLAG) == if m.load == S3_STREAM then Some(STREAMER) else None)
  }

  lemma LaunchesThatModel(m: Manifest, spec: Speculation, model: string, port: int, draft: string)
    requires (m.runtime == SGLANG || m.runtime == VLLM) && (m.load == S3_STREAM ==> m.runtime == VLLM)
    requires NameOk(m.name) && !Dash(model)
    ensures var cmd := EngineCommand(m, model, port, spec, draft);
            cmd.Ok? && LaunchesModel(m, spec.speculator, cmd.value, model, port)
  {
    LaunchedProgram(m, model, port, spec, draft);
    LauncherFlagsAreOthers();
    LaunchedFlag(m, model, port, spec, draft, MODEL_PATH_FLAG);
    LaunchedFlag(m, model, port, spec, draft, SERVED_NAME_FLAG);
    LaunchedFlag(m, model, port, spec, draft, PORT_FLAG);
    LaunchedFlag(m, model, port, spec, draft, LOAD_FORMAT_FLAG);
    RuntimesDiffer();
  }

  lemma RuntimesDiffer()
    ensures SGLANG != VLLM
  {
    assert |SGLANG| == 6 && |VLLM| == 4;
  }

  lemma LauncherFlagsAreOthers()
    ensures forall f | f in [MODEL_PATH_FLAG, SERVED_NAME_FLAG, PORT_FLAG, LOAD_FORMAT_FLAG] ::
              HasPrefix(f, "--") && f != DRAFT_PATH_FLAG
    ensures |MODEL_PATH_FLAG| == 12 && |SERVED_NAME_FLAG| == 19 && |PORT_FLAG| == 6 && |LOAD_FORMAT_FLAG| == 13
    ensures |HOST_FLAG| == 6 && HOST_FLAG != PORT_FLAG
  {
    assert |DRAFT_PATH_FLAG| == 30;
    assert HOST_FLAG[2] != PORT_FLAG[2];
  }

  /**
   * The command Serve launches, with the paths preparation returned, on every start a valid manifest
   * permits: the ceiling and the DSPARK rules hold on the whole line.
   */
  lemma LaunchedCommandKeepsTheRules(m: Manifest, choice: string, root: string, port: int,
                                     parse: string -> Option<Float>)
    requires Valid(m, parse) && (m.runtime == SGLANG || m.runtime == VLLM) && root != "" && root[0] != '-'
    requires ResolveSpeculator(m, choice).Ok?
    ensures var spec := ResolveSpeculator(m, choice).value;
            var draft := DraftPath(spec.speculator, m.load, root);
            var cmd := EngineCommand(m, ModelPath(m, root), port, spec, draft);
            && cmd.Ok?
            && (m.gpu.gpuType == GB10 && m.runtime in MEM_FRACTION_FLAGS ==>
                  var f := EffectiveFraction(m, cmd.value, parse);
                  f.Some? && (UnderCeiling(f.value) <==> f.value != NaN))
            && DSparkLineOk(cmd.value, StagedHead(spec.speculator, draft))
            && LaunchesModel(m, spec.speculator, cmd.value, ModelPath(m, root), port)
  {
    var spec := ResolveSpeculator(m, choice).value;
    var model, draft := ModelPath(m, root), DraftPath(spec.speculator, m.load, root);
    PreparedPaths(m, spec.speculator, root, parse);
    if m.gpu.gpuType == GB10 && m.runtime in MEM_FRACTION_FLAGS {
      CeilingHoldsOnEveryStart(m, choice, model, port, draft, parse);
    }
    DSparkHoldsOnEveryStart(m, choice, model, port, draft, parse);
    LaunchesThatModel(m, spec, model, port, draft);
  }
}

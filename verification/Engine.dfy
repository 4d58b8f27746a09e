/** The engine's command line and what a valid manifest guarantees about it (internal/runtime/serve.go). */
module Engine {
  import opened Wrappers
  import opened Text
  import opened Flags
  import opened Manifest

  const MODEL_PATH_FLAG := "--model-path"
  const HOST_FLAG := "--host"
  const PORT_FLAG := "--port"
  const LOAD_FORMAT_FLAG := "--load-format"
  const SERVED_NAME_FLAG := "--served-model-name"
  const ANY_HOST := "0.0.0.0"
  const STREAMER := "runai_streamer"

  /** What precedes the manifest's own arguments. */
  function Launcher(m: Manifest, model: string, port: int): seq<string> {
    (if m.runtime == SGLANG then
       ["python3", "-m", "sglang.launch_server", MODEL_PATH_FLAG, model, HOST_FLAG, ANY_HOST, PORT_FLAG, Itoa(port)]
     else
       ["vllm", "serve", model, HOST_FLAG, ANY_HOST, PORT_FLAG, Itoa(port)]
       + if m.load == S3_STREAM then [LOAD_FORMAT_FLAG, STREAMER] else [])
    + [SERVED_NAME_FLAG, m.name]
  }

  function DraftArgs(draftPath: string): seq<string> {
    if draftPath != "" then [DRAFT_PATH_FLAG + "=" + draftPath] else []
  }

  datatype EngineError = NoEngineCommand

  function EngineCommand(m: Manifest, model: string, port: int, spec: Speculation, draftPath: string)
    : Result<seq<string>, EngineError>
  {
    if m.runtime == SGLANG || m.runtime == VLLM then
      Ok(Launcher(m, model, port) + m.args + spec.speculator.args + DraftArgs(draftPath))
    else
      Err(NoEngineCommand)
  }

  // ----- reading a flag off the composed line -----

  lemma DraftTokenKey(draftPath: string)
    ensures var token := DRAFT_PATH_FLAG + "=" + draftPath;
            Key(token) == DRAFT_PATH_FLAG && Cut(token, '=').after == draftPath && Dash(token)
  {
    assert '=' !in DRAFT_PATH_FLAG;
    CutAt(DRAFT_PATH_FLAG, '=', draftPath);
  }

  lemma DraftArgsValue(draftPath: string, flag: string)
    ensures FlagValue(DraftArgs(draftPath), flag) ==
            if draftPath != "" && flag == DRAFT_PATH_FLAG then Some(draftPath) else None
    ensures Count(DraftArgs(draftPath), flag) == if draftPath != "" && flag == DRAFT_PATH_FLAG then 1 else 0
    ensures DraftArgs(draftPath) != [] ==> Dash(DraftArgs(draftPath)[0])
  {
    DraftTokenKey(draftPath);
  }

  /** The composed line: a launcher, the arguments every rule was checked on, and the staged draft head. */
  lemma CommandParts(m: Manifest, model: string, port: int, spec: Speculation, draftPath: string)
    requires m.runtime == SGLANG || m.runtime == VLLM
    ensures EngineCommand(m, model, port, spec, draftPath) ==
            Ok(Launcher(m, model, port) + (m.args + spec.speculator.args) + DraftArgs(draftPath))
  {
    Regroup(Launcher(m, model, port), m.args, spec.speculator.args);
  }

  lemma Regroup(a: seq<string>, b: seq<string>, c: seq<string>)
    ensures a + b + c == a + (b + c)
  {
  }

  /** A flag the arguments state keeps their value, whatever is put in front. */
  lemma StatedFlagSurvives(head: seq<string>, args: seq<string>, draftPath: string, flag: string)
    requires flag != DRAFT_PATH_FLAG
    requires FlagValue(args, flag).Some?
    ensures FlagValue(head + args + DraftArgs(draftPath), flag) == FlagValue(args, flag)
  {
    DraftArgsValue(draftPath, flag);
    FlagSuffixWins(head, args, flag);
    FlagIgnoresTail(head + args, DraftArgs(draftPath), flag);
  }

  predicate LauncherFlag(flag: string) {
    flag == MODEL_PATH_FLAG || flag == HOST_FLAG || flag == PORT_FLAG || flag == LOAD_FORMAT_FLAG
    || flag == SERVED_NAME_FLAG
  }

  lemma PortIsNoFlag(port: int, flag: string)
    requires HasPrefix(flag, "--")
    ensures Key(Itoa(port)) != flag && (Dash(Itoa(port)) <==> port < 0)
  {
    var s := Itoa(port);
    CutParts(s, '=');
    assert flag[0] == "--"[0] && flag[1] == "--"[1];
    assert '=' !in s;
    if port < 0 {
      assert s[0] == '-' && s[1] == Decimal(-port)[0] && Digit(s[1]);
    } else {
      assert Digit(s[0]);
    }
  }

  /** Host, port and what follows them, the same for both engines. */
  function Endpoint(port: int, rest: seq<string>): seq<string> {
    [HOST_FLAG, ANY_HOST] + ([PORT_FLAG, Itoa(port)] + rest)
  }

  function Closing(m: Manifest): seq<string> {
    (if m.runtime != SGLANG && m.load == S3_STREAM then [LOAD_FORMAT_FLAG, STREAMER] else [])
    + ([SERVED_NAME_FLAG, m.name] + [])
  }

  lemma SGLangLauncher(m: Manifest, model: string, port: int)
    requires m.runtime == SGLANG
    ensures Launcher(m, model, port) ==
            ["python3"] + (["-m"] + (["sglang.launch_server"] + ([MODEL_PATH_FLAG, model] + Endpoint(port, Closing(m)))))
  {
  }

  lemma VLLMLauncher(m: Manifest, model: string, port: int)
    requires m.runtime != SGLANG
    ensures Launcher(m, model, port) == ["vllm"] + (["serve"] + ([model] + Endpoint(port, Closing(m))))
  {
  }

  lemma PlainWord(word: string, flag: string)
    requires HasPrefix(flag, "--") && word != "" && (word[0] != '-' || (|word| > 1 && word[1] != '-'))
    ensures Key(word) != flag
  {
    CutParts(word, '=');
    assert flag[0] == "--"[0] && flag[1] == "--"[1];
  }

  lemma LauncherFlagIsAFlag(flag: string)
    requires LauncherFlag(flag)
    ensures Dash(flag) && '=' !in flag
  {
  }

  /** What the launcher spells after the model, flag by flag. */
  lemma EndpointReads(m: Manifest, port: int, flag: string)
    requires NameOk(m.name) && HasPrefix(flag, "--")
    ensures FlagValue(Endpoint(port, Closing(m)), flag) ==
            if flag == SERVED_NAME_FLAG then Some(m.name)
            else if flag == LOAD_FORMAT_FLAG && m.runtime != SGLANG && m.load == S3_STREAM then Some(STREAMER)
            else if flag == PORT_FLAG then Some(if port < 0 then "" else Itoa(port))
            else if flag == HOST_FLAG then Some(ANY_HOST)
            else None
  {
    ClosingReads(m, flag);
    LauncherFlagIsAFlag(PORT_FLAG);
    LauncherFlagIsAFlag(HOST_FLAG);
    PortIsNoFlag(port, flag);
    FlagThen(PORT_FLAG, Itoa(port), Closing(m), flag);
    HostIsPlain(flag);
    FlagThen(HOST_FLAG, ANY_HOST, [PORT_FLAG, Itoa(port)] + Closing(m), flag);
  }

  lemma HostIsPlain(flag: string)
    requires HasPrefix(flag, "--")
    ensures Key(ANY_HOST) != flag && !Dash(ANY_HOST) && Key(STREAMER) != flag && !Dash(STREAMER)
  {
    PlainWord(ANY_HOST, flag);
    PlainWord(STREAMER, flag);
  }

  lemma NameIsPlain(name: string, flag: string)
    requires NameOk(name) && HasPrefix(flag, "--")
    ensures Key(name) != flag && !Dash(name)
  {
    PlainWord(name, flag);
  }

  lemma ClosingReads(m: Manifest, flag: string)
    requires NameOk(m.name) && HasPrefix(flag, "--")
    ensures FlagValue(Closing(m), flag) ==
            if flag == SERVED_NAME_FLAG then Some(m.name)
            else if flag == LOAD_FORMAT_FLAG && m.runtime != SGLANG && m.load == S3_STREAM then Some(STREAMER)
            else None
  {
    LauncherFlagIsAFlag(SERVED_NAME_FLAG);
    LauncherFlagIsAFlag(LOAD_FORMAT_FLAG);
    NameIsPlain(m.name, flag);
    HostIsPlain(flag);
    FlagThen(SERVED_NAME_FLAG, m.name, [], flag);
    OptionalThen(m.runtime != SGLANG && m.load == S3_STREAM, LOAD_FORMAT_FLAG, STREAMER,
                 [SERVED_NAME_FLAG, m.name] + [], flag);
  }

  lemma OptionalThen(present: bool, name: string, value: string, rest: seq<string>, flag: string)
    requires Dash(name) && '=' !in name && Key(value) != flag && !Dash(value)
    ensures FlagValue((if present then [name, value] else []) + rest, flag) ==
            var later := FlagValue(rest, flag);
            if later.Some? then later else if present && flag == name then Some(value) else None
  {
    if present {
      FlagThen(name, value, rest, flag);
    } else {
      assert [] + rest == rest;
    }
  }

  /** Everything the launcher says, read flag by flag, given a model path that is not itself a flag. */
  function LauncherValue(m: Manifest, model: string, port: int, flag: string): Option<string> {
    if flag == SERVED_NAME_FLAG then Some(m.name)
    else if flag == LOAD_FORMAT_FLAG && m.runtime != SGLANG && m.load == S3_STREAM then Some(STREAMER)
    else if flag == PORT_FLAG then Some(if port < 0 then "" else Itoa(port))
    else if flag == HOST_FLAG then Some(ANY_HOST)
    else if flag == MODEL_PATH_FLAG && m.runtime == SGLANG then Some(model)
    else None
  }

  lemma LauncherReads(m: Manifest, model: string, port: int, flag: string)
    requires NameOk(m.name) && !Dash(model) && HasPrefix(flag, "--")
    ensures FlagValue(Launcher(m, model, port), flag) == LauncherValue(m, model, port, flag)
  {
    EndpointReads(m, port, flag);
    assert Dash(flag) by {
      assert flag[0] == "--"[0];
    }
    ValueTokenIsNoFlag(model, flag);
    if m.runtime == SGLANG {
      SGLangReads(m, model, port, flag);
    } else {
      VLLMReads(m, model, port, flag);
    }
  }

  lemma SGLangReads(m: Manifest, model: string, port: int, flag: string)
    requires m.runtime == SGLANG && HasPrefix(flag, "--") && !Dash(model) && Key(model) != flag
    ensures FlagValue(Launcher(m, model, port), flag) ==
            var later := FlagValue(Endpoint(port, Closing(m)), flag);
            if later.Some? then later else if flag == MODEL_PATH_FLAG then Some(model) else None
  {
    var rest := Endpoint(port, Closing(m));
    LauncherFlagIsAFlag(MODEL_PATH_FLAG);
    SGLangLauncher(m, model, port);
    FlagThen(MODEL_PATH_FLAG, model, rest, flag);
    WordsBefore("python3", "-m", "sglang.launch_server", [MODEL_PATH_FLAG, model] + rest, flag);
  }

  lemma VLLMReads(m: Manifest, model: string, port: int, flag: string)
    requires m.runtime != SGLANG && HasPrefix(flag, "--") && Key(model) != flag
    ensures FlagValue(Launcher(m, model, port), flag) == FlagValue(Endpoint(port, Closing(m)), flag)
  {
    var rest := Endpoint(port, Closing(m));
    VLLMLauncher(m, model, port);
    PlainWord("vllm", flag);
    PlainWord("serve", flag);
    WordThen(model, rest, flag);
    WordThen("serve", [model] + rest, flag);
    WordThen("vllm", ["serve"] + ([model] + rest), flag);
  }

  lemma WordsBefore(a: string, b: string, c: string, rest: seq<string>, flag: string)
    requires HasPrefix(flag, "--") && a != "" && b != "" && c != ""
    requires a[0] != '-' && (b[0] != '-' || (|b| > 1 && b[1] != '-')) && c[0] != '-'
    ensures FlagValue([a] + ([b] + ([c] + rest)), flag) == FlagValue(rest, flag)
  {
    PlainWord(a, flag);
    PlainWord(b, flag);
    PlainWord(c, flag);
    WordThen(c, rest, flag);
    WordThen(b, [c] + rest, flag);
    WordThen(a, [b] + ([c] + rest), flag);
  }

  /** The launcher spells only its own flags. */
  lemma LauncherSpellsNoOther(m: Manifest, model: string, port: int, flag: string)
    requires NameOk(m.name) && !Dash(model)
    requires HasPrefix(flag, "--") && !LauncherFlag(flag)
    ensures FlagValue(Launcher(m, model, port), flag) == None
  {
    LauncherReads(m, model, port, flag);
  }

  /**
   * On every start, any flag but the draft path reads as the last of the manifest's and the speculator's
   * arguments that state it, and otherwise as the launcher says.
   */
  lemma LaunchedFlag(m: Manifest, model: string, port: int, spec: Speculation, draftPath: string, flag: string)
    requires (m.runtime == SGLANG || m.runtime == VLLM) && NameOk(m.name) && !Dash(model)
    requires HasPrefix(flag, "--") && flag != DRAFT_PATH_FLAG
    ensures var cmd := EngineCommand(m, model, port, spec, draftPath);
            var stated := FlagValue(m.args + spec.speculator.args, flag);
            cmd.Ok? && FlagValue(cmd.value, flag) ==
                       if stated.Some? then stated else LauncherValue(m, model, port, flag)
  {
    var head, args := Launcher(m, model, port), m.args + spec.speculator.args;
    CommandParts(m, model, port, spec, draftPath);
    LauncherReads(m, model, port, flag);
    NameIsPlain(m.name, flag);
    EndsInName(m, model, port);
    DraftArgsValue(draftPath, flag);
    FlagConcat(head, args, flag);
    FlagIgnoresTail(head + args, DraftArgs(draftPath), flag);
    CutParts(m.name, '=');
  }

  lemma EndsInName(m: Manifest, model: string, port: int)
    ensures var head := Launcher(m, model, port);
            head != [] && head[|head| - 1] == m.name
  {
  }

  /** The program the line starts, and the model it is given. */
  lemma LaunchedProgram(m: Manifest, model: string, port: int, spec: Speculation, draftPath: string)
    requires m.runtime == SGLANG || m.runtime == VLLM
    ensures var cmd := EngineCommand(m, model, port, spec, draftPath);
            && cmd.Ok? && |cmd.value| > 3
            && cmd.value[..3] == if m.runtime == SGLANG then ["python3", "-m", "sglang.launch_server"]
                                 else ["vllm", "serve", model]
  {
    CommandParts(m, model, port, spec, draftPath);
    var head := Launcher(m, model, port);
    FirstThree(m, model, port);
    Prefix3(head, m.args + spec.speculator.args, DraftArgs(draftPath));
  }

  lemma FirstThree(m: Manifest, model: string, port: int)
    ensures var head := Launcher(m, model, port);
            |head| > 3 && head[..3] == if m.runtime == SGLANG then ["python3", "-m", "sglang.launch_server"]
                                       else ["vllm", "serve", model]
  {
  }

  lemma Prefix3(a: seq<string>, b: seq<string>, c: seq<string>)
    requires |a| > 3
    ensures (a + b + c)[..3] == a[..3]
  {
  }

  /** A flag the head does not spell reads exactly as the arguments and the draft head say. */
  lemma ComposedFlag(head: seq<string>, args: seq<string>, draftPath: string, flag: string)
    requires FlagValue(head, flag) == None
    ensures FlagValue(head + args + DraftArgs(draftPath), flag) ==
            if flag == DRAFT_PATH_FLAG && draftPath != "" then Some(draftPath) else FlagValue(args, flag)
    ensures Count(head + args + DraftArgs(draftPath), flag) ==
            Count(args, flag) + if flag == DRAFT_PATH_FLAG && draftPath != "" then 1 else 0
  {
    DraftArgsValue(draftPath, flag);
    FlagConcat(head, args, flag);
    FlagConcat(head + args, DraftArgs(draftPath), flag);
    if EndsInBareFlag(head, flag) {
      BareEndIsFound(head, flag);
    }
    CountConcat(head, args, flag);
    CountConcat(head + args, DraftArgs(draftPath), flag);
    CountZeroIffAbsent(head, flag);
  }

  // ----- the unified-memory ceiling -----

  /** What the engine does with the fraction flag on a command line: the parsed last occurrence. */
  function EffectiveFraction(m: Manifest, cmd: seq<string>, parse: string -> Option<Float>): Option<Float>
    requires m.runtime in MEM_FRACTION_FLAGS
  {
    var v := FlagValue(cmd, MEM_FRACTION_FLAGS[m.runtime]);
    if v.None? then None else parse(v.value)
  }

  predicate UnderCeiling(f: Float) { f.Finite? && 0.0 < f.v <= 0.80 }

  /** The arguments every rule was checked on are the ones the engine gets. */
  lemma ResolvedFractionOk(m: Manifest, choice: string, parse: string -> Option<Float>)
    requires Valid(m, parse) && m.gpu.gpuType == GB10 && m.runtime in MEM_FRACTION_FLAGS
    requires ResolveSpeculator(m, choice).Ok?
    ensures FractionOk(m.args + ResolveSpeculator(m, choice).value.speculator.args,
                       MEM_FRACTION_FLAGS[m.runtime], parse)
  {
    var spec := ResolveSpeculator(m, choice).value;
    if spec.name == NONE {
      assert m.args + spec.speculator.args == m.args;
    }
  }

  /**
   * No start a valid gb10 manifest permits can break the ceiling: on the whole command line the
   * fraction flag is present, its last value parses, and it is in (0, 0.80] exactly when it is not NaN.
   */
  lemma CeilingHoldsOnEveryStart(m: Manifest, choice: string, model: string, port: int, draftPath: string,
                                 parse: string -> Option<Float>)
    requires Valid(m, parse) && m.gpu.gpuType == GB10 && m.runtime in MEM_FRACTION_FLAGS
    requires ResolveSpeculator(m, choice).Ok?
    ensures var spec := ResolveSpeculator(m, choice).value;
            var cmd := EngineCommand(m, model, port, spec, draftPath);
            && cmd.Ok?
            && var f := EffectiveFraction(m, cmd.value, parse);
               f.Some? && (UnderCeiling(f.value) <==> f.value != NaN)
  {
    var spec := ResolveSpeculator(m, choice).value;
    var flag := MEM_FRACTION_FLAGS[m.runtime];
    var args := m.args + spec.speculator.args;
    ResolvedFractionOk(m, choice, parse);
    CommandParts(m, model, port, spec, draftPath);
    StatedFlagSurvives(Launcher(m, model, port), args, draftPath, flag);
  }

  /** A complete gb10 manifest that states the given fraction and offers the given speculators. */
  function GB10Offering(fraction: string, speculators: map<string, Speculator>, chosen: string): Manifest {
    Manifest("m", "o" + "/" + "r", seq(40, i => '0'), "", "fp8", "mit", VLLM, "", "", "", LOCAL, GPU(GB10, 1, 1), 1,
             [GPU_UTILIZATION_FLAG, fraction, MAX_MODEL_LEN_FLAG], None, speculators, chosen)
  }

  function GB10Manifest(fraction: string): Manifest { GB10Offering(fraction, map[], "") }

  /** Reading `f v g` for flags without '='. */
  lemma ThreeTokens(f: string, v: string, g: string, flag: string)
    requires Dash(f) && Dash(g) && Dash(flag) && !Dash(v) && f != g && '=' !in f && '=' !in g
    ensures FlagValue([f, v, g], flag) ==
            if flag == f then Some(v) else if flag == g then Some("") else None
  {
    var args := [f, v, g];
    CutParts(f, '=');
    CutParts(g, '=');
    ValueTokenIsNoFlag(v, flag);
    assert args[1..] == [v, g] && [v, g][1..] == [g] && [g][1..] == [];
    assert FlagValue([g], flag) == if flag == g then Some("") else None;
    assert FlagValue([v, g], flag) == FlagValue([g], flag);
  }

  lemma FlagNames()
    ensures forall f | f in {GPU_UTILIZATION_FLAG, MAX_MODEL_LEN_FLAG, ALGORITHM_FLAG} :: Dash(f) && '=' !in f
    ensures GPU_UTILIZATION_FLAG != MAX_MODEL_LEN_FLAG && GPU_UTILIZATION_FLAG != ALGORITHM_FLAG
    ensures MAX_MODEL_LEN_FLAG != ALGORITHM_FLAG
  {
    assert GPU_UTILIZATION_FLAG[2] != MAX_MODEL_LEN_FLAG[2];
    assert GPU_UTILIZATION_FLAG[2] != ALGORITHM_FLAG[2];
    assert MAX_MODEL_LEN_FLAG[2] != ALGORITHM_FLAG[2];
  }

  lemma GB10Args(fraction: string)
    requires !Dash(fraction)
    ensures var args := GB10Manifest(fraction).args;
            && FlagValue(args, GPU_UTILIZATION_FLAG) == Some(fraction)
            && FlagValue(args, MAX_MODEL_LEN_FLAG) == Some("")
            && FlagValue(args, ALGORITHM_FLAG) == None
  {
    FlagNames();
    ThreeTokens(GPU_UTILIZATION_FLAG, fraction, MAX_MODEL_LEN_FLAG, GPU_UTILIZATION_FLAG);
    ThreeTokens(GPU_UTILIZATION_FLAG, fraction, MAX_MODEL_LEN_FLAG, MAX_MODEL_LEN_FLAG);
    ThreeTokens(GPU_UTILIZATION_FLAG, fraction, MAX_MODEL_LEN_FLAG, ALGORITHM_FLAG);
  }

  lemma GB10HeaderOk(fraction: string, speculators: map<string, Speculator>, chosen: string)
    ensures var m := GB10Offering(fraction, speculators, chosen);
            SourceOk(m) && EngineOk(m) && ShapeOk(m) && PromptOk(m)
  {
    var m := GB10Offering(fraction, speculators, chosen);
    CutAt("o", '/', "r");
    assert RepoOk(m.hfRepo) by {
      assert m.hfRepo == "o" + ['/'] + "r";
    }
    assert RevisionOk(m.revision);
    assert |m.hfRepo| == 3;
    assert m.hfRepo !in REQUIRED_ARGS by {
      assert forall r | r in REQUIRED_ARGS :: |r| > 3;
    }
  }

  lemma GB10ManifestValid(fraction: string, parse: string -> Option<Float>)
    requires fraction != "" && !Dash(fraction)
    requires parse(fraction).Some? && !AtMost(parse(fraction).value, 0.0) && !Above(parse(fraction).value, 0.80)
    ensures Valid(GB10Manifest(fraction), parse)
  {
    GB10HeaderOk(fraction, map[], "");
    GB10Args(fraction);
  }

  /** The gap is real: a parser that reads NaN lets a valid manifest start without a ceiling. */
  lemma NaNPassesTheCeiling(model: string, port: int, parse: string -> Option<Float>)
    requires parse("NaN") == Some(NaN)
    ensures var m := GB10Manifest("NaN");
            var spec := Speculation(NONE, NO_SPECULATOR);
            && Valid(m, parse) && ResolveSpeculator(m, "") == Ok(spec)
            && var cmd := EngineCommand(m, model, port, spec, "");
               cmd.Ok? && EffectiveFraction(m, cmd.value, parse) == Some(NaN)
  {
    assert "NaN"[0] != '-';
    GB10ManifestValid("NaN", parse);
    var m := GB10Manifest("NaN");
    GB10Args("NaN");
    assert MEM_FRACTION_FLAGS[m.runtime] == GPU_UTILIZATION_FLAG;
    CommandParts(m, model, port, Speculation(NONE, NO_SPECULATOR), "");
    assert m.args + NO_SPECULATOR.args == m.args;
    StatedFlagSurvives(Launcher(m, model, port), m.args, "", GPU_UTILIZATION_FLAG);
  }

  // ----- the DSpark rules -----

  /**
   * What a command line that runs DSPARK must look like: one pipeline stage, no DP attention, and the
   * draft checkpoint named once, with the staged directory, exactly when there is one.
   */
  predicate DSparkLineOk(cmd: seq<string>, staged: Option<string>) {
    FlagValue(cmd, ALGORITHM_FLAG) == Some(DSPARK) ==>
      && (FlagValue(cmd, PP_SIZE_FLAG) == None || FlagValue(cmd, PP_SIZE_FLAG) == Some("1"))
      && FlagValue(cmd, DP_ATTENTION_FLAG) == None
      && FlagValue(cmd, DRAFT_PATH_FLAG) == staged
      && Count(cmd, DRAFT_PATH_FLAG) == if staged.Some? then 1 else 0
  }

  function StagedHead(sp: Speculator, draftPath: string): Option<string> {
    if sp.SeparateHead() then Some(draftPath) else None
  }

  /** Every start of a valid manifest obeys them, given a model path that is not itself a flag. */
  lemma DSparkHoldsOnEveryStart(m: Manifest, choice: string, model: string, port: int, draftPath: string,
                                parse: string -> Option<Float>)
    requires Valid(m, parse) && (m.runtime == SGLANG || m.runtime == VLLM) && !Dash(model)
    requires ResolveSpeculator(m, choice).Ok?
    requires draftPath != "" <==> ResolveSpeculator(m, choice).value.speculator.SeparateHead()
    ensures var spec := ResolveSpeculator(m, choice).value;
            var cmd := EngineCommand(m, model, port, spec, draftPath);
            cmd.Ok? && DSparkLineOk(cmd.value, StagedHead(spec.speculator, draftPath))
  {
    var spec := ResolveSpeculator(m, choice).value;
    CommandParts(m, model, port, spec, draftPath);
    LauncherIsSilent(m, model, port);
    ResolvedDSparkOk(m, choice);
    DSparkSurvives(Launcher(m, model, port), m.args + spec.speculator.args, draftPath);
  }

  lemma ResolvedDSparkOk(m: Manifest, choice: string)
    requires SpeculationOk(m) && ResolveSpeculator(m, choice).Ok?
    ensures DSparkOk(m.args + ResolveSpeculator(m, choice).value.speculator.args)
  {
    assert m.args + NO_SPECULATOR.args == m.args;
  }

  predicate SpeculationFlag(flag: string) {
    flag == ALGORITHM_FLAG || flag == PP_SIZE_FLAG || flag == DP_ATTENTION_FLAG || flag == DRAFT_PATH_FLAG
  }

  lemma SpeculationFlagsAreNotTheLaunchers(flag: string)
    requires SpeculationFlag(flag)
    ensures HasPrefix(flag, "--") && !LauncherFlag(flag)
  {
  }

  lemma LauncherIsSilent(m: Manifest, model: string, port: int)
    requires NameOk(m.name) && !Dash(model)
    ensures forall flag | SpeculationFlag(flag) :: FlagValue(Launcher(m, model, port), flag) == None
  {
    forall flag | SpeculationFlag(flag) ensures FlagValue(Launcher(m, model, port), flag) == None {
      SpeculationFlagsAreNotTheLaunchers(flag);
      LauncherSpellsNoOther(m, model, port, flag);
    }
  }

  /** The rules checked on the arguments hold on the whole line. */
  lemma DSparkSurvives(head: seq<string>, args: seq<string>, draftPath: string)
    requires forall flag | SpeculationFlag(flag) :: FlagValue(head, flag) == None
    requires DSparkOk(args)
    ensures DSparkLineOk(head + args + DraftArgs(draftPath), if draftPath != "" then Some(draftPath) else None)
  {
    FlagsDiffer();
    ComposedFlag(head, args, draftPath, ALGORITHM_FLAG);
    ComposedFlag(head, args, draftPath, PP_SIZE_FLAG);
    ComposedFlag(head, args, draftPath, DP_ATTENTION_FLAG);
    ComposedFlag(head, args, draftPath, DRAFT_PATH_FLAG);
    CountZeroIffAbsent(args, DRAFT_PATH_FLAG);
  }

  lemma FlagsDiffer()
    ensures DRAFT_PATH_FLAG != ALGORITHM_FLAG && DRAFT_PATH_FLAG != PP_SIZE_FLAG
    ensures DRAFT_PATH_FLAG != DP_ATTENTION_FLAG
  {
    assert |ALGORITHM_FLAG| == 23 && |DRAFT_PATH_FLAG| == 30 && |PP_SIZE_FLAG| == 9 && |DP_ATTENTION_FLAG| == 21;
  }
}

/** models/<name>.yaml and the rules a manifest must meet (internal/manifest/manifest.go). */
module Manifest {
  import opened Wrappers
  import opened Text
  import opened Flags

  const SGLANG := "sglang"
  const VLLM := "vllm"
  const CUSTOM := "custom"
  const NVME_CACHE := "nvme-cache"
  const S3_STREAM := "s3-stream"
  const LOCAL := "local"
  const K8S := "k8s"
  const BARE_METAL := "bare-metal"
  const GB10 := "gb10"
  const NONE := "none"
  const DSPARK := "DSPARK"
  const ALGORITHM_FLAG := "--speculative-algorithm"
  const DRAFT_PATH_FLAG := "--speculative-draft-model-path"
  const PP_SIZE_FLAG := "--pp-size"
  const DP_ATTENTION_FLAG := "--enable-dp-attention"

  const STATIC_FRACTION_FLAG := "--mem-fraction-static"
  const GPU_UTILIZATION_FLAG := "--gpu-memory-utilization"
  const CONTEXT_LENGTH_FLAG := "--context-length"
  const MAX_MODEL_LEN_FLAG := "--max-model-len"

  const MEM_FRACTION_FLAGS := map[SGLANG := STATIC_FRACTION_FLAG, VLLM := GPU_UTILIZATION_FLAG]
  const CONTEXT_FLAGS := map[SGLANG := CONTEXT_LENGTH_FLAG, VLLM := MAX_MODEL_LEN_FLAG]

  const REQUIRED_ARGS := map[
    "MiniMaxAI/MiniMax-M3" := "--block-size=128",
    "MiniMaxAI/MiniMax-M3-MXFP8" := "--block-size=128",
    "moonshotai/Kimi-K3" := "--trust-remote-code",
    "deepseek-ai/DeepSeek-V4-Flash-0731" := "--trust-remote-code"]

  /** What strconv.ParseFloat can return without an error; a number is kept exact. */
  datatype Float = NaN | NegInf | PosInf | Finite(v: real)

  /** Go's comparisons: each is false as soon as one side is NaN. */
  predicate AtMost(f: Float, bound: real) { f.NegInf? || (f.Finite? && f.v <= bound) }

  predicate Above(f: Float, bound: real) { f.PosInf? || (f.Finite? && f.v > bound) }

  datatype GPU = GPU(gpuType: string, count: int, nodes: int)

  datatype SystemPrompt = SystemPrompt(mode: string, text: string)

  datatype Speculator = Speculator(hfRepo: string, revision: string, s3Prefix: string,
                                   license: string, args: seq<string>)
  {
    predicate SeparateHead() { hfRepo != "" }
  }

  const NO_SPECULATOR := Speculator("", "", "", "", [])

  datatype Manifest = Manifest(name: string, hfRepo: string, revision: string, s3Prefix: string,
                               format: string, license: string, runtime: string, image: string,
                               deploy: string, engineDialect: string, load: string, gpu: GPU,
                               contextMax: int, args: seq<string>, systemPrompt: Option<SystemPrompt>,
                               speculators: map<string, Speculator>, defaultSpeculator: string)
  {
    function Dialect(): string { if engineDialect != "" then engineDialect else "openai-chat" }

    function DeployMode(): string { if deploy != "" then deploy else K8S }

    /** Present as `flag`, or as `k` `v` when flag is `k=v`. */
    predicate HasArg(flag: string) {
      var cut := Cut(flag, '=');
      exists i | 0 <= i < |args| ::
        args[i] == flag
        || (cut.found && args[i] == cut.before && i + 1 < |args| && args[i + 1] == cut.after)
    }
  }

  // ----- the regular expressions -----

  predicate NameChar(c: char) { Lower(c) || Digit(c) || c == '.' || c == '-' }

  predicate NameOk(s: string) {
    s != "" && (Lower(s[0]) || Digit(s[0])) && forall c | c in s :: NameChar(c)
  }

  predicate RevisionOk(s: string) {
    |s| == 40 && forall c | c in s :: Digit(c) || 'a' <= c <= 'f'
  }

  predicate RepoChar(c: char) { Lower(c) || Upper(c) || Digit(c) || c in {'_', '.', '-'} }

  predicate RepoOk(s: string) {
    var cut := Cut(s, '/');
    && cut.found && cut.before != "" && cut.after != ""
    && (forall c | c in cut.before :: RepoChar(c))
    && (forall c | c in cut.after :: RepoChar(c))
  }

  // ----- rules -----

  /** s3://<bucket>/<hf_repo>/<revision>/ */
  predicate S3PrefixOk(prefix: string, repo: string, revision: string) {
    && HasPrefix(prefix, "s3://")
    && var cut := Cut(prefix[5..], '/');
       cut.found && cut.before != "" && cut.after == repo + "/" + revision + "/"
  }

  predicate WeightSourceOk(m: Manifest) {
    if m.load == LOCAL then m.s3Prefix == "" else S3PrefixOk(m.s3Prefix, m.hfRepo, m.revision)
  }

  predicate DraftSourceOk(sp: Speculator, load: string) {
    if load == LOCAL then sp.s3Prefix == ""
    else load != S3_STREAM && S3PrefixOk(sp.s3Prefix, sp.hfRepo, sp.revision)
  }

  /** The unified-memory ceiling on one combination of arguments. */
  predicate FractionOk(args: seq<string>, flag: string, parse: string -> Option<Float>) {
    var value := FlagValue(args, flag);
    && value.Some? && value.value != ""
    && var f := parse(value.value);
       f.Some? && !AtMost(f.value, 0.0) && !Above(f.value, 0.80)
  }

  predicate GB10Ok(m: Manifest, parse: string -> Option<Float>) {
    m.gpu.gpuType == GB10 ==>
      && m.gpu.count == 1 && m.gpu.nodes == 1
      && (m.runtime in MEM_FRACTION_FLAGS ==>
            var flag := MEM_FRACTION_FLAGS[m.runtime];
            && FractionOk(m.args, flag, parse)
            && (forall n | n in m.speculators :: FractionOk(m.args + m.speculators[n].args, flag, parse))
            && FlagValue(m.args, CONTEXT_FLAGS[m.runtime]).Some?)
  }

  predicate SpeculatorOk(name: string, sp: Speculator, load: string) {
    && name != NONE && NameOk(name) && sp.args != []
    && if sp.SeparateHead()
       then RepoOk(sp.hfRepo) && RevisionOk(sp.revision) && sp.license != "" && DraftSourceOk(sp, load)
       else sp.revision == "" && sp.license == "" && sp.s3Prefix == ""
  }

  predicate SpeculatorsOk(m: Manifest) {
    if m.speculators == map[] then m.defaultSpeculator in {"", NONE}
    else
      && (m.defaultSpeculator == NONE || m.defaultSpeculator in m.speculators)
      && m.defaultSpeculator != ""
      && forall n | n in m.speculators :: SpeculatorOk(n, m.speculators[n], m.load)
  }

  /** What SGLang asks of the DSPARK algorithm, on one combination of arguments. */
  predicate DSparkOk(args: seq<string>) {
    FlagValue(args, ALGORITHM_FLAG) == Some(DSPARK) ==>
      && FlagValue(args, DRAFT_PATH_FLAG) == None
      && (FlagValue(args, PP_SIZE_FLAG) == None || FlagValue(args, PP_SIZE_FLAG) == Some("1"))
      && FlagValue(args, DP_ATTENTION_FLAG) == None
  }

  predicate SpeculationOk(m: Manifest) {
    DSparkOk(m.args) && forall n | n in m.speculators :: CombinationOk(m, n)
  }

  predicate SourceOk(m: Manifest) {
    && NameOk(m.name) && RepoOk(m.hfRepo) && RevisionOk(m.revision) && WeightSourceOk(m)
    && m.format != "" && m.license != ""
  }

  predicate EngineOk(m: Manifest) {
    && m.runtime in {SGLANG, VLLM, CUSTOM}
    && (if m.runtime == CUSTOM then m.image != "" else m.image == "" && m.args != [])
    && m.Dialect() in {"openai-chat", "anthropic-messages", "openai-responses"}
    && m.DeployMode() in {K8S, BARE_METAL}
    && (m.DeployMode() == BARE_METAL ==> m.image == "")
  }

  predicate ShapeOk(m: Manifest) {
    && m.load in {NVME_CACHE, S3_STREAM, LOCAL}
    && (m.load == S3_STREAM ==> m.runtime == VLLM)
    && m.gpu.gpuType != "" && m.gpu.count > 0 && m.gpu.nodes > 0
    && m.contextMax > 0
    && (m.hfRepo in REQUIRED_ARGS ==> m.HasArg(REQUIRED_ARGS[m.hfRepo]))
  }

  predicate PromptOk(m: Manifest) {
    m.systemPrompt.Some? ==>
      m.systemPrompt.value.mode in {"default", "prepend", "override"} && !Blank(m.systemPrompt.value.text)
  }

  predicate Valid(m: Manifest, parse: string -> Option<Float>) {
    && SourceOk(m) && EngineOk(m) && ShapeOk(m)
    && GB10Ok(m, parse) && SpeculatorsOk(m) && SpeculationOk(m) && PromptOk(m)
  }

  // ----- Validate: collects every complaint, one pass over the rules -----

  /** Rules in the order they are reported; the message texts are not modelled. */
  datatype Complaint =
    | BadHeader(field: string)
    | BadShape
    | MissingFraction(spec: string) | EmptyFraction(spec: string) | NotANumber(spec: string)
    | FractionTooSmall(spec: string) | FractionTooLarge(spec: string)
    | MissingContext
    | BadDefault | BadSpeculator(name: string)
    | DraftPathStated(spec: string) | BadPPSize(spec: string) | DPAttention(spec: string)
    | BadPrompt

  /** fail(...) unless the rule holds. */
  function Check(errs: seq<Complaint>, ok: bool, complaint: Complaint): (out: seq<Complaint>)
    ensures errs <= out
    ensures out == errs <==> ok
  {
    if ok then errs else errs + [complaint]
  }

  /** The prefix must name a bucket, the repo and the revision. */
  method CheckS3Prefix(prefix: string, repo: string, revision: string) returns (ok: bool)
    ensures ok <==> S3PrefixOk(prefix, repo, revision)
  {
    if !HasPrefix(prefix, "s3://") {
      return false;
    }
    var cut := Cut(prefix[5..], '/');
    if !cut.found || cut.before == "" {
      return false;
    }
    return cut.after == repo + "/" + revision + "/";
  }

  /** Weights that are on the host name no source; all others name exactly one. */
  method CheckWeightSource(m: Manifest) returns (ok: bool)
    ensures ok <==> WeightSourceOk(m)
  {
    if m.load == LOCAL {
      return m.s3Prefix == "";
    }
    ok := CheckS3Prefix(m.s3Prefix, m.hfRepo, m.revision);
  }

  /** A draft head cannot be streamed. */
  method CheckDraftSource(sp: Speculator, load: string) returns (ok: bool)
    ensures ok <==> DraftSourceOk(sp, load)
  {
    if load == LOCAL {
      return sp.s3Prefix == "";
    }
    if load == S3_STREAM {
      return false;
    }
    ok := CheckS3Prefix(sp.s3Prefix, sp.hfRepo, sp.revision);
  }

  method ScanHasArg(m: Manifest, flag: string) returns (found: bool)
    ensures found <==> m.HasArg(flag)
  {
    var cut := Cut(flag, '=');
    for i := 0 to |m.args|
      invariant forall j | 0 <= j < i ::
                  m.args[j] != flag
                  && !(cut.found && m.args[j] == cut.before && j + 1 < |m.args| && m.args[j + 1] == cut.after)
    {
      if m.args[i] == flag {
        return true;
      }
      if cut.found && m.args[i] == cut.before && i + 1 < |m.args| && m.args[i + 1] == cut.after {
        return true;
      }
    }
    return false;
  }

  method CheckFraction(args: seq<string>, flag: string, spec: string, parse: string -> Option<Float>,
                       errs: seq<Complaint>)
    returns (out: seq<Complaint>)
    ensures errs <= out
    ensures out == errs <==> FractionOk(args, flag, parse)
  {
    var v, present := ScanFlag(args, flag);
    if !present {
      return errs + [MissingFraction(spec)];
    }
    if v == "" {
      return errs + [EmptyFraction(spec)];
    }
    var f := parse(v);
    if f.None? {
      return errs + [NotANumber(spec)];
    }
    if AtMost(f.value, 0.0) {
      return errs + [FractionTooSmall(spec)];
    }
    if Above(f.value, 0.80) {
      return errs + [FractionTooLarge(spec)];
    }
    return errs;
  }

  method ValidateGB10(m: Manifest, parse: string -> Option<Float>, errs: seq<Complaint>)
    returns (out: seq<Complaint>)
    ensures errs <= out
    ensures out == errs <==> GB10Ok(m, parse)
  {
    out := errs;
    if m.gpu.gpuType != GB10 {
      return;
    }
    out := Check(out, m.gpu.count == 1 && m.gpu.nodes == 1, BadShape);
    if m.runtime !in MEM_FRACTION_FLAGS {
      return;
    }
    var flag := MEM_FRACTION_FLAGS[m.runtime];
    out := CheckFraction(m.args, flag, "", parse, out);
    ghost var before := out;
    var rest := m.speculators.Keys;
    while rest != {}
      invariant rest <= m.speculators.Keys
      invariant before <= out
      invariant out == before <==> forall n | n in m.speculators.Keys - rest ::
                                     FractionOk(m.args + m.speculators[n].args, flag, parse)
    {
      var n :| n in rest;
      out := CheckFraction(m.args + m.speculators[n].args, flag, n, parse, out);
      assert m.speculators.Keys - (rest - {n}) == (m.speculators.Keys - rest) + {n};
      rest := rest - {n};
    }
    var _, present := ScanFlag(m.args, CONTEXT_FLAGS[m.runtime]);
    out := Check(out, present, MissingContext);
  }

  method ValidateSpeculator(name: string, sp: Speculator, load: string, errs: seq<Complaint>)
    returns (out: seq<Complaint>)
    ensures errs <= out
    ensures out == errs <==> SpeculatorOk(name, sp, load)
  {
    out := Check(errs, name != NONE && NameOk(name), BadSpeculator(name));
    out := Check(out, sp.args != [], BadSpeculator(name));
    if !sp.SeparateHead() {
      out := Check(out, sp.revision == "" && sp.license == "" && sp.s3Prefix == "", BadSpeculator(name));
      return;
    }
    out := Check(out, RepoOk(sp.hfRepo), BadSpeculator(name));
    out := Check(out, RevisionOk(sp.revision), BadSpeculator(name));
    out := Check(out, sp.license != "", BadSpeculator(name));
    var source := CheckDraftSource(sp, load);
    out := Check(out, source, BadSpeculator(name));
  }

  method ValidateSpeculators(m: Manifest, errs: seq<Complaint>) returns (out: seq<Complaint>)
    ensures errs <= out
    ensures out == errs <==> SpeculatorsOk(m)
  {
    var d := m.defaultSpeculator;
    if |m.speculators| == 0 {
      out := Check(errs, d == "" || d == NONE, BadDefault);
      return;
    }
    assert m.speculators != map[];
    out := Check(errs, d != "" && (d == NONE || d in m.speculators), BadDefault);
    ghost var before := out;
    var rest := m.speculators.Keys;
    while rest != {}
      invariant rest <= m.speculators.Keys
      invariant before <= out
      invariant out == before <==> forall n | n in m.speculators.Keys - rest ::
                                     SpeculatorOk(n, m.speculators[n], m.load)
    {
      var name :| name in rest;
      out := ValidateSpeculator(name, m.speculators[name], m.load, out);
      assert m.speculators.Keys - (rest - {name}) == (m.speculators.Keys - rest) + {name};
      rest := rest - {name};
    }
  }

  method ValidateDSpark(args: seq<string>, spec: string, errs: seq<Complaint>) returns (out: seq<Complaint>)
    ensures errs <= out
    ensures out == errs <==> DSparkOk(args)
  {
    out := errs;
    var algorithm, ok := ScanFlag(args, ALGORITHM_FLAG);
    if !ok || algorithm != DSPARK {
      return;
    }
    var _, path := ScanFlag(args, DRAFT_PATH_FLAG);
    out := Check(out, !path, DraftPathStated(spec));
    var pp, ppStated := ScanFlag(args, PP_SIZE_FLAG);
    out := Check(out, !ppStated || pp == "1", BadPPSize(spec));
    var _, dp := ScanFlag(args, DP_ATTENTION_FLAG);
    out := Check(out, !dp, DPAttention(spec));
  }

  /** One speculator's combination; the bare arguments are the combination with no speculator. */
  predicate CombinationOk(m: Manifest, name: string)
    requires name in m.speculators
  {
    DSparkOk(m.args + m.speculators[name].args)
  }

  ghost predicate AllOk(names: set<string>, ok: string -> bool) { forall n | n in names :: ok(n) }

  lemma OneMoreName(names: set<string>, rest: set<string>, n: string, ok: string -> bool)
    requires n in rest && rest <= names
    ensures AllOk(names - (rest - {n}), ok) <==> AllOk(names - rest, ok) && ok(n)
  {
    assert names - (rest - {n}) == (names - rest) + {n};
  }

  method ValidateCombinations(m: Manifest, errs: seq<Complaint>, ghost ok: string -> bool) returns (out: seq<Complaint>)
    requires forall n | n in m.speculators :: ok(n) <==> CombinationOk(m, n)
    ensures errs <= out
    ensures out == errs <==> AllOk(m.speculators.Keys, ok)
  {
    out := errs;
    var rest := m.speculators.Keys;
    while rest != {}
      invariant rest <= m.speculators.Keys
      invariant errs <= out
      invariant out == errs <==> AllOk(m.speculators.Keys - rest, ok)
    {
      var n :| n in rest;
      out := ValidateDSpark(m.args + m.speculators[n].args, n, out);
      assert ok(n) <==> CombinationOk(m, n);
      OneMoreName(m.speculators.Keys, rest, n, ok);
      rest := rest - {n};
    }
    assert m.speculators.Keys - rest == m.speculators.Keys;
  }

  method ValidateSpeculation(m: Manifest, errs: seq<Complaint>) returns (out: seq<Complaint>)
    ensures errs <= out
    ensures out == errs <==> SpeculationOk(m)
  {
    out := ValidateDSpark(m.args, "", errs);
    ghost var ok := n => n in m.speculators && CombinationOk(m, n);
    out := ValidateCombinations(m, out, ok);
  }

  method ValidateSource(m: Manifest, errs: seq<Complaint>) returns (out: seq<Complaint>)
    ensures errs <= out
    ensures out == errs <==> SourceOk(m)
  {
    out := Check(errs, NameOk(m.name), BadHeader("name"));
    out := Check(out, RepoOk(m.hfRepo), BadHeader("hf_repo"));
    out := Check(out, RevisionOk(m.revision), BadHeader("revision"));
    var source := CheckWeightSource(m);
    out := Check(out, source, BadHeader("s3_prefix"));
    out := Check(out, m.format != "", BadHeader("format"));
    out := Check(out, m.license != "", BadHeader("license"));
  }

  method ValidateEngine(m: Manifest, errs: seq<Complaint>) returns (out: seq<Complaint>)
    ensures errs <= out
    ensures out == errs <==> EngineOk(m)
  {
    if m.runtime == SGLANG || m.runtime == VLLM {
      out := Check(errs, m.image == "", BadHeader("image"));
      out := Check(out, m.args != [], BadHeader("args"));
    } else if m.runtime == CUSTOM {
      out := Check(errs, m.image != "", BadHeader("image"));
    } else {
      out := Check(errs, false, BadHeader("runtime"));
    }
    out := Check(out, m.Dialect() in {"openai-chat", "anthropic-messages", "openai-responses"},
                 BadHeader("engine_dialect"));
    if m.DeployMode() == BARE_METAL {
      out := Check(out, m.image == "", BadHeader("image"));
    } else {
      out := Check(out, m.DeployMode() == K8S, BadHeader("deploy"));
    }
  }

  method ValidateShape(m: Manifest, errs: seq<Complaint>) returns (out: seq<Complaint>)
    ensures errs <= out
    ensures out == errs <==> ShapeOk(m)
  {
    if m.load == S3_STREAM {
      out := Check(errs, m.runtime == VLLM, BadHeader("load"));
    } else {
      out := Check(errs, m.load == NVME_CACHE || m.load == LOCAL, BadHeader("load"));
    }
    out := Check(out, m.gpu.gpuType != "" && m.gpu.count > 0 && m.gpu.nodes > 0, BadHeader("gpu"));
    out := Check(out, m.contextMax > 0, BadHeader("context_max"));
    if m.hfRepo in REQUIRED_ARGS {
      var stated := ScanHasArg(m, REQUIRED_ARGS[m.hfRepo]);
      out := Check(out, stated, BadHeader("args"));
    }
  }

  /** No complaint exactly when every rule holds, whatever order the speculators are visited in. */
  method Validate(m: Manifest, parse: string -> Option<Float>) returns (errs: seq<Complaint>)
    ensures errs == [] <==> Valid(m, parse)
  {
    errs := ValidateSource(m, []);
    errs := ValidateEngine(m, errs);
    errs := ValidateShape(m, errs);
    errs := ValidateGB10(m, parse, errs);
    errs := ValidateSpeculators(m, errs);
    errs := ValidateSpeculation(m, errs);
    if m.systemPrompt.Some? {
      var sp := m.systemPrompt.value;
      errs := Check(errs, sp.mode in {"default", "prepend", "override"}, BadPrompt);
      errs := Check(errs, !Blank(sp.text), BadPrompt);
    }
  }

  // ----- the operator's choice of speculator -----

  datatype Speculation = Speculation(name: string, speculator: Speculator)

  datatype ResolveError = NoneOffered | NotOffered

  function ResolveSpeculator(m: Manifest, choice: string): Result<Speculation, ResolveError> {
    var name := if choice != "" then choice
                else if m.defaultSpeculator != "" then m.defaultSpeculator else NONE;
    if name == NONE then Ok(Speculation(NONE, NO_SPECULATOR))
    else if name in m.speculators then Ok(Speculation(name, m.speculators[name]))
    else if m.speculators == map[] then Err(NoneOffered)
    else Err(NotOffered)
  }

  /** On a valid manifest the default always resolves, and only declared names or `none` do. */
  lemma ResolvesExactly(m: Manifest, choice: string)
    requires SpeculatorsOk(m)
    ensures ResolveSpeculator(m, choice).Ok? <==> choice in m.speculators.Keys + {"", NONE}
    ensures choice in m.speculators ==>
              ResolveSpeculator(m, choice) == Ok(Speculation(choice, m.speculators[choice]))
    ensures ResolveSpeculator(m, NONE) == Ok(Speculation(NONE, NO_SPECULATOR))
    ensures ResolveSpeculator(m, "") ==
            if m.defaultSpeculator in m.speculators
            then Ok(Speculation(m.defaultSpeculator, m.speculators[m.defaultSpeculator]))
            else Ok(Speculation(NONE, NO_SPECULATOR))
  {
    assert !NameOk("");
  }

  // ----- what two of the rules mean -----

  const S3: string := ['s', '3', ':', '/', '/']

  lemma S3Scheme()
    ensures "s3://" == S3
  {
  }

  /** A prefix is accepted exactly when it is the bucket, the repo and the revision, in this order. */
  lemma S3PrefixExactly(prefix: string, repo: string, revision: string)
    ensures S3PrefixOk(prefix, repo, revision) <==>
            exists bucket :: bucket != "" && '/' !in bucket
                             && prefix == S3 + (bucket + ['/'] + (repo + ['/'] + revision + ['/']))
  {
    S3Scheme();
    var key := repo + ['/'] + revision + ['/'];
    assert repo + "/" + revision + "/" == key;
    if S3PrefixOk(prefix, repo, revision) {
      var bucket := Cut(prefix[5..], '/').before;
      CutParts(prefix[5..], '/');
      assert prefix == S3 + prefix[5..];
      assert prefix == S3 + (bucket + ['/'] + key);
    }
    forall bucket: string | bucket != "" && '/' !in bucket && prefix == S3 + (bucket + ['/'] + key)
      ensures S3PrefixOk(prefix, repo, revision)
    {
      assert prefix[5..] == bucket + ['/'] + key;
      CutAt(bucket, '/', key);
    }
  }

  /** An argument that is in force is found: whatever value the engine obeys, HasArg sees. */
  lemma {:induction false} EffectiveIsPresent(args: seq<string>, flag: string, value: string)
    requires FlagValue(args, flag) == Some(value) && value != "" && '=' !in flag
    ensures exists i | 0 <= i < |args| ::
              args[i] == flag + ['='] + value || (args[i] == flag && i + 1 < |args| && args[i + 1] == value)
  {
    if FlagValue(args[1..], flag).Some? {
      EffectiveIsPresent(args[1..], flag, value);
      var i :| 0 <= i < |args| - 1
               && (args[1..][i] == flag + ['='] + value
                   || (args[1..][i] == flag && i + 1 < |args| - 1 && args[1..][i + 1] == value));
      assert args[1 + i] == args[1..][i];
      assert i + 1 < |args| - 1 ==> args[1 + i + 1] == args[1..][i + 1];
    } else {
      CutParts(args[0], '=');
      assert args[0] == flag + ['='] + value || (args[0] == flag && |args| > 1 && args[1] == value);
    }
  }

  /** So a required argument whose value is in force passes the rule, in either spelling. */
  lemma RequiredInForceIsPresent(m: Manifest, flag: string, value: string)
    requires FlagValue(m.args, flag) == Some(value) && value != "" && '=' !in flag
    ensures m.HasArg(flag + ['='] + value)
  {
    EffectiveIsPresent(m.args, flag, value);
    CutAt(flag, '=', value);
    var i :| 0 <= i < |m.args|
             && (m.args[i] == flag + ['='] + value
                 || (m.args[i] == flag && i + 1 < |m.args| && m.args[i + 1] == value));
  }

  /** The converse fails: a required argument that a later one overrides passes the rule just the same. */
  lemma OverriddenIsPresentToo(m: Manifest, flag: string, value: string, other: string)
    requires '=' !in flag && value != other && m.args == [flag + ['='] + value, flag + ['='] + other]
    ensures m.HasArg(flag + ['='] + value) && FlagValue(m.args, flag) == Some(other)
  {
    CutAt(flag, '=', value);
    CutAt(flag, '=', other);
    assert m.args[0] == flag + ['='] + value;
    assert m.args[1..] == [flag + ['='] + other];
    assert FlagValue([flag + ['='] + other], flag) == Some(other);
  }
}

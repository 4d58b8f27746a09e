# Fornax: verified models

fornax freezes model weights into a checksummed store, stages them in a node cache shared by any number of
processes, checks a manifest against the engine's rules and the memory of the host, and starts an inference
engine behind a small shim. This project models those parts and proves what they promise. Nothing here is
executed; `dafny verify dfyconfig.toml` checks all of it.

| file | what it models |
|---|---|
| `Files.dfy`, `Store.dfy` | file trees, what it means for a file to match its entry, and the directory-rooted object store with its temporaries, chunked copies and renames |
| `Mirror.dfy`, `Hub.dfy` | pull, push, freeze and verify; the Hub's paginated listing, its Link header and the mirroring policy |
| `PushProtocol.dfy`, `PushProgress.dfy` | any number of concurrent pushes into one store as a step system, chunk by chunk, with crashes anywhere; that a push gets done, and what it leaves |
| `Prep.dfy` | staging one artifact in a cache, and checking one in place |
| `CacheProtocol.dfy`, `CacheProgress.dfy`, `Serve.dfy` | any number of `fornax serve` processes on one cache as a step system, the readiness probe of each, and that a server gets to it |
| `Flags.dfy`, `Manifest.dfy`, `Engine.dfy`, `Budget.dfy` | reading a flag off an argument list, the rules of a manifest, the engine's command line, the unified-memory check |
| `Bench.dfy`, `BenchPool.dfy` | the aggregation of a benchmark run, and its worker pool as a step system |
| `Harness.dfy`, `Unit.dfy` | shell exports with the POSIX reader that undoes them; the systemd unit with the check that reads it |
| `Shim.dfy` | the system-prompt policy and the loss counters |
| `Text.dfy`, `Wrappers.dfy` | the string functions the rest needs, `Option` and `Result` |

A step system is a `State`, a `Step` per observable action, `Enabled` and `Do`; `Run` plays any list of steps, so
a lemma about every `Run` is about every interleaving, and a crash is a step like any other. Where the source
changes something in place the model has a method: `LocalStore` is a class whose ghost `history` records every
content the disk has had, so its contracts also say what a crash can leave behind.

What is a parameter: SHA-256 (`Hash`, about which nothing is assumed, not even that it is injective), the JSON
codec (`Codec`, assumed only to read back what it wrote), `strconv.ParseFloat` (`parse`, any function that may
return NaN or an infinity), URL resolution, the Hub's answers, which call of the file system fails, the clock.

## What turned out not to hold

* `checkFraction` (internal/manifest/manifest.go:477-500) compares with `<=` and `>`, and both are false of NaN. The ceiling of
  0.80 holds on a start exactly when the effective value is not NaN (`CeilingHoldsOnEveryStart`), and a valid
  manifest can say `NaN` (`NaNPassesTheCeiling`).
* `engineFraction` (internal/runtime/preflight.go:94-104) reads the manifest's own arguments, the engine also gets the
  speculator's. The value checked is the value used exactly when the speculator leaves it alone
  (`CheckedValueIsUsedExactly`); otherwise the check protects every int64 pool and checkpoint exactly when the
  engine's share never exceeds the checked one (`OverrideIsSafeExactly`). That holds for every value that is not
  larger, and for no larger one whose difference is worth a byte on the largest pool (`NeverClaimsMoreExactly`);
  a smaller raise can go unnoticed (`SliverIsInvisible`). A valid start that escapes the check is given
  (`OverrideEscapesTheCheck`).
* The sum the memory check forms is an int64: a fraction passes exactly when it fits or the sum wraps around
  (`AcceptedExactly`), and a valid manifest and host pass by wrapping (`WrapEscapesTheCheck`).
* `nextPageURL` (internal/mirror/hf.go:125-127) looks for `rel="next"` or `rel=next` in the text of the parameters. It takes a
  link for the next one exactly when the relation is `next` or contains `rel=next`, so it overlooks
  `rel="prev next"` (`SecondTypeIsOverlooked`) and follows an extension relation such as `rel="x:?rel=next"`
  (`ExtensionIsFollowed`), both legal under RFC 8288. A set of relations is read right exactly when the two agree on
  each (`ReadRightExactly`), as they do on every single type without `=` (`SingleTypeIsReadRight`).
* The scan of `flagValue` agrees with a consuming parser exactly for names that start with a dash or contain `=`
  (`ReadersAgreeExactly`).
* Freezing a tree that itself lists `_manifest.json` overwrites that file, and the policy lets the name through
  (`ManifestNameIsAllowed`); the frozen directory verifies exactly when no entry has that name or the written
  manifest happens to match it (`FrozenDirectoryVerifies`), and for every encoder there is a tree for which it does
  not (`NamesakeIsLost`).
* Staging succeeds with two entries that ask different things of one path, and then not every listed file matches;
  after a success every file matches exactly when no entries contradict each other (`PrepareArtifact`,
  `ContradictionIsStaged`). The manifest of a store that verifies has no such entries (`MatchingIsConsistent`).
* `gpu.type` is free text and is printed into the unit. If a later line of it reads `ExecStart=`, that line is the
  command `validateUnit` judges, otherwise the printed one is (`PrintedUnitIsAccepted`); a valid bare-metal manifest
  whose own unit is refused is given (`InjectedCommandIsRefused`), and a type on one line injects nothing
  (`OneLineTypeInjectsNothing`).
* A directory that was handed out stays verified exactly when there is the lock and files can be read
  (`GuaranteedExactly`). Without the lock two processes can lose a returned file (`LockIsNeeded`). With it,
  `ensureFile` (internal/runtime/prep.go:134) drops the error of its first look at a file and takes the file for
  missing, so a server that cannot read a verified file truncates it while another answers that it is ready
  (`ReadErrorsAreFatal`).
* A required argument is found by presence (internal/manifest/manifest.go:732-743): one that is in force always passes
  (`RequiredInForceIsPresent`), and so does one that a later argument overrides (`OverriddenIsPresentToo`).
* Applying the system prompt twice is the same as once exactly when the mode is not `prepend`
  (`TwiceIsOnceExactly`).

## Model

| member | source | states |
|---|---|---|
| Flags.ScanFlag | internal/manifest/manifest.go:710-729 | the one-pass loop returns the last occurrence of the flag, in either spelling, and whether there is one |
| Flags.ScanIsConsumingParse | internal/manifest/manifest.go:710-729 | for every argument list and every flag that starts with a dash, the non-consuming scan equals a left-to-right consuming parser followed by last-wins lookup |
| Flags.ReadersAgreeExactly | internal/manifest/manifest.go:710-729 | the two readers agree on all lists exactly for flags that start with a dash or contain `=` |
| Flags.FlagConcat | internal/manifest/manifest.go:710-729 | exact law for a flag in a ++ b, the trailing bare flag that takes b's first token as its value included |
| Flags.FlagIgnoresTail | internal/runtime/serve.go:113-116 | a tail of dash tokens that spell other flags does not change what a flag reads |
| Flags.CountZeroIffAbsent | internal/manifest/manifest.go:710-729 | a flag is spelled zero times exactly when the scan does not find it |
| Manifest.CheckFraction | internal/manifest/manifest.go:477-500 | complains exactly when the fraction is absent, empty, unparsable, at most 0 or above 0.80 under Go's comparisons |
| Manifest.ValidateGB10 | internal/manifest/manifest.go:438-473 | silent exactly when a gb10 manifest is one GPU on one node, bounds the context, and keeps the ceiling alone and with every speculator |
| Manifest.ValidateSpeculator | internal/manifest/manifest.go:529-566 | silent exactly when one named speculator states its head completely or not at all, has arguments, and is not called none |
| Manifest.ValidateSpeculators | internal/manifest/manifest.go:511-567 | silent exactly when the default is offered and every speculator is sound |
| Manifest.ValidateDSpark | internal/manifest/manifest.go:631-653 | silent exactly when arguments that run DSPARK state no draft path, at most one pipeline stage and no DP attention |
| Manifest.ValidateSpeculation | internal/manifest/manifest.go:607-613 | silent exactly when the DSPARK rules hold for the bare arguments and for every combination |
| Manifest.ValidateSource | internal/manifest/manifest.go:300-317 | silent exactly when name, repo, revision, weight source, format and license are well formed |
| Manifest.ValidateEngine | internal/manifest/manifest.go:319-351 | silent exactly when runtime, image, arguments, dialect and deploy mode go together |
| Manifest.ValidateShape | internal/manifest/manifest.go:353-374 | silent exactly when load, GPU shape, context and required arguments are sound |
| Manifest.Validate | internal/manifest/manifest.go:296-393 | no complaint exactly when every rule holds, in whatever order speculators are visited |
| Manifest.ResolvesExactly | internal/manifest/manifest.go:678-694 | on a manifest whose speculators are sound the empty choice, none and every declared name resolve, and nothing else does; the empty choice is the default speculator, or none where there is no other |
| Manifest.CheckS3Prefix | internal/manifest/manifest.go:416-430 | accepts exactly a scheme, a bucket, and the repo and revision as key |
| Manifest.CheckWeightSource | internal/manifest/manifest.go:404-412 | accepts exactly no source for local weights and a pinned prefix for all others |
| Manifest.CheckDraftSource | internal/manifest/manifest.go:575-597 | the same for a draft head, which cannot be streamed |
| Manifest.ScanHasArg | internal/manifest/manifest.go:732-743 | the loop finds an argument in either spelling exactly when it is there |
| Manifest.S3PrefixExactly | internal/manifest/manifest.go:416-430 | accepted prefixes are exactly s3://bucket/repo/revision/ with a bucket of one part |
| Manifest.RequiredInForceIsPresent | internal/manifest/manifest.go:732-743 | a required argument whose value is in force passes the rule |
| Manifest.OverriddenIsPresentToo | internal/manifest/manifest.go:732-743 | and one that a later argument overrides passes it too |
| Engine.ComposedFlag | internal/runtime/serve.go:106-118 | a flag the launcher does not spell reads, and is counted, on the whole line as in the arguments, the staged draft path aside |
| Engine.LauncherSpellsNoOther | internal/runtime/serve.go:88-106 | model path, port and model name in the launcher are never read as a flag of the manifest |
| Engine.LauncherReads | internal/runtime/serve.go:91-106 | read flag by flag, the launcher gives the model to sglang, host, port and the served name to both engines, and the streamer exactly to a streaming vllm |
| Engine.LaunchedFlag | internal/runtime/serve.go:88-118 | on every start any flag but the draft path reads as the arguments state it last, and otherwise as the launcher says |
| Engine.LaunchedProgram | internal/runtime/serve.go:91-97 | the line starts the sglang module, or vllm serve and the model |
| Text.DecimalReadsBack | internal/runtime/serve.go:89 | a printed number is read back, and carries no leading zero |
| Engine.CeilingHoldsOnEveryStart | internal/runtime/serve.go:88-118 | for every valid gb10 manifest, accepted choice, path, port and draft path the fraction on the whole line is present and parses, and is in (0, 0.80] exactly when it is not NaN |
| Engine.NaNPassesTheCeiling | internal/manifest/manifest.go:489-499 | a valid manifest whose engine starts with the fraction NaN |
| Engine.DSparkHoldsOnEveryStart | internal/runtime/serve.go:88-118 | every start that runs DSPARK has pp-size absent or 1, no DP attention, and one draft path, the staged one, exactly when the head is a separate repo |
| Budget.DirBytes | internal/runtime/preflight.go:139-156 | the walk totals the regular files and fails exactly when some entry cannot be read |
| Budget.AcceptedExactly | internal/runtime/preflight.go:69-80 | a fraction passes exactly when share + checkpoint + 8 GiB fits the pool or the int64 sum wraps around |
| Budget.SmallerFractionFits | internal/runtime/preflight.go:69-80 | what fits keeps fitting for every smaller fraction |
| Budget.SuggestionIsTight | internal/runtime/preflight.go:76-91 | the suggested hundredth fits, and one hundredth more fits only when it meets the bound with equality |
| Budget.SuggestionIsAccepted | internal/runtime/preflight.go:162-167 | the fraction printed on refusal, put back, passes the check that printed it |
| Budget.RefusalSuggestsTheLimit | internal/runtime/preflight.go:80-91 | whatever manifest was refused, one that states the printed hundredths passes the same check on the same pool and checkpoint, and one that states a hundredth more is refused unless its share meets the bound exactly, int64 wrap-around aside |
| Budget.SkippedChecksPass | internal/runtime/preflight.go:56-72 | another GPU class, an unmeasured pool or checkpoint, and a fraction that is absent, unparsable or not positive are never refused |
| Budget.CheckedValueIsUsedExactly | internal/runtime/preflight.go:94-104 | the value the engine obeys is the value that was checked exactly when the speculator does not state another |
| Budget.PreflightProtectsTheHost | internal/runtime/preflight.go:55-91 | a valid gb10 start whose speculator leaves the fraction alone passes the check exactly when the engine's effective share fits, NaN and int64 overflow aside |
| Budget.OverrideIsSafeExactly | internal/runtime/preflight.go:94-104 | on every valid gb10 start, NaN aside, the check made on the stated fraction protects every int64 pool and checkpoint exactly when the engine's share never exceeds the checked one |
| Budget.NeverClaimsMoreIfLower | internal/runtime/preflight.go:74 | a fraction that is not larger never claims more |
| Budget.NeverClaimsMoreExactly | internal/runtime/preflight.go:74 | and only such a one, once the difference is worth a byte on the largest pool |
| Budget.SliverIsInvisible | internal/runtime/preflight.go:74 | a raise worth less can claim the same on every pool |
| Budget.WrapEscapesTheCheck | internal/runtime/preflight.go:74-80 | a valid manifest and an int64 pool and checkpoint that pass by wrapping and do not fit |
| Budget.OverrideEscapesTheCheck | internal/runtime/preflight.go:94-104 | a valid manifest and host that pass the check although the launched engine does not fit |
| Store.LocalStore.FreshTemp | internal/mirror/store.go:54-57 | a temporary's name is unused, hidden from List, and in the directory of its target |
| Store.DirAndBase | internal/mirror/store.go:56 | a name is its directory and a base without slashes |
| Store.LocalStore.Put | internal/mirror/store.go:46-69 | at every point, crash and failure included, everything but the put's own temporary is as before, or as before with the whole new object; success exactly when no call failed |
| Store.LocalStore.Get | internal/mirror/store.go:71-91 | success delivers the whole object; at every point only the target differs and it holds a prefix of the object, or what a failed flush left |
| Store.LocalStore.List | internal/mirror/store.go:93-110 | every object once, temporaries left out |
| Store.LocalStore.Size | internal/mirror/store.go:112-121 | the length of the object, and -1 exactly for one that is not there |
| Store.PutIsAtomicToReaders | internal/mirror/store.go:93-110 | through List every point of a put shows the old objects or the old objects with the new one |
| Hub.NextPageURL | internal/mirror/hf.go:120-143 | the loop returns the first next link's target on the configured host, or its error, or nothing |
| Hub.NextPageReadsWhatWasPrinted | internal/mirror/hf.go:120-143 | from any Link header printed from same-host targets free of commas and closing brackets, whatever the relations, the target of the first link taken for next is read, and that is the next link where taken and next coincide |
| Hub.BareNextExactly | internal/mirror/hf.go:126-127 | the unquoted pattern is found in printed parameters exactly when the relation contains it |
| Hub.QuotedNextExactly | internal/mirror/hf.go:126-127 | the quoted pattern is found in printed parameters exactly when the whole relation is next |
| Hub.ReadRightExactly | internal/mirror/hf.go:120-143 | every header over a set of relations is read right exactly when, on each quotable one, the reader's test agrees with next being among the space-separated types |
| Hub.SingleTypeIsReadRight | internal/mirror/hf.go:126-127 | a single relation type without = is taken for next exactly when it is next |
| Hub.SecondTypeIsOverlooked | internal/mirror/hf.go:126-127 | next after another type is a next link and is overlooked |
| Hub.ExtensionIsFollowed | internal/mirror/hf.go:126-127 | an extension relation that contains the pattern is not a next link and is followed |
| Hub.GetPaged | internal/mirror/hf.go:67-96 | ends on every link graph; returns all pages in order exactly when the listing ends within 1000 pages, otherwise an error and never a part of it |
| Hub.CompleteIsUnique | internal/mirror/hf.go:74-96 | a start address has at most one complete listing |
| Hub.PagesStayOnHost | internal/mirror/hf.go:116-143 | no page after the first is asked for anywhere but on the configured host |
| Hub.CyclesNeverComplete | internal/mirror/hf.go:67-73 | a listing that comes back to an address it has visited has no end |
| Hub.TreeOf | internal/mirror/hf.go:178-199 | the file entries in order; an empty tree is an error |
| Hub.PublishedHash | internal/mirror/hf.go:190-192 | the hash kept for a file is the one its LFS object id publishes, with or without the algorithm in front |
| Hub.AllowedPaths | internal/mirror/hf.go:238-247 | a policy on the files is the same policy on the listing's file entries |
| Hub.CheckPolicy | internal/mirror/hf.go:238-247 | accepts exactly when every path is allowed |
| Hub.PolicyFailsClosed | internal/mirror/hf.go:200-247 | a file with an extension may be mirrored exactly when the extension is listed, in any case, whatever its directory and stem |
| Text.LowerFolds | internal/mirror/hf.go:125-240 | folding leaves no capital of the alphabet and turns each into its own letter |
| Mirror.VerifyLocal | internal/mirror/mirror.go:97-118 | accepts exactly when every published file is there with its size and its hash where one is published, and then records them in order |
| Mirror.MatchingIsConsistent | internal/mirror/mirror.go:243-267 | entries that all match one tree do not contradict each other |
| Mirror.RecordsMatch | internal/mirror/mirror.go:97-118 | the recorded entries match the directory, do not contradict each other, and repeat the published sizes and hashes |
| Mirror.RecordsMirror | internal/mirror/mirror.go:97-118 | the recorded entries are the listing's files, all of them, in order, with path, size and every published hash |
| Mirror.Pull | internal/mirror/mirror.go:67-92 | success means the directory agrees with the complete, allowed listing and the result records its files with every published hash, and it succeeds whenever the directory or the download agrees; nothing is downloaded exactly when the directory already agreed |
| Mirror.PushedFilesMatch | internal/mirror/mirror.go:125-150 | pushing verified files leaves every listed path matching and every other object untouched |
| Mirror.SkippingRefinesUploading | internal/mirror/mirror.go:127-148 | skipping what is there leaves every path with the size and hash uploading everything would leave |
| Mirror.PushOfAMatchingStore | internal/mirror/mirror.go:127-148 | a store that matches is not written at all |
| Mirror.WriteManifest | internal/mirror/mirror.go:190-218 | puts exactly the encoded manifest, or leaves every visible object alone |
| Mirror.Push | internal/mirror/mirror.go:125-150 | success leaves the pushed files and a manifest with their total, failure what pushing some first entries leaves and no new manifest; a matching store takes no upload; without failures a verified directory is pushed |
| Mirror.PushedStoreVerifies | internal/mirror/mirror.go:243-267 | Verify accepts the store a push of verified files leaves, and reads that manifest |
| Mirror.Verify | internal/mirror/mirror.go:243-267 | accepts exactly when there is a readable manifest and every file it lists matches |
| Mirror.PublishedTree | internal/mirror/hf.go:178-199 | the files of the complete listing, exactly when there is one within the page limit that is not empty, never of a part of it |
| Mirror.Freeze | internal/mirror/mirror.go:160-185 | success means the whole published listing was read, allowed and agreed with, the manifest records exactly its files with every published hash, and only the manifest was written; it succeeds on every such tree unless writing fails; failure changes no visible file |
| Mirror.FrozenDirectoryVerifies | internal/mirror/mirror.go:160-218 | a frozen directory verifies exactly when no entry named _manifest.json was overwritten by something else |
| Mirror.NamesakeIsLost | internal/mirror/mirror.go:160-218 | for every encoder a directory that agrees with an allowed tree, and that Verify refuses once frozen |
| Mirror.ManifestNameIsAllowed | internal/mirror/hf.go:205-247 | the policy allows an upstream file called _manifest.json |
| PushProtocol.StepIsAtomic | internal/mirror/store.go:46-69 | in any interleaving a step leaves the visible objects alone or puts one whole object in place |
| PushProtocol.StepRefinesAtomicPut | internal/mirror/store.go:46-110 | the chunk-level store refines, through List, a store with atomic puts |
| PushProtocol.StepKeepsMatch | internal/mirror/mirror.go:125-150 | no step of any pusher undoes a match |
| PushProtocol.StepKeepsInv | internal/mirror/mirror.go:125-150 | the invariant of every reachable state, under every step of every pusher |
| PushProtocol.ManifestImpliesComplete | internal/mirror/mirror.go:186-218 | in every reachable state of any number of concurrent, crashed and retried pushes a manifest means every listed file matches, Verify accepts, it names the repo and revision, and its total is the sum of the sizes |
| PushProtocol.MatchIsForever | internal/mirror/mirror.go:125-150 | a listed object that matches keeps matching for the rest of every run |
| PushProtocol.ReturnedPushVerifiesForever | internal/mirror/mirror.go:243-267 | once any push has returned, Verify succeeds at every later time |
| PushProgress.NextStep | internal/mirror/mirror.go:125-150 | in every state the invariant allows, a live push has a step of its own that does not give up |
| PushProgress.StepGoesOn | internal/mirror/mirror.go:125-150 | such a step never ends in an error, whoever else is running, and lowers what is left to do |
| PushProgress.PushesCanBreakOff | internal/mirror/store.go:46-69 | a live push can be cut off in any state, and a copy can fail at any byte |
| PushProgress.EveryPushCanReturn | internal/mirror/mirror.go:125-150 | from every reachable state a live push left to itself returns, and the store then verifies |
| PushProgress.SoloPush | internal/mirror/mirror.go:125-150 | a push that ran alone leaves the visible objects of the sequential algorithm, with its own manifest once it has returned |
| PushProgress.PushGetsDone | internal/mirror/mirror.go:125-150 | a push started in any reachable state can return, with exactly that store |
| Prep.LockDir | internal/runtime/prep.go:176-191 | creates the lock file if needed and leaves every other file alone |
| Prep.EnsureFile | internal/runtime/prep.go:132-149 | fetches exactly a file that does not match or cannot be read, success means it matches, and at every point only that file differs |
| Prep.PrepareArtifact | internal/runtime/prep.go:61-86 | after success every listed file matches exactly when no entries contradict each other; while files can be read, the result is each entry left alone or fetched in turn, at every point a file that matched is kept byte for byte, and a warm cache fetches nothing; without faults a store Verify accepts converges from any cache |
| Prep.StageFiles | internal/runtime/prep.go:79-83 | the loop over the entries, with the same guarantees under the lock |
| Prep.StagedWhenMatching | internal/runtime/prep.go:132-137 | a cache in which everything matches is left as it is |
| Prep.ContradictionIsStaged | internal/runtime/prep.go:79-83 | two entries for one path that each match in turn, the first no longer at the end |
| Prep.VerifyInPlace | internal/runtime/prep.go:97-128 | accepts only a present directory that verifies, and every one when its files can be read, and writes at most the lock file |
| Prep.FreezeVerifyServe | internal/mirror/mirror.go:160-218 | after a freeze Verify accepts exactly when no listed file was overwritten by something else, load: local then accepts with that manifest, and no weight file is written |
| Prep.PrepareTwice | internal/runtime/prep.go:61-86 | from any cache the first uncontended run converges and the second fetches nothing |
| Prep.PreparedPaths | internal/runtime/prep.go:32-57 | the model path is never a flag, it is the prefix itself for streamed weights, and there is a draft path exactly when the head is a separate repo |
| Prep.PreparedPathsRead | internal/runtime/prep.go:62 | the prepared paths read back as the root, the two parts of the repo, and the revision |
| Prep.DirectoriesDoNotOverlap | internal/runtime/prep.go:62 | under one root a file of one artifact is never a file of another |
| CacheProtocol.OneInside | internal/runtime/prep.go:176-191 | in every reachable state two processes are never inside one directory, also while reads fail |
| CacheProtocol.SettledStays | internal/runtime/prep.go:132-149 | a directory that matches and nobody is writing stays so under every step of everybody |
| CacheProtocol.StepKeepsInv | internal/runtime/prep.go:61-191 | the invariant of every reachable state, under every step of every process |
| CacheProtocol.LocksAreLive | internal/runtime/prep.go:174-191 | in every reachable state, also while reads fail, every lock is held by a live process inside, so a crash never blocks the cache and a process can enter exactly when nobody is inside |
| CacheProtocol.MatchingFileIsNeverWrittenAgain | internal/runtime/prep.go:132-172 | while files can be read, a file that matches outside anybody's fetch is never written again, to the byte, in any continuation |
| CacheProtocol.ReturnedDirectoryIsReadyForever | internal/runtime/prep.go:61-86 | once any process has been handed the directory every listed file matches in all later states, while files can be read |
| CacheProtocol.ReadyMeansVerified | internal/runtime/shim.go:252-312 | when the readiness probe passes and files can be read, every directory of the plan matches in that state and the memory check has passed |
| CacheProtocol.ReadyTakesLoading | internal/runtime/shim.go:252-312 | readiness takes an engine that answers and weights that were loaded in some positive time |
| CacheProtocol.LocalJobWritesNothing | internal/runtime/prep.go:86-128 | no step of a process on a directory it uses in place changes any file |
| CacheProtocol.LocalMissOnlyStops | internal/runtime/prep.go:115-125 | a mismatch in such a directory is the end of that start |
| CacheProtocol.InPlaceIsUntouched | internal/runtime/prep.go:86-128 | in every run, with or without the lock and also while reads fail, a directory that every process uses in place keeps its files to the byte |
| CacheProtocol.LockIsNeeded | internal/runtime/prep.go:174-191 | without the lock a run loses a directory that was already returned |
| CacheProtocol.ReadErrorsAreFatal | internal/runtime/prep.go:132-139 | with the lock, a failed look at a verified file makes a second process truncate it while the first is ready |
| CacheProtocol.GuaranteedExactly | internal/runtime/prep.go:61-191 | every directory handed out matches in every run exactly when there is the lock and files can be read |
| CacheProgress.GetsToServe | internal/runtime/serve.go:185-202 | a server that is between jobs, when nobody else is inside a directory, reaches readiness by its own steps |
| CacheProgress.ServersCanCrash | internal/runtime/prep.go:174-191 | a process can crash in any state, and its lock goes with it |
| CacheProgress.AnythingCanArrive | internal/mirror/store.go:71-91 | a download can deliver anything, and what arrives is appended |
| CacheProgress.EveryServerCanServe | internal/runtime/prep.go:61-191 | convergence: from every reachable state, whatever crashed and whatever the cache holds, such a server can become ready, with every directory matching, when the store has what it may fetch and the rest is in place |
| Serve.PathsArePrepared | internal/runtime/serve.go:185-194 | the plan is exactly the model and draft directories handed to the engine, each fetched exactly unless load is local |
| Serve.ReadyServeIsVerified | internal/runtime/serve.go:141-202 | in any run beside any other processes, while files can be read, a ready server's model and draft directories match their manifests and its memory check has passed; local weights nobody may fetch are as they were at the start |
| Serve.LaunchedCommandKeepsTheRules | internal/runtime/serve.go:185-213 | the command launched starts the runtime on the prepared model, under the manifest's name and port, and keeps the ceiling (NaN aside) and the DSPARK rules |
| Bench.Aggregate | internal/bench/bench.go:115-145 | refuses exactly when two successful samples name different speculators; otherwise counts, totals, agreed name and percentiles are the samples', and errors plus successes are the requests |
| Bench.PercentileIsNearestRank | internal/bench/bench.go:155-161 | at least p percent of the samples are at or below the result and fewer than p percent below it |
| Bench.PercentileIsMonotone | internal/bench/bench.go:155-161 | a larger percentile is never smaller |
| Bench.SortedIsUnique | internal/bench/bench.go:137-139 | a sorted list is determined by its elements |
| Bench.ReportIgnoresOrder | internal/bench/bench.go:115-145 | two orders of the same samples are both refused or give the same report |
| Bench.OneMoreInTheReport | internal/bench/bench.go:117-125 | one more answer adds exactly its own chunks and tokens, one more failure exactly one error |
| Bench.OneAnswerAlone | internal/bench/bench.go:125-140 | a single answer is every percentile and names the speculator |
| BenchPool.StepKeepsInv | internal/bench/bench.go:97-111 | the pool's invariant under every step |
| BenchPool.AtMostOnce | internal/bench/bench.go:100-110 | under every schedule an index is received at most once and no slot is written twice |
| BenchPool.FinishedIsComplete | internal/bench/bench.go:107-111 | when Wait returns every index was received and written exactly once and every slot is filled |
| BenchPool.NoDeadlock | internal/bench/bench.go:100-111 | with at least one worker some step is possible until Wait returns |
| BenchPool.EveryScheduleEnds | internal/bench/bench.go:100-111 | every schedule takes at most, and a finished one exactly, two steps per request, one close and one exit per worker |
| BenchPool.ScheduleIsInvisible | internal/bench/bench.go:97-112 | any two schedules with any numbers of workers hand the aggregation the same samples |
| Harness.Shell | internal/harness/harness.go:178-188 | the loop prints one export line per rendered variable, in order |
| Harness.QuotedValue | internal/harness/harness.go:222-233 | a POSIX shell reads a quoted value back as itself exactly when it contains no NUL |
| Harness.ExportsReadBack | internal/harness/harness.go:178-188 | the printed exports read back as exactly the rendered pairs, in order, if and only if no value contains a NUL |
| Harness.ShellSetsEnvVars | internal/harness/harness.go:164-188 | the same for every harness and endpoint |
| Harness.TrailingSlashIsInvisible | internal/harness/harness.go:158-161 | a slash at the end of the base URL does not change what is exported, and the suffix is appended once |
| Harness.AgentsGetTheEndpoint | internal/harness/harness.go:74-132 | each registered agent finds URL, token and model under its own names |
| Harness.RegistryKeysAreNames | internal/harness/harness.go:74-132 | every registered variable is a shell name |
| Unit.FindExec | internal/deploycheck/deploycheck.go:88-94 | the loop returns the command of the first ExecStart line |
| Unit.IndentedExecIsRead | internal/deploycheck/deploycheck.go:90 | a command line may be indented and trailed by blanks |
| Unit.WordBeforeBlank | internal/deploycheck/deploycheck.go:98 | any run of blanks separates two words |
| Unit.FindManifest | internal/deploycheck/deploycheck.go:109-117 | the loop returns the last manifest named in either spelling |
| Unit.ValidateUnit | internal/deploycheck/deploycheck.go:83-125 | accepts exactly a unit whose first command runs fornax, serve, and this model's manifest |
| Unit.ManifestPathReads | internal/install/install.go:85-88 | the cleaned manifest path is one word that ends in the model's file name, whatever the directory |
| Unit.CleaningLaws | internal/install/install.go:87 | empty and single-dot components vanish and a name followed by two dots cancels |
| Unit.PlainStays | internal/install/install.go:87 | plain components are left alone, so cleaning twice is cleaning once |
| Unit.ExecStarts | internal/install/install.go:101-109 | the printed command is accepted exactly when the binary is called fornax and no option spells another manifest |
| Unit.UnitExec | internal/install/install.go:101-138 | the command read back from the whole unit is the printed one, or the one the GPU type smuggles in |
| Unit.InjectedByTheType | internal/install/install.go:115 | what the description smuggles in is the first command line among the later lines of the GPU type |
| Unit.PrintedUnitIsAccepted | internal/install/install.go:101-138 | for a valid manifest and whitespace-free options the judged command is the printed one, accepted exactly when the binary is called fornax and no option spells another manifest, unless a later line of the GPU type is a command, which is then the one that is judged |
| Unit.OneLineTypeInjectsNothing | internal/install/install.go:115 | a one-line GPU type smuggles nothing in |
| Unit.InjectedCommandIsRefused | internal/install/install.go:115 | a valid bare-metal manifest whose own unit is refused |
| Unit.UnitRunsAs | internal/install/install.go:121-123 | a unit with a one-line GPU type names the user that was asked for, and none otherwise |
| Unit.DefaultInstallIsAccepted | internal/install/install.go:71-88 | installed without any option a valid manifest's unit is accepted |
| Shim.InjectSystemPrompt | internal/runtime/shim.go:444-478 | the loop builds what the three policies say |
| Shim.TurnsAreKept | internal/runtime/shim.go:444-478 | in every mode the caller's other messages arrive unchanged and in order |
| Shim.TwiceIsOnceExactly | internal/runtime/shim.go:444-478 | the policy is idempotent exactly when it does not prepend |
| Shim.OperatorSpeaksFirst | internal/runtime/shim.go:464-474 | the manifest's prompt comes first, the rest unchanged unless overridden; without a policy, or with a caller's own system message under default, nothing changes |
| Shim.OtherRolesAreKept | internal/runtime/shim.go:455-462 | a message with any other role, or none, is never dropped |
| Shim.UnknownModesAreRefused | internal/runtime/shim.go:464-476 | a policy is refused exactly when its mode is none of the three |
| Shim.CountsAreExact | internal/runtime/shim.go:559-569 | in every interleaving counted plus still to count is what was reported, so no increment is lost |
| Shim.CallsGoOn | internal/runtime/shim.go:559-569 | a call with something left to count can always take a step that brings it closer to its end |

## Left out

- The S3-backed store (internal/mirror/store.go:141-234), `s5cmd` and its output; the store of the model is a directory tree.
- HTTP, proxying, SSE streaming, telemetry, signals, `exec`, systemd, the YAML and JSON codecs, dialect translation; `ps`, `endpoint`, install file placement and the LWS comparison are one-branch facts.
- Message texts: an error is a constructor, a complaint of Validate says which rule, and the order in which Validate visits speculators is arbitrary instead of sorted.
- Regular expressions and templates: the patterns of names, repos and revisions are predicates over their characters, a harness template is a list of literal text and fields, and template errors cannot occur.
- Budget.SuggestionIsTight: fractions are exact reals, so the rounding of float64 in the share and in floorTo2dp (internal/runtime/preflight.go:162-167) is not modelled.
- Budget.DirBytes: file sizes are unbounded, only the sum of the check itself wraps as an int64; the same holds for the totals of a manifest and of a benchmark.
- Budget.PreflightProtectsTheHost: the pool and the checkpoint are given; that the check is skipped when either cannot be measured is in CheckMemoryBudget.
- Store.LocalStore.Put: directories, permissions and paths outside the root are not modelled; a name is a key of the tree, so two spellings of one path are two names.
- Prep.LockDir: the flock itself is in CacheProtocol; here it is only the file.
- Mirror.Verify: a file that cannot be read, which it and the local check report, is not told apart from one that is not there.
- CacheProtocol.ReadyMeansVerified: every process uses the same file list for a directory, whose entries do not contradict each other, and all of them one cache root; files changed behind the processes' backs are not modelled. The outcome of the memory check is a step; what it computes is in Budget.
- PushProtocol.ManifestImpliesComplete: all pushers push the same entries, none of which is called _manifest.json or .put-*, from directories that match and keep matching.
- Exclusion between freezing or pulling and checking in place: the comment at internal/runtime/prep.go:105 suggests it, but the mirror takes no lock, so nothing is claimed.
- Mirror.Pull: the download tool is one replacement of the directory, and the abbreviation of the commit in log lines is left out.
- Hub.NextPageReadsWhatWasPrinted: rel is the only parameter of a printed link and is printed in quotes; a comma in a target or a relation, which a header may contain and the reader splits at, is left out.
- Hub.CheckPolicy: letters outside ASCII are not folded to lower case.
- Store.LocalStore.List: errors of the walk are not modelled, and a root that is missing is an empty tree.
- Bench.Aggregate: elapsed time and the rates derived from it are left out.
- Unit.PrintedUnitIsAccepted: the order of errors of validateUnit beyond a missing command is not stated; options with whitespace are not modelled, since systemd itself splits them.
- Serve.LaunchedCommandKeepsTheRules: the operator's own engine command (internal/runtime/serve.go:120-128) bypasses the rules and is left out, as is expanding the cache root.
- Shim.CountsAreExact: the telemetry counter beside the map is not modelled.
- HasArg looks at the base arguments only; what a speculator's arguments do to a required flag is not claimed.

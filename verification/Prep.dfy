/** Making a model's weights available on a host (internal/runtime/prep.go). */
module Prep {
  import opened Wrappers
  import opened Text
  import opened Manifest
  import opened Flags
  import opened Files
  import opened Store
  import opened Hub
  import opened Mirror

  datatype PrepError = NoWeightsDir | ManifestUnavailable | FetchFailed | Unreadable | Mismatch

  /** lockDir creates <dir>/.lock if it is not there and leaves every other file alone. */
  function Locked(tree: Tree): Tree { if LOCK_NAME in tree then tree else tree[LOCK_NAME := []] }

  method LockDir(dir: LocalStore)
    modifies dir
    ensures dir.objects == Locked(old(dir.objects))
    ensures old(dir.history) <= dir.history
    ensures forall k | |old(dir.history)| <= k < |dir.history| :: dir.history[k] == Locked(old(dir.objects))
  {
    if LOCK_NAME !in dir.objects {
      dir.Write(LOCK_NAME, []);
    }
  }

  /**
   * What goes wrong around one file: it cannot be read when it is looked at, the fetch fails, or it cannot be
   * read afterwards.
   */
  datatype FileFault = FileFault(unreadable: bool, get: GetFault, unreadableAfter: bool)

  const NO_FAULT := FileFault(false, NoGetFault, false)

  /**
   * Leaves a matching file alone, fetches any other once, and re-checks what arrived. A file that cannot be
   * read counts as a miss. At every step only this entry's file can differ from before.
   */
  method EnsureFile(cache: LocalStore, f: FileEntry, store: LocalStore, hash: Hash, chunk: nat, fault: FileFault)
    returns (r: Result<(), PrepError>, fetched: bool)
    requires chunk > 0 && cache != store
    modifies cache
    ensures r.Ok? ==> FileMatches(cache.objects, f, hash)
    ensures !fetched <==> FileMatches(old(cache.objects), f, hash) && !fault.unreadable
    ensures !fetched ==> r.Ok? && cache.objects == old(cache.objects) && cache.history == old(cache.history)
    ensures fetched && r.Ok? ==> f.path in store.objects
                                 && cache.objects == old(cache.objects)[f.path := store.objects[f.path]]
    ensures FileMatches(store.objects, f, hash) && fault == NO_FAULT ==> r.Ok?
    ensures forall p | p in old(cache.objects) && p != f.path ::
              p in cache.objects && cache.objects[p] == old(cache.objects)[p]
    ensures forall p | p in cache.objects && p != f.path :: p in old(cache.objects)
    ensures old(cache.history) <= cache.history
    ensures forall k | |old(cache.history)| <= k < |cache.history| ::
              cache.history[k] - {f.path} == old(cache.objects) - {f.path}
  {
    if !fault.unreadable && FileMatches(cache.objects, f, hash) {
      return Ok(()), false;
    }
    fetched := true;
    var ok := store.Get(f.path, cache, f.path, chunk, fault.get);
    if !ok {
      return Err(FetchFailed), true;
    }
    if fault.unreadableAfter {
      return Err(Unreadable), true;
    }
    r := if FileMatches(cache.objects, f, hash) then Ok(()) else Err(Mismatch);
  }

  /** Every file could be read when it was looked at. */
  ghost predicate Readable(fault: nat -> FileFault) { forall k: nat :: !fault(k).unreadable }

  /** The cache after the listed files, each left alone if it matched when its turn came and fetched otherwise. */
  function Staged(cache: Tree, store: Tree, files: seq<FileEntry>, hash: Hash): Tree {
    if files == [] then cache
    else
      var before := Staged(cache, store, files[..|files| - 1], hash);
      var f := files[|files| - 1];
      if FileMatches(before, f, hash) || f.path !in store then before else before[f.path := store[f.path]]
  }

  /** The loop over the manifest's entries, under the lock. */
  method StageFiles(cache: LocalStore, store: LocalStore, files: seq<FileEntry>, hash: Hash, chunk: nat,
                    fault: nat -> FileFault)
    returns (r: Result<(), PrepError>, gets: nat)
    requires chunk > 0 && cache != store
    modifies cache
    ensures r.Ok? && Consistent(files) ==> AllMatch(cache.objects, files, hash)
    ensures r.Ok? && Readable(fault) ==> cache.objects == Staged(old(cache.objects), store.objects, files, hash)
    ensures AllMatch(store.objects, files, hash) && (forall k: nat :: fault(k) == NO_FAULT) ==> r.Ok?
    ensures AllMatch(old(cache.objects), files, hash) && Readable(fault) ==> r.Ok? && gets == 0
    ensures old(cache.history) <= cache.history
    ensures Consistent(files) && Readable(fault) ==>
              forall k | |old(cache.history)| <= k < |cache.history| ::
                Kept(old(cache.objects), cache.history[k], files, hash)
  {
    gets := 0;
    ghost var before, sound, readable := cache.objects, Consistent(files), Readable(fault);
    for i := 0 to |files|
      invariant old(cache.history) <= cache.history
      invariant sound ==> forall j | 0 <= j < i :: FileMatches(cache.objects, files[j], hash)
      invariant readable ==> cache.objects == Staged(before, store.objects, files[..i], hash)
      invariant readable && AllMatch(before, files, hash) ==> gets == 0 && cache.objects == before
      invariant sound && readable ==> Kept(before, cache.objects, files, hash)
      invariant sound && readable ==> forall k | |old(cache.history)| <= k < |cache.history| ::
                                        Kept(before, cache.history[k], files, hash)
    {
      ghost var previous, seen := cache.objects, cache.history;
      StagedSnoc(before, store.objects, files, i, hash);
      MatchAt(before, files, i, hash);
      MatchAt(store.objects, files, i, hash);
      var ensured, fetched := EnsureFile(cache, files[i], store, hash, chunk, fault(i));
      if fetched {
        gets := gets + 1;
      }
      if sound && readable {
        KeptAcrossEnsure(before, previous, cache.objects, files, i, fetched, hash);
        KeptThroughout(before, previous, seen, cache.history, files, i, hash);
        HistoryExtends(before, old(cache.history), seen, cache.history, files, hash);
      }
      if ensured.Err? {
        return Err(ensured.error), gets;
      }
      if sound {
        PassedStillMatch(previous, cache.objects, files, i, hash);
      }
    }
    assert files[..|files|] == files;
    r := Ok(());
  }

  lemma MatchAt(tree: Tree, files: seq<FileEntry>, i: nat, hash: Hash)
    requires i < |files|
    ensures AllMatch(tree, files, hash) ==> FileMatches(tree, files[i], hash)
  {
  }

  lemma StagedSnoc(cache: Tree, store: Tree, files: seq<FileEntry>, i: nat, hash: Hash)
    requires i < |files|
    ensures var before := Staged(cache, store, files[..i], hash);
            Staged(cache, store, files[..i + 1], hash) ==
            if FileMatches(before, files[i], hash) || files[i].path !in store then before
            else before[files[i].path := store[files[i].path]]
  {
    assert files[..i + 1][..i] == files[..i];
  }

  /** Handling one entry leaves the entries before it matching. */
  lemma PassedStillMatch(previous: Tree, now: Tree, files: seq<FileEntry>, i: nat, hash: Hash)
    requires Consistent(files) && i < |files| && FileMatches(now, files[i], hash)
    requires forall j | 0 <= j < i :: FileMatches(previous, files[j], hash)
    requires forall p | p in previous && p != files[i].path :: p in now && now[p] == previous[p]
    ensures forall j | 0 <= j < i + 1 :: FileMatches(now, files[j], hash)
  {
    forall j | 0 <= j < i ensures FileMatches(now, files[j], hash)
    {
      assert FileMatches(previous, files[j], hash);
      if files[j].path == files[i].path {
        assert files[j] == files[i];
      }
    }
  }

  lemma KeptThroughout(before: Tree, previous: Tree, seen: seq<Tree>, now: seq<Tree>, files: seq<FileEntry>, i: nat,
                       hash: Hash)
    requires Consistent(files) && i < |files| && Kept(before, previous, files, hash) && seen <= now
    requires now != seen ==> !FileMatches(previous, files[i], hash)
    requires forall k | |seen| <= k < |now| :: now[k] - {files[i].path} == previous - {files[i].path}
    ensures forall k | |seen| <= k < |now| :: Kept(before, now[k], files, hash)
  {
    forall k | |seen| <= k < |now| ensures Kept(before, now[k], files, hash)
    {
      assert |now| != |seen|;
      KeptAcrossFetch(before, previous, now[k], files, i, hash);
    }
  }

  lemma HistoryExtends(before: Tree, first: seq<Tree>, seen: seq<Tree>, now: seq<Tree>, files: seq<FileEntry>, hash: Hash)
    requires first <= seen <= now
    requires forall k | |first| <= k < |seen| :: Kept(before, seen[k], files, hash)
    requires forall k | |seen| <= k < |now| :: Kept(before, now[k], files, hash)
    ensures forall k | |first| <= k < |now| :: Kept(before, now[k], files, hash)
  {
    forall k | |first| <= k < |now| ensures Kept(before, now[k], files, hash) {
      assert k < |seen| ==> now[k] == seen[k];
    }
  }

  /**
   * Stages one artifact in a cache directory nobody else is writing: success means every listed file
   * matches, exactly unless two entries contradict each other; while files can be read, one that matched is
   * never written and a warm cache fetches nothing.
   */
  method PrepareArtifact(cache: LocalStore, store: LocalStore, hash: Hash, codec: Codec, chunk: nat,
                         fault: nat -> FileFault)
    returns (r: Result<StoreManifest, PrepError>, gets: nat)
    requires chunk > 0 && cache != store
    modifies cache
    ensures r.Ok? ==> ReadManifest(store.objects, codec) == Some(r.value)
    ensures r.Ok? ==> (AllMatch(cache.objects, r.value.files, hash) <==> Consistent(r.value.files))
    ensures r.Ok? && Readable(fault) ==>
              cache.objects == Staged(Locked(old(cache.objects)), store.objects, r.value.files, hash)
    ensures ReadManifest(store.objects, codec).None? ==> r == Err(ManifestUnavailable) && gets == 0
    ensures Verified(store.objects, codec, hash) && (forall k: nat :: fault(k) == NO_FAULT) ==> r.Ok?
    ensures ReadManifest(store.objects, codec).Some? && Readable(fault) ==>
              var files := ReadManifest(store.objects, codec).value.files;
              && (AllMatch(old(cache.objects), files, hash) ==>
                    r.Ok? && gets == 0 && cache.objects == Locked(old(cache.objects)))
              && (Consistent(files) ==>
                    forall k | |old(cache.history)| <= k < |cache.history| ::
                      Kept(old(cache.objects), cache.history[k], files, hash))
    ensures old(cache.history) <= cache.history
  {
    ghost var before := cache.objects;
    LockDir(cache);
    var sm := ReadManifest(store.objects, codec);
    if sm.None? {
      return Err(ManifestUnavailable), 0;
    }
    var files := sm.value.files;
    ghost var locked := cache.objects;
    LockKeepsFiles(before, files, hash);
    var staged;
    staged, gets := StageFiles(cache, store, files, hash, chunk, fault);
    if AllMatch(before, files, hash) {
      StagedWhenMatching(locked, store.objects, files, hash);
    }
    if staged.Err? {
      return Err(staged.error), gets;
    }
    if AllMatch(cache.objects, files, hash) {
      MatchingIsConsistent(cache.objects, files, hash);
    }
    r := Ok(sm.value);
  }

  /** A cache in which everything matches is left as it is. */
  lemma {:induction false} StagedWhenMatching(cache: Tree, store: Tree, files: seq<FileEntry>, hash: Hash)
    requires AllMatch(cache, files, hash)
    ensures Staged(cache, store, files, hash) == cache
  {
    if files != [] {
      var n := |files| - 1;
      assert forall i | 0 <= i < n :: files[..n][i] == files[i];
      StagedWhenMatching(cache, store, files[..n], hash);
      assert FileMatches(cache, files[n], hash);
    }
  }

  /** Two entries for one path that ask for different contents. */
  const CONTRADICTION: seq<FileEntry> := [FileEntry("f", 1, "a"), FileEntry("f", 1, "b")]

  /**
   * Why contradictory entries are set apart: each matches when its turn comes, and the first no longer does
   * at the end. A store that Verify accepts has no such manifest.
   */
  lemma ContradictionIsStaged()
    ensures var cache: Tree := map["f" := [0]];
            var store: Tree := map["f" := [1]];
            var hash: Hash := b => if b == [0] then "a" else "b";
            && FileMatches(Staged(cache, store, CONTRADICTION[..1], hash), CONTRADICTION[0], hash)
            && FileMatches(Staged(cache, store, CONTRADICTION, hash), CONTRADICTION[1], hash)
            && !FileMatches(Staged(cache, store, CONTRADICTION, hash), CONTRADICTION[0], hash)
  {
    var cache: Tree := map["f" := [0]];
    var store: Tree := map["f" := [1]];
    var hash: Hash := b => if b == [0] then "a" else "b";
    var first := CONTRADICTION[..1];
    assert first[..0] == [] && first[0] == CONTRADICTION[0];
    assert "a"[0] != "b"[0];
    assert Staged(cache, store, [], hash) == cache;
    assert Staged(cache, store, first, hash) == cache;
    assert Staged(cache, store, CONTRADICTION, hash) == cache["f" := [1]];
  }

  /** Every file that matched before is still there, byte for byte. */
  ghost predicate Kept(before: Tree, now: Tree, files: seq<FileEntry>, hash: Hash) {
    forall i | 0 <= i < |files| && FileMatches(before, files[i], hash) ::
      files[i].path in now && now[files[i].path] == before[files[i].path]
  }

  lemma LockKeepsFiles(before: Tree, files: seq<FileEntry>, hash: Hash)
    ensures Kept(before, Locked(before), files, hash)
    ensures AllMatch(before, files, hash) ==> AllMatch(Locked(before), files, hash)
    ensures forall now: Tree | Kept(Locked(before), now, files, hash) :: Kept(before, now, files, hash)
  {
  }

  lemma KeptAcrossFetch(before: Tree, previous: Tree, now: Tree, files: seq<FileEntry>, i: nat, hash: Hash)
    requires Consistent(files) && i < |files|
    requires Kept(before, previous, files, hash) && !FileMatches(previous, files[i], hash)
    requires now - {files[i].path} == previous - {files[i].path}
    ensures Kept(before, now, files, hash)
  {
    forall j | 0 <= j < |files| && FileMatches(before, files[j], hash)
      ensures files[j].path in now && now[files[j].path] == before[files[j].path]
    {
      assert files[j].path in previous - {files[i].path};
      assert files[j].path in now - {files[i].path};
    }
  }

  lemma KeptAcrossEnsure(before: Tree, previous: Tree, now: Tree, files: seq<FileEntry>, i: nat, fetched: bool, hash: Hash)
    requires Consistent(files) && i < |files| && Kept(before, previous, files, hash)
    requires fetched <==> !FileMatches(previous, files[i], hash)
    requires !fetched ==> now == previous
    requires forall p | p in previous && p != files[i].path :: p in now && now[p] == previous[p]
    requires forall p | p in now && p != files[i].path :: p in previous
    ensures Kept(before, now, files, hash)
  {
    if fetched {
      assert now - {files[i].path} == previous - {files[i].path};
      KeptAcrossFetch(before, previous, now, files, i, hash);
    }
  }

  /** load: local never fetches: it accepts only a directory that verifies, and writes only .lock. */
  method VerifyInPlace(dir: LocalStore, present: bool, hash: Hash, codec: Codec, unreadable: nat -> bool)
    returns (r: Result<StoreManifest, PrepError>)
    modifies dir
    ensures r.Ok? ==> present && Verified(Locked(old(dir.objects)), codec, hash)
    ensures present && Verified(Locked(old(dir.objects)), codec, hash) && (forall k: nat :: !unreadable(k)) ==> r.Ok?
    ensures r.Ok? ==> ReadManifest(old(dir.objects), codec) == Some(r.value)
    ensures dir.objects == if present then Locked(old(dir.objects)) else old(dir.objects)
  {
    if !present {
      return Err(NoWeightsDir);
    }
    LockDir(dir);
    assert ReadManifest(dir.objects, codec) == ReadManifest(old(dir.objects), codec);
    var sm := ReadManifest(dir.objects, codec);
    if sm.None? {
      return Err(ManifestUnavailable);
    }
    var files := sm.value.files;
    for i := 0 to |files|
      invariant forall j | 0 <= j < i :: FileMatches(dir.objects, files[j], hash)
    {
      if unreadable(i) {
        return Err(Unreadable);
      }
      if !FileMatches(dir.objects, files[i], hash) {
        return Err(Mismatch);
      }
    }
    r := Ok(sm.value);
  }

  /** A directory that verifies keeps verifying with the lock file, also if it lists one: then it has it. */
  lemma LockIsInvisible(tree: Tree, codec: Codec, hash: Hash)
    requires Verified(tree, codec, hash)
    ensures Verified(Locked(tree), codec, hash) && ReadManifest(Locked(tree), codec) == ReadManifest(tree, codec)
  {
    var files := ReadManifest(tree, codec).value.files;
    forall i | 0 <= i < |files| ensures FileMatches(Locked(tree), files[i], hash)
    {
      assert FileMatches(tree, files[i], hash);
    }
  }

  /**
   * Certified once, usable without a network: after a successful Freeze, Verify and load: local accept the
   * directory exactly when freezing overwrote no listed file, and no weight file is written by any of the
   * three.
   */
  method FreezeVerifyServe(repo: string, sha: string, now: string, start: string, server: Server<RawEntry>, base: URL,
                           resolve: Resolver, policy: Policy, dir: LocalStore, hash: Hash, codec: Codec, chunk: nat,
                           fault: PutFault)
    returns (frozen: Result<StoreManifest, MirrorError>, verified: bool, local: Result<StoreManifest, PrepError>)
    requires chunk > 0 && codec.RoundTrips()
    modifies dir
    ensures frozen.Ok? ==>
              var written := codec.encode(frozen.value);
              && (verified <==> forall f | f in frozen.value.files && f.path == MANIFEST_NAME :: Matches(written, f, hash))
              && (verified ==> local == Ok(frozen.value))
              && dir.objects == Locked(old(dir.objects)[MANIFEST_NAME := written])
  {
    ghost var before := dir.objects;
    ghost var urls, pages;
    frozen, urls, pages := Freeze(repo, sha, now, start, server, base, resolve, policy, dir, hash, codec, chunk, fault);
    ghost var tree := dir.objects;
    if frozen.Ok? {
      FrozenDirectoryVerifies(before, FilesOf(Flatten(pages)), frozen.value, hash, codec);
    }
    verified := Verify(dir, codec, hash);
    if verified {
      LockIsInvisible(tree, codec, hash);
    }
    local := VerifyInPlace(dir, true, hash, codec, (k: nat) => false);
  }

  /** Two runs against a store Verify accepts: the first converges from any cache, the second fetches nothing. */
  method PrepareTwice(cache: LocalStore, store: LocalStore, hash: Hash, codec: Codec, chunk: nat)
    returns (first: Result<StoreManifest, PrepError>, second: Result<StoreManifest, PrepError>, gets: nat)
    requires chunk > 0 && cache != store && Verified(store.objects, codec, hash)
    modifies cache
    ensures first.Ok? && second == first && gets == 0
    ensures AllMatch(cache.objects, first.value.files, hash)
  {
    var fault := (k: nat) => NO_FAULT;
    var firstGets;
    MatchingIsConsistent(store.objects, ReadManifest(store.objects, codec).value.files, hash);
    first, firstGets := PrepareArtifact(cache, store, hash, codec, chunk, fault);
    second, gets := PrepareArtifact(cache, store, hash, codec, chunk, fault);
  }

  // ----- which directory is prepared, and what is handed to the engine -----

  /** One artifact to stage before the engine starts: where, and whether it may be fetched. */
  datatype Artifact = Artifact(hfRepo: string, revision: string, fetch: bool)

  /** The primary weights, unless they stream. */
  function PrimaryArtifact(m: Manifest): Option<Artifact> {
    if m.load == S3_STREAM then None else Some(Artifact(m.hfRepo, m.revision, m.load != LOCAL))
  }

  /** A separate draft head, which is staged even when the primary weights stream. */
  function DraftArtifact(sp: Speculator, load: string): Option<Artifact> {
    if !sp.SeparateHead() then None else Some(Artifact(sp.hfRepo, sp.revision, load != LOCAL))
  }

  /** Everything Serve stages, in order. */
  function Plan(m: Manifest, sp: Speculator): seq<Artifact> {
    (if PrimaryArtifact(m).Some? then [PrimaryArtifact(m).value] else [])
    + (if DraftArtifact(sp, m.load).Some? then [DraftArtifact(sp, m.load).value] else [])
  }

  /** filepath.Join(cacheRoot, hf_repo, revision) for a root that is already clean. */
  function ArtifactDir(cacheRoot: string, a: Artifact): string {
    cacheRoot + "/" + a.hfRepo + "/" + a.revision
  }

  function ModelPath(m: Manifest, cacheRoot: string): string {
    if PrimaryArtifact(m).None? then m.s3Prefix else ArtifactDir(cacheRoot, PrimaryArtifact(m).value)
  }

  function DraftPath(sp: Speculator, load: string, cacheRoot: string): string {
    if DraftArtifact(sp, load).None? then "" else ArtifactDir(cacheRoot, DraftArtifact(sp, load).value)
  }

  predicate WellFormed(a: Artifact) { RepoOk(a.hfRepo) && RevisionOk(a.revision) }

  /** A directory reads back as the root, the two parts of the repo, and the revision. */
  lemma ArtifactDirReads(root: string, a: Artifact)
    requires WellFormed(a)
    ensures var repo := Cut(a.hfRepo, '/');
            Split(ArtifactDir(root, a), '/') == Split(root, '/') + [repo.before, repo.after, a.revision]
  {
    var repo := Cut(a.hfRepo, '/');
    CutParts(a.hfRepo, '/');
    NoSlash(a);
    TwoParts(repo.before, repo.after);
    assert ArtifactDir(root, a) == root + ['/'] + (a.hfRepo + ['/'] + a.revision);
    SplitConcat(root, '/', a.hfRepo + ['/'] + a.revision);
    SplitConcat(a.hfRepo, '/', a.revision);
    OnePart(a.revision);
    assert [repo.before, repo.after] + [a.revision] == [repo.before, repo.after, a.revision];
  }

  lemma NoSlash(a: Artifact)
    requires WellFormed(a)
    ensures '/' !in Cut(a.hfRepo, '/').after && '/' !in a.revision
  {
    assert !RepoChar('/') && !Digit('/');
  }

  lemma OnePart(s: string)
    requires '/' !in s
    ensures Split(s, '/') == [s]
  {
    CutParts(s, '/');
  }

  lemma TwoParts(a: string, b: string)
    requires '/' !in a && '/' !in b
    ensures Split(a + ['/'] + b, '/') == [a, b]
  {
    SplitConcat(a, '/', b);
    OnePart(a);
    OnePart(b);
  }

  /** Under one root, a file of one artifact is never a file of another, nor another file of the same. */
  lemma DirectoriesDoNotOverlap(root: string, a: Artifact, x: string, b: Artifact, y: string)
    requires WellFormed(a) && WellFormed(b)
    requires ArtifactDir(root, a) + ['/'] + x == ArtifactDir(root, b) + ['/'] + y
    ensures a.hfRepo == b.hfRepo && a.revision == b.revision && x == y
  {
    ArtifactDirReads(root, a);
    ArtifactDirReads(root, b);
    SplitConcat(ArtifactDir(root, a), '/', x);
    SplitConcat(ArtifactDir(root, b), '/', y);
    var ra, rb := Cut(a.hfRepo, '/'), Cut(b.hfRepo, '/');
    SameMiddle(Split(root, '/'), [ra.before, ra.after, a.revision], Split(x, '/'),
               [rb.before, rb.after, b.revision], Split(y, '/'));
    assert [ra.before, ra.after, a.revision][0] == [rb.before, rb.after, b.revision][0];
    assert [ra.before, ra.after, a.revision][1] == [rb.before, rb.after, b.revision][1];
    assert [ra.before, ra.after, a.revision][2] == [rb.before, rb.after, b.revision][2];
    CutParts(a.hfRepo, '/');
    CutParts(b.hfRepo, '/');
    var dir := ArtifactDir(root, a) + ['/'];
    assert (dir + x)[|dir|..] == x && (dir + y)[|dir|..] == y;
  }

  lemma SameMiddle(root: seq<string>, a: seq<string>, x: seq<string>, b: seq<string>, y: seq<string>)
    requires |a| == |b| && root + a + x == root + b + y
    ensures a == b
  {
    var n := |root|;
    assert (root + a + x)[n..n + |a|] == a && (root + b + y)[n..n + |b|] == b;
  }

  /** The model path reads back as the manifest's repo and revision, the draft path as the speculator's. */
  lemma PreparedPathsRead(m: Manifest, sp: Speculator, root: string)
    ensures m.load != S3_STREAM && RepoOk(m.hfRepo) && RevisionOk(m.revision) ==>
              var repo := Cut(m.hfRepo, '/');
              Split(ModelPath(m, root), '/') == Split(root, '/') + [repo.before, repo.after, m.revision]
    ensures sp.SeparateHead() && RepoOk(sp.hfRepo) && RevisionOk(sp.revision) ==>
              var repo := Cut(sp.hfRepo, '/');
              Split(DraftPath(sp, m.load, root), '/') == Split(root, '/') + [repo.before, repo.after, sp.revision]
  {
    if m.load != S3_STREAM && RepoOk(m.hfRepo) && RevisionOk(m.revision) {
      ArtifactDirReads(root, PrimaryArtifact(m).value);
    }
    if sp.SeparateHead() && RepoOk(sp.hfRepo) && RevisionOk(sp.revision) {
      ArtifactDirReads(root, DraftArtifact(sp, m.load).value);
    }
  }

  /** The paths preparation hands over are the kind the command-line theorems ask for. */
  lemma PreparedPaths(m: Manifest, sp: Speculator, cacheRoot: string, parse: string -> Option<Float>)
    requires Valid(m, parse) && cacheRoot != "" && cacheRoot[0] != '-'
    ensures !Dash(ModelPath(m, cacheRoot))
    ensures m.load == S3_STREAM ==> ModelPath(m, cacheRoot) == m.s3Prefix
    ensures DraftPath(sp, m.load, cacheRoot) != "" <==> sp.SeparateHead()
  {
    if m.load == S3_STREAM {
      assert HasPrefix(m.s3Prefix, "s3://");
      assert m.s3Prefix[0] == "s3://"[0];
    } else {
      assert ModelPath(m, cacheRoot)[0] == cacheRoot[0];
    }
  }
}

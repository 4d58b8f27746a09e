/** Pull, push, freeze and verify: the sequential algorithms (internal/mirror/mirror.go). */
module Mirror {
  import opened Wrappers
  import opened Text
  import opened Files
  import opened Store
  import opened Hub

  datatype MirrorError = Missing | WrongSize | WrongHash | PolicyViolation | EmptyTree | StoreFailed | NoManifest
                       | HubFailed(error: HubError)

  // ----- checking a directory against the published tree -----

  /** The file is there, with the published size and the published hash if there is one. */
  predicate Agrees(tree: Tree, f: TreeFile, hash: Hash) {
    f.path in tree && |tree[f.path]| == f.size && (f.sha256 == "" || f.sha256 == hash(tree[f.path]))
  }

  predicate AllAgree(tree: Tree, files: seq<TreeFile>, hash: Hash) {
    forall i | 0 <= i < |files| :: Agrees(tree, files[i], hash)
  }

  /** entries record the published files, in order, with the content hashes found on disk. */
  predicate Records(entries: seq<FileEntry>, files: seq<TreeFile>, tree: Tree, hash: Hash) {
    && |entries| == |files|
    && forall i | 0 <= i < |files| ::
         && files[i].path in tree
         && entries[i] == FileEntry(files[i].path, files[i].size, hash(tree[files[i].path]))
  }

  method VerifyLocal(dir: LocalStore, files: seq<TreeFile>, hash: Hash)
    returns (r: Result<seq<FileEntry>, MirrorError>)
    ensures r.Ok? <==> AllAgree(dir.objects, files, hash)
    ensures r.Ok? ==> Records(r.value, files, dir.objects, hash)
  {
    var entries := [];
    for i := 0 to |files|
      invariant AllAgree(dir.objects, files[..i], hash)
      invariant Records(entries, files[..i], dir.objects, hash)
    {
      var f := files[i];
      assert files[..i + 1][i] == f;
      if f.path !in dir.objects {
        assert !Agrees(dir.objects, files[i], hash);
        return Err(Missing);
      }
      var content := dir.objects[f.path];
      if |content| != f.size {
        assert !Agrees(dir.objects, files[i], hash);
        return Err(WrongSize);
      }
      var sum := hash(content);
      if f.sha256 != "" && sum != f.sha256 {
        assert !Agrees(dir.objects, files[i], hash);
        return Err(WrongHash);
      }
      entries := entries + [FileEntry(f.path, f.size, sum)];
    }
    assert files[..|files|] == files;
    return Ok(entries);
  }

  lemma RecordsMatch(entries: seq<FileEntry>, files: seq<TreeFile>, tree: Tree, hash: Hash)
    requires Records(entries, files, tree, hash) && AllAgree(tree, files, hash)
    ensures AllMatch(tree, entries, hash) && Consistent(entries)
    ensures forall i | 0 <= i < |files| ::
              entries[i].path == files[i].path && entries[i].size == files[i].size
              && (files[i].sha256 != "" ==> entries[i].sha256 == files[i].sha256)
  {
    forall i | 0 <= i < |files| ensures FileMatches(tree, entries[i], hash)
    {
      assert Agrees(tree, files[i], hash);
    }
    MatchingIsConsistent(tree, entries, hash);
    forall i | 0 <= i < |files|
      ensures files[i].sha256 != "" ==> entries[i].sha256 == files[i].sha256
    {
      assert Agrees(tree, files[i], hash);
    }
  }

  /** One entry of the manifest is one file of the listing: path, size, and the hash it publishes. */
  ghost predicate Recorded(entry: FileEntry, raw: RawEntry) {
    && raw.kind == "file" && entry.path == raw.path && entry.size == raw.size
    && forall h | Publishes(raw, h) :: entry.sha256 == h
  }

  /** The entries are the files of the listing, all of them, in order. */
  ghost predicate Mirrors(entries: seq<FileEntry>, raw: seq<RawEntry>) {
    if raw == [] then entries == []
    else if raw[|raw| - 1].kind != "file" then Mirrors(entries, raw[..|raw| - 1])
    else
      && entries != [] && Recorded(entries[|entries| - 1], raw[|raw| - 1])
      && Mirrors(entries[..|entries| - 1], raw[..|raw| - 1])
  }

  lemma {:induction false} RecordsMirror(entries: seq<FileEntry>, raw: seq<RawEntry>, tree: Tree, hash: Hash)
    requires Records(entries, FilesOf(raw), tree, hash) && AllAgree(tree, FilesOf(raw), hash)
    ensures Mirrors(entries, raw)
  {
    if raw != [] {
      var last, before := raw[|raw| - 1], raw[..|raw| - 1];
      if last.kind == "file" {
        var n := |entries| - 1;
        assert FilesOf(raw)[..n] == FilesOf(before) && FilesOf(raw)[n] == ToTreeFile(last);
        assert Agrees(tree, FilesOf(raw)[n], hash);
        forall h | Publishes(last, h) ensures entries[n].sha256 == h {
          PublishedHash(last, h);
        }
        forall i | 0 <= i < n ensures Agrees(tree, FilesOf(before)[i], hash) {
          assert Agrees(tree, FilesOf(raw)[i], hash);
        }
        RecordsMirror(entries[..n], before, tree, hash);
      } else {
        assert FilesOf(raw) == FilesOf(before);
        RecordsMirror(entries, before, tree, hash);
      }
    }
  }

  /** A tree the Hub can be mirrored from. */
  predicate Publishable(files: seq<TreeFile>, policy: Policy) {
    files != [] && forall f | f in files :: PolicyAllows(policy, f.path)
  }

  // ----- pull -----

  /**
   * Verifies first and downloads only when that fails; `downloaded` is what the download tool leaves on
   * disk, or None when it fails. Success always means the directory agrees with the published tree.
   */
  method Pull(start: string, server: Server<RawEntry>, base: URL, resolve: Resolver, policy: Policy,
              dir: LocalStore, downloaded: Option<Tree>, hash: Hash)
    returns (r: Result<seq<FileEntry>, MirrorError>, downloads: nat,
             ghost urls: seq<string>, ghost pages: seq<seq<RawEntry>>)
    modifies dir
    ensures r.Ok? ==>
              && Mirrors(r.value, Flatten(pages))
              && (forall e | e in Flatten(pages) && e.kind == "file" :: PolicyAllows(policy, e.path))
    ensures r.Ok? ==>
              var files := FilesOf(Flatten(pages));
              && Complete(start, urls, pages, server, base, resolve)
              && (forall f | f in files :: PolicyAllows(policy, f.path))
              && AllAgree(dir.objects, files, hash) && Records(r.value, files, dir.objects, hash)
              && (downloads == 0 <==> AllAgree(old(dir.objects), files, hash))
    ensures downloads == 0 ==> dir.objects == old(dir.objects)
    ensures forall us: seq<string>, ps: seq<seq<RawEntry>>
              | Complete(start, us, ps, server, base, resolve) && |ps| <= MAX_TREE_PAGES
                && Publishable(FilesOf(Flatten(ps)), policy)
                && (AllAgree(old(dir.objects), FilesOf(Flatten(ps)), hash)
                    || (downloaded.Some? && AllAgree(downloaded.value, FilesOf(Flatten(ps)), hash))) :: r.Ok?
  {
    var tree;
    downloads := 0;
    tree, urls, pages := PublishedTree(start, server, base, resolve);
    if tree.Err? {
      return Err(tree.error), 0, urls, pages;
    }
    var allowed := CheckPolicy(policy, tree.value);
    if !allowed {
      return Err(PolicyViolation), 0, urls, pages;
    }
    AllowedPaths(Flatten(pages), policy);
    r := VerifyLocal(dir, tree.value, hash);
    if r.Ok? {
      RecordsMirror(r.value, Flatten(pages), dir.objects, hash);
      return;
    }
    downloads := 1;
    if downloaded.None? {
      return Err(StoreFailed), 1, urls, pages;
    }
    dir.Replace(downloaded.value);
    r := VerifyLocal(dir, tree.value, hash);
    if r.Ok? {
      RecordsMirror(r.value, Flatten(pages), dir.objects, hash);
    }
  }

  // ----- push -----

  /** What Push leaves behind the files: skip what matches, replace the rest. */
  function PushFiles(store: Tree, dir: Tree, entries: seq<FileEntry>, hash: Hash): Tree {
    if entries == [] then store
    else
      var before := PushFiles(store, dir, entries[..|entries| - 1], hash);
      var f := entries[|entries| - 1];
      if FileMatches(before, f, hash) || f.path !in dir then before else before[f.path := dir[f.path]]
  }

  /** The simple form it must agree with: upload everything. */
  function UploadAll(store: Tree, dir: Tree, entries: seq<FileEntry>): Tree {
    if entries == [] then store
    else
      var before := UploadAll(store, dir, entries[..|entries| - 1]);
      var f := entries[|entries| - 1];
      if f.path !in dir then before else before[f.path := dir[f.path]]
  }

  /** Size and content hash of one object, the identity a mirror is judged by. */
  function Identity(tree: Tree, path: string, hash: Hash): Option<(nat, string)> {
    if path in tree then Some((|tree[path]|, hash(tree[path]))) else None
  }

  /** Files that are all in place cannot be asked to be two things at once. */
  lemma MatchingIsConsistent(tree: Tree, entries: seq<FileEntry>, hash: Hash)
    requires AllMatch(tree, entries, hash)
    ensures Consistent(entries)
  {
    forall i, j | 0 <= i < |entries| && 0 <= j < |entries| && entries[i].path == entries[j].path
      ensures entries[i] == entries[j]
    {
      assert FileMatches(tree, entries[i], hash) && FileMatches(tree, entries[j], hash);
    }
  }

  /** After a Push of verified files every listed path matches and every other object is untouched. */
  lemma {:induction false} PushedFilesMatch(store: Tree, dir: Tree, entries: seq<FileEntry>, hash: Hash)
    requires AllMatch(dir, entries, hash)
    ensures AllMatch(PushFiles(store, dir, entries, hash), entries, hash)
    ensures forall p | !Lists(entries, p) ::
              (p in PushFiles(store, dir, entries, hash) <==> p in store)
              && (p in store ==> PushFiles(store, dir, entries, hash)[p] == store[p])
  {
    MatchingIsConsistent(dir, entries, hash);
    if entries != [] {
      var n := |entries| - 1;
      var rest := entries[..n];
      assert forall i | 0 <= i < n :: rest[i] == entries[i];
      PushedFilesMatch(store, dir, rest, hash);
      var before, after := PushFiles(store, dir, rest, hash), PushFiles(store, dir, entries, hash);
      assert FileMatches(dir, entries[n], hash);
      forall i | 0 <= i < |entries| ensures FileMatches(after, entries[i], hash)
      {
        if i < n {
          assert FileMatches(before, rest[i], hash);
        }
      }
      forall p | !Lists(entries, p) ensures p != entries[n].path && !Lists(rest, p)
      {
        assert entries[n].path != p;
      }
    }
  }

  lemma {:induction false} UploadedFilesMatch(store: Tree, dir: Tree, entries: seq<FileEntry>, hash: Hash)
    requires AllMatch(dir, entries, hash)
    ensures AllMatch(UploadAll(store, dir, entries), entries, hash)
    ensures forall p | !Lists(entries, p) ::
              (p in UploadAll(store, dir, entries) <==> p in store)
              && (p in store ==> UploadAll(store, dir, entries)[p] == store[p])
  {
    MatchingIsConsistent(dir, entries, hash);
    if entries != [] {
      var n := |entries| - 1;
      var rest := entries[..n];
      assert forall i | 0 <= i < n :: rest[i] == entries[i];
      UploadedFilesMatch(store, dir, rest, hash);
      var before, after := UploadAll(store, dir, rest), UploadAll(store, dir, entries);
      assert FileMatches(dir, entries[n], hash);
      forall i | 0 <= i < |entries| ensures FileMatches(after, entries[i], hash)
      {
        if i < n {
          assert FileMatches(before, rest[i], hash);
        }
      }
      forall p | !Lists(entries, p) ensures p != entries[n].path && !Lists(rest, p)
      {
        assert entries[n].path != p;
      }
    }
  }

  /** Skipping what is already there is invisible: every path ends with the same size and hash. */
  lemma SkippingRefinesUploading(store: Tree, dir: Tree, entries: seq<FileEntry>, hash: Hash, path: string)
    requires AllMatch(dir, entries, hash)
    ensures Identity(PushFiles(store, dir, entries, hash), path, hash)
         == Identity(UploadAll(store, dir, entries), path, hash)
  {
    PushedFilesMatch(store, dir, entries, hash);
    UploadedFilesMatch(store, dir, entries, hash);
    if Lists(entries, path) {
      var i :| 0 <= i < |entries| && entries[i].path == path;
      assert FileMatches(PushFiles(store, dir, entries, hash), entries[i], hash);
      assert FileMatches(UploadAll(store, dir, entries), entries[i], hash);
    }
  }

  /** A listing over several directories of entries: all matching files make a Push write none of them. */
  lemma {:induction false} PushOfAMatchingStore(store: Tree, dir: Tree, entries: seq<FileEntry>, hash: Hash)
    requires AllMatch(store, entries, hash)
    ensures PushFiles(store, dir, entries, hash) == store
  {
    if entries != [] {
      var n := |entries| - 1;
      assert forall i | 0 <= i < n :: entries[..n][i] == entries[i];
      PushOfAMatchingStore(store, dir, entries[..n], hash);
      assert FileMatches(store, entries[n], hash);
    }
  }

  method WriteManifest(store: LocalStore, sm: StoreManifest, codec: Codec, chunk: nat, fault: PutFault)
    returns (ok: bool)
    requires chunk > 0
    modifies store
    ensures ok ==> store.objects == old(store.objects)[MANIFEST_NAME := codec.encode(sm)]
    ensures !ok ==> Visible(store.objects) == Visible(old(store.objects))
    ensures old(store.history) <= store.history
    ensures ok <==> fault.NoPutFault?
  {
    var tmp;
    ok, tmp := store.Put(Some(codec.encode(sm)), MANIFEST_NAME, chunk, fault);
  }

  lemma PushFilesNext(store: Tree, dir: Tree, entries: seq<FileEntry>, i: nat, hash: Hash)
    requires i < |entries|
    ensures TotalSize(entries[..i + 1]) == TotalSize(entries[..i]) + entries[i].size
    ensures var before := PushFiles(store, dir, entries[..i], hash);
            PushFiles(store, dir, entries[..i + 1], hash) ==
            if FileMatches(before, entries[i], hash) || entries[i].path !in dir then before
            else before[entries[i].path := dir[entries[i].path]]
  {
    assert entries[..i + 1][..i] == entries[..i] && entries[..i + 1][i] == entries[i];
  }

  lemma MatchingSoFar(store: Tree, dir: Tree, entries: seq<FileEntry>, i: nat, hash: Hash)
    requires i < |entries| && AllMatch(store, entries, hash)
    ensures PushFiles(store, dir, entries[..i], hash) == store && FileMatches(store, entries[i], hash)
  {
    assert forall j | 0 <= j < i :: entries[..i][j] == entries[j];
    PushOfAMatchingStore(store, dir, entries[..i], hash);
  }

  /**
   * Uploads what is missing or differs, then the manifest. `faults` says how each Put goes, the
   * manifest's last; `puts` counts the files uploaded.
   */
  method Push(repo: string, sha: string, now: string, dir: LocalStore, entries: seq<FileEntry>, store: LocalStore,
              hash: Hash, codec: Codec, chunk: nat, faults: seq<PutFault>)
    returns (ok: bool, puts: nat)
    requires chunk > 0 && |faults| == |entries| + 1 && dir != store
    modifies store
    ensures ok ==> store.objects == PushFiles(old(store.objects), dir.objects, entries, hash)
                     [MANIFEST_NAME := codec.encode(StoreManifest(repo, sha, now, TotalSize(entries), entries))]
    ensures !ok ==> exists n | 0 <= n <= |entries| ::
                      Visible(store.objects) == Visible(PushFiles(old(store.objects), dir.objects, entries[..n], hash))
    ensures AllMatch(old(store.objects), entries, hash) ==> puts == 0
    ensures (forall k | 0 <= k < |faults| :: faults[k].NoPutFault?) && AllMatch(dir.objects, entries, hash) ==> ok
  {
    var total := 0;
    puts := 0;
    for i := 0 to |entries|
      invariant total == TotalSize(entries[..i])
      invariant store.objects == PushFiles(old(store.objects), dir.objects, entries[..i], hash)
      invariant AllMatch(old(store.objects), entries, hash) ==> puts == 0
    {
      var f := entries[i];
      PushFilesNext(old(store.objects), dir.objects, entries, i, hash);
      total := total + f.size;
      if AllMatch(old(store.objects), entries, hash) {
        MatchingSoFar(old(store.objects), dir.objects, entries, i, hash);
      }
      if store.Size(f.path) == f.size {
        var sum := store.SHA256(f.path, hash);
        if sum == Some(f.sha256) {
          continue;
        }
      }
      var src := if f.path in dir.objects then Some(dir.objects[f.path]) else None;
      if AllMatch(dir.objects, entries, hash) {
        assert FileMatches(dir.objects, entries[i], hash);
      }
      var put, tmp := store.Put(src, f.path, chunk, faults[i]);
      puts := puts + 1;
      if !put {
        return false, puts;
      }
    }
    assert entries[..|entries|] == entries;
    ok := WriteManifest(store, StoreManifest(repo, sha, now, total, entries), codec, chunk, faults[|entries|]);
  }

  /** A successful Push of verified files is accepted by Verify, and its manifest totals the sizes. */
  lemma PushedStoreVerifies(store: Tree, dir: Tree, sm: StoreManifest, hash: Hash, codec: Codec)
    requires codec.RoundTrips()
    requires AllMatch(dir, sm.files, hash) && !Lists(sm.files, MANIFEST_NAME)
    ensures var pushed := PushFiles(store, dir, sm.files, hash)[MANIFEST_NAME := codec.encode(sm)];
            Verified(pushed, codec, hash) && ReadManifest(pushed, codec) == Some(sm)
  {
    PushedFilesMatch(store, dir, sm.files, hash);
    var files := PushFiles(store, dir, sm.files, hash);
    var pushed := files[MANIFEST_NAME := codec.encode(sm)];
    forall i | 0 <= i < |sm.files| ensures FileMatches(pushed, sm.files[i], hash)
    {
      assert FileMatches(files, sm.files[i], hash);
      assert sm.files[i].path != MANIFEST_NAME;
    }
  }

  // ----- verify -----

  method Verify(store: LocalStore, codec: Codec, hash: Hash) returns (ok: bool)
    ensures ok <==> Verified(store.objects, codec, hash)
  {
    var sm := ReadManifest(store.objects, codec);
    if sm.None? {
      return false;
    }
    var files := sm.value.files;
    for i := 0 to |files|
      invariant forall j | 0 <= j < i :: FileMatches(store.objects, files[j], hash)
    {
      var f := files[i];
      if store.Size(f.path) != f.size || store.SHA256(f.path, hash) != Some(f.sha256) {
        assert !FileMatches(store.objects, files[i], hash);
        return false;
      }
    }
    return true;
  }

  // ----- freeze -----

  /** What the Hub lists for a repository, once all pages are in. */
  method PublishedTree(start: string, server: Server<RawEntry>, base: URL, resolve: Resolver)
    returns (r: Result<seq<TreeFile>, MirrorError>, ghost urls: seq<string>, ghost pages: seq<seq<RawEntry>>)
    ensures r.Ok? ==> Complete(start, urls, pages, server, base, resolve) && r.value == FilesOf(Flatten(pages))
                      && r.value != []
    ensures forall us: seq<string>, ps: seq<seq<RawEntry>>
              | Complete(start, us, ps, server, base, resolve) && |ps| <= MAX_TREE_PAGES && FilesOf(Flatten(ps)) != [] ::
                r == Ok(FilesOf(Flatten(ps)))
  {
    var raw;
    raw, urls, pages := GetPaged(start, server, base, resolve);
    if raw.Err? {
      return Err(HubFailed(raw.error)), urls, pages;
    }
    var files, ok := TreeOf(raw.value);
    if !ok {
      return Err(EmptyTree), urls, pages;
    }
    r := Ok(files);
  }

  method Total(entries: seq<FileEntry>) returns (total: int)
    ensures total == TotalSize(entries)
  {
    total := 0;
    for i := 0 to |entries|
      invariant total == TotalSize(entries[..i])
    {
      assert entries[..i + 1][..i] == entries[..i];
      total := total + entries[i].size;
    }
    assert entries[..|entries|] == entries;
  }

  /**
   * Certifies a directory in place. Success means the whole published tree was read, every path is
   * allowed, every file agrees, and only the manifest was written.
   */
  method Freeze(repo: string, sha: string, now: string, start: string, server: Server<RawEntry>, base: URL,
                resolve: Resolver, policy: Policy, dir: LocalStore, hash: Hash, codec: Codec,
                chunk: nat, fault: PutFault)
    returns (r: Result<StoreManifest, MirrorError>, ghost urls: seq<string>, ghost pages: seq<seq<RawEntry>>)
    requires chunk > 0
    modifies dir
    ensures r.Ok? ==>
              && Mirrors(r.value.files, Flatten(pages))
              && (forall e | e in Flatten(pages) && e.kind == "file" :: PolicyAllows(policy, e.path))
    ensures r.Ok? ==>
              var files := FilesOf(Flatten(pages));
              && Complete(start, urls, pages, server, base, resolve)
              && (forall f | f in files :: PolicyAllows(policy, f.path))
              && AllAgree(old(dir.objects), files, hash)
              && Records(r.value.files, files, old(dir.objects), hash)
              && r.value == StoreManifest(repo, sha, now, TotalSize(r.value.files), r.value.files)
              && dir.objects == old(dir.objects)[MANIFEST_NAME := codec.encode(r.value)]
    ensures r.Err? ==> Visible(dir.objects) == Visible(old(dir.objects))
    ensures forall us: seq<string>, ps: seq<seq<RawEntry>>
              | Complete(start, us, ps, server, base, resolve) && |ps| <= MAX_TREE_PAGES
                && Publishable(FilesOf(Flatten(ps)), policy) && AllAgree(old(dir.objects), FilesOf(Flatten(ps)), hash)
                && fault.NoPutFault? :: r.Ok?
  {
    var tree;
    tree, urls, pages := PublishedTree(start, server, base, resolve);
    if tree.Err? {
      return Err(tree.error), urls, pages;
    }
    var allowed := CheckPolicy(policy, tree.value);
    if !allowed {
      return Err(PolicyViolation), urls, pages;
    }
    var entries := VerifyLocal(dir, tree.value, hash);
    if entries.Err? {
      return Err(entries.error), urls, pages;
    }
    var files := entries.value;
    AllowedPaths(Flatten(pages), policy);
    RecordsMirror(files, Flatten(pages), dir.objects, hash);
    var total := Total(files);
    var sm := StoreManifest(repo, sha, now, total, files);
    var ok := WriteManifest(dir, sm, codec, chunk, fault);
    if !ok {
      return Err(StoreFailed), urls, pages;
    }
    r := Ok(sm);
  }

  /**
   * A frozen directory verifies exactly when freezing did not overwrite a listed file: no entry is called
   * _manifest.json, or the manifest written happens to match the entry.
   */
  lemma FrozenDirectoryVerifies(before: Tree, files: seq<TreeFile>, sm: StoreManifest, hash: Hash, codec: Codec)
    requires codec.RoundTrips()
    requires AllAgree(before, files, hash) && Records(sm.files, files, before, hash)
    ensures var frozen := before[MANIFEST_NAME := codec.encode(sm)];
            && ReadManifest(frozen, codec) == Some(sm)
            && (Verified(frozen, codec, hash) <==>
                forall f | f in sm.files && f.path == MANIFEST_NAME :: Matches(codec.encode(sm), f, hash))
  {
    RecordsMatch(sm.files, files, before, hash);
    var frozen := before[MANIFEST_NAME := codec.encode(sm)];
    forall i | 0 <= i < |sm.files|
      ensures FileMatches(frozen, sm.files[i], hash) <==>
              (sm.files[i].path == MANIFEST_NAME ==> Matches(codec.encode(sm), sm.files[i], hash))
    {
      assert FileMatches(before, sm.files[i], hash);
    }
  }

  /** A published tree of one file, which has the manifest's name. */
  const NAMESAKE := TreeFile(MANIFEST_NAME, 1, "")

  /** Content of one byte that is not the given one. */
  function Another(content: Bytes): Bytes { if content == [0] then [1] else [0] }

  /**
   * The condition is not idle, whatever the encoder: a directory that agrees with a published tree, frozen
   * without an error, is refused by Verify.
   */
  lemma NamesakeIsLost(codec: Codec, repo: string, sha: string, now: string)
    requires codec.RoundTrips()
    ensures var sm := StoreManifest(repo, sha, now, 1, [FileEntry(MANIFEST_NAME, 1, "old")]);
            var before: Tree := map[MANIFEST_NAME := Another(codec.encode(sm))];
            var hash: Hash := b => if b == Another(codec.encode(sm)) then "old" else "new";
            && PolicyAllows(MIRROR_POLICY, NAMESAKE.path)
            && AllAgree(before, [NAMESAKE], hash) && Records(sm.files, [NAMESAKE], before, hash)
            && sm.totalBytes == TotalSize(sm.files)
            && !Verified(before[MANIFEST_NAME := codec.encode(sm)], codec, hash)
  {
    var entry := FileEntry(MANIFEST_NAME, 1, "old");
    var sm := StoreManifest(repo, sha, now, 1, [entry]);
    var replaced := Another(codec.encode(sm));
    var before: Tree := map[MANIFEST_NAME := replaced];
    var hash: Hash := b => if b == replaced then "old" else "new";
    ManifestNameIsAllowed();
    assert hash(replaced) == "old" && |replaced| == 1;
    assert AllAgree(before, [NAMESAKE], hash);
    assert Records([entry], [NAMESAKE], before, hash);
    FrozenDirectoryVerifies(before, [NAMESAKE], sm, hash, codec);
    assert entry in sm.files && entry.path == MANIFEST_NAME;
    assert "new"[0] != "old"[0];
    assert !Matches(codec.encode(sm), entry, hash);
    assert [entry][..0] == [] && TotalSize([entry]) == TotalSize([]) + 1;
  }

  /** The published tree may list _manifest.json itself: the policy lets the name through. */
  lemma ManifestNameIsAllowed()
    ensures PolicyAllows(MIRROR_POLICY, MANIFEST_NAME)
  {
    var stem, ext := MANIFEST_NAME[..9], MANIFEST_NAME[9..];
    assert stem + ext == MANIFEST_NAME;
    ManifestNameChars();
    ExtIs(stem, ext);
    LowerCaseStays(MANIFEST_NAME);
    LowerCaseStays(ext);
  }

  lemma ManifestNameChars()
    ensures '/' !in MANIFEST_NAME && TrimSlashes(MANIFEST_NAME) == MANIFEST_NAME
    ensures forall c | c in MANIFEST_NAME :: !Upper(c)
    ensures MANIFEST_NAME[9..] in MIRROR_POLICY.exts
    ensures MANIFEST_NAME[9] == '.' && '.' !in MANIFEST_NAME[10..]
  {
    assert MANIFEST_NAME[|MANIFEST_NAME| - 1] == 'n';
    assert MANIFEST_NAME[9..] == ".json";
  }
}

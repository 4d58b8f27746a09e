/** File contents, manifest entries, and what it means for one to match the other (internal/mirror/mirror.go). */
module Files {
  import opened Wrappers

  type Byte = bv8
  type Bytes = seq<Byte>
  type Tree = map<string, Bytes>

  /** SHA-256, about which nothing is assumed. */
  type Hash = Bytes -> string

  const MANIFEST_NAME := "_manifest.json"
  const LOCK_NAME := ".lock"

  datatype FileEntry = FileEntry(path: string, size: int, sha256: string)

  datatype StoreManifest = StoreManifest(hfRepo: string, revision: string, mirroredAt: string,
                                         totalBytes: int, files: seq<FileEntry>)

  /** Size first, then content hash: the identity the whole repository uses. */
  predicate Matches(content: Bytes, f: FileEntry, hash: Hash) {
    |content| == f.size && hash(content) == f.sha256
  }

  predicate FileMatches(tree: Tree, f: FileEntry, hash: Hash) {
    f.path in tree && Matches(tree[f.path], f, hash)
  }

  predicate AllMatch(tree: Tree, entries: seq<FileEntry>, hash: Hash) {
    forall i | 0 <= i < |entries| :: FileMatches(tree, entries[i], hash)
  }

  /** No two entries ask different things of one path. */
  ghost predicate Consistent(entries: seq<FileEntry>) {
    forall i, j | 0 <= i < |entries| && 0 <= j < |entries| && entries[i].path == entries[j].path ::
      entries[i] == entries[j]
  }

  predicate Lists(entries: seq<FileEntry>, path: string) {
    exists i | 0 <= i < |entries| :: entries[i].path == path
  }

  function TotalSize(entries: seq<FileEntry>): int {
    if entries == [] then 0 else TotalSize(entries[..|entries| - 1]) + entries[|entries| - 1].size
  }

  /** The JSON encoder and decoder of manifests. */
  datatype Codec = Codec(encode: StoreManifest -> Bytes, decode: Bytes -> Option<StoreManifest>)
  {
    ghost predicate RoundTrips() { forall sm :: decode(encode(sm)) == Some(sm) }
  }

  function ReadManifest(tree: Tree, codec: Codec): Option<StoreManifest> {
    if MANIFEST_NAME in tree then codec.decode(tree[MANIFEST_NAME]) else None
  }

  /** What Mirror.Verify accepts. */
  predicate Verified(tree: Tree, codec: Codec, hash: Hash) {
    var sm := ReadManifest(tree, codec);
    sm.Some? && AllMatch(tree, sm.value.files, hash)
  }
}

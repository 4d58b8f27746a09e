/** The directory-rooted object store (internal/mirror/store.go). */
module Store {
  import opened Wrappers
  import opened Text
  import opened Files

  const TEMP_PREFIX := ".put-"

  /** What List leaves out. */
  predicate Hidden(name: string) { HasPrefix(BaseName(name), TEMP_PREFIX) }

  function Visible(tree: Tree): Tree { map name | name in tree && !Hidden(name) :: tree[name] }

  /** Where the file system can fail a Put; a copy can fail after any number of bytes. */
  datatype PutFault = NoPutFault | MkdirFails | TempFails | CopyFails(after: nat) | CloseFails | RenameFails

  /** Where it can fail a Get; a failed flush leaves whatever reached the disk. */
  datatype GetFault = NoGetFault | NoDirectory | CreateFails | ReadFails(after: nat) | FlushFails(left: Bytes)

  /** The directory of `name`, with its trailing slash. */
  function DirOf(name: string): string {
    if '/' in name then Cut(name, '/').before + ['/'] + DirOf(Cut(name, '/').after) else ""
  }

  lemma {:induction false} InDirectory(dir: string, base: string)
    requires '/' !in base
    ensures BaseName(DirOf(dir) + base) == base
  {
    if '/' in dir {
      var cut := Cut(dir, '/');
      assert |cut.after| < |dir| by {
        CutParts(dir, '/');
      }
      InDirectory(cut.after, base);
      Descend(cut.before, DirOf(cut.after), base);
    } else {
      assert DirOf(dir) + base == base;
    }
  }

  lemma Descend(first: string, middle: string, base: string)
    requires '/' !in first
    ensures BaseName(first + ['/'] + middle + base) == BaseName(middle + base)
  {
    BaseNameBehind(first, middle + base);
    Assoc(first + ['/'], middle, base);
  }

  /** A name is its directory and its base, and any other base can take that place. */
  lemma {:induction false} DirAndBase(name: string)
    ensures DirOf(name) + BaseName(name) == name && '/' !in BaseName(name)
  {
    CutParts(name, '/');
    if '/' in name {
      var cut := Cut(name, '/');
      DirAndBase(cut.after);
      Assoc(cut.before + ['/'], DirOf(cut.after), BaseName(cut.after));
    }
  }

  lemma {:induction false} SameDirectory(name: string, base: string)
    requires '/' !in base
    ensures DirOf(DirOf(name) + base) == DirOf(name)
  {
    if '/' in name {
      var cut := Cut(name, '/');
      CutParts(name, '/');
      SameDirectory(cut.after, base);
      var rest := DirOf(cut.after) + base;
      Assoc(cut.before + ['/'], DirOf(cut.after), base);
      CutAt(cut.before, '/', rest);
      assert (cut.before + ['/'] + rest)[|cut.before|] == '/';
    } else {
      assert DirOf(name) + base == base;
    }
  }

  function Zeros(n: nat): string { seq(n, _ => '0') }

  /**
   * A directory tree. `objects` is what is on disk now, temporaries included; `history` is every content
   * the disk has had, oldest first, so a crash leaves the tree in one of its elements.
   */
  class LocalStore {
    var objects: Tree
    ghost var history: seq<Tree>

    constructor (initial: Tree)
      ensures objects == initial && history == [initial]
    {
      objects := initial;
      history := [initial];
    }

    /** The states a call went through, the one it started from excluded. */
    twostate predicate Extends()
      reads this
    {
      old(history) <= history
    }

    method Write(name: string, content: Bytes)
      modifies this
      ensures objects == old(objects)[name := content]
      ensures history == old(history) + [objects]
    {
      objects := objects[name := content];
      history := history + [objects];
    }

    method Remove(name: string)
      modifies this
      ensures objects == old(objects) - {name}
      ensures history == old(history) + [objects]
    {
      objects := objects - {name};
      history := history + [objects];
    }

    method Rename(from: string, to: string)
      requires from in objects
      modifies this
      ensures objects == (old(objects) - {from})[to := old(objects)[from]]
      ensures history == old(history) + [objects]
    {
      objects := (objects - {from})[to := objects[from]];
      history := history + [objects];
    }

    /** Another program rewrote the directory. */
    method Replace(tree: Tree)
      modifies this
      ensures objects == tree
      ensures history == old(history) + [objects]
    {
      objects := tree;
      history := history + [objects];
    }

    /** os.CreateTemp's choice: a hidden name beside `remote` that nothing uses. */
    method FreshTemp(remote: string) returns (tmp: string)
      ensures Hidden(tmp) && tmp !in objects && tmp != remote
      ensures DirOf(tmp) == DirOf(remote)
    {
      var longest := |remote|;
      var names := objects.Keys;
      while names != {}
        invariant longest >= |remote|
        invariant forall n | n in objects.Keys - names :: |n| <= longest
      {
        var n :| n in names;
        if |n| > longest {
          longest := |n|;
        }
        names := names - {n};
      }
      var base := TEMP_PREFIX + Zeros(longest);
      tmp := DirOf(remote) + base;
      InDirectory(remote, base);
      SameDirectory(remote, base);
      assert objects.Keys - names == objects.Keys;
      assert |tmp| > longest;
    }

    /**
     * Upload through a temporary and a rename. However far it gets, everything but its own temporary is
     * as before, or as before with the whole new object in place.
     */
    method Put(src: Option<Bytes>, remote: string, chunk: nat, fault: PutFault) returns (ok: bool, tmp: string)
      requires chunk > 0
      modifies this
      ensures ok <==> src.Some? && fault.NoPutFault?
      ensures Hidden(tmp) && tmp !in old(objects) && tmp != remote && DirOf(tmp) == DirOf(remote)
      ensures ok ==> objects == old(objects)[remote := src.value]
      ensures !ok && src.Some? && fault in {CloseFails, RenameFails} ==> objects == old(objects)[tmp := src.value]
      ensures !ok && (src.None? || fault !in {CloseFails, RenameFails}) ==> objects == old(objects)
      ensures Extends()
      ensures forall k | |old(history)| <= k < |history| ::
                || history[k] - {tmp} == old(objects)
                || (ok && history[k] - {tmp} == old(objects)[remote := src.value])
    {
      tmp := FreshTemp(remote);
      if fault.MkdirFails? || src.None? || fault.TempFails? {
        return false, tmp;
      }
      var content := src.value;
      Write(tmp, []);
      var copied := 0;
      while copied < |content|
        invariant copied <= |content|
        invariant objects == old(objects)[tmp := content[..copied]]
        invariant old(history) <= history
        invariant forall k | |old(history)| <= k < |history| :: history[k] - {tmp} == old(objects)
      {
        if fault.CopyFails? && fault.after <= copied {
          break;
        }
        copied := if copied + chunk < |content| then copied + chunk else |content|;
        Write(tmp, content[..copied]);
      }
      if fault.CopyFails? {
        Remove(tmp);
        return false, tmp;
      }
      assert content[..copied] == content;
      if fault.CloseFails? || fault.RenameFails? {
        return false, tmp;
      }
      Rename(tmp, remote);
      ok := true;
    }

    /**
     * Download into `dest`, truncating first: the target holds a prefix of the object at every step, so
     * unlike Put it is not atomic.
     */
    method Get(remote: string, dest: LocalStore, local: string, chunk: nat, fault: GetFault) returns (ok: bool)
      requires chunk > 0 && dest != this
      modifies dest
      ensures ok <==> remote in objects && fault.NoGetFault?
      ensures ok ==> dest.objects == old(dest.objects)[local := objects[remote]]
      ensures dest.objects.Keys + {local} == old(dest.objects).Keys + {local}
      ensures forall n | n in old(dest.objects) && n != local :: dest.objects[n] == old(dest.objects)[n]
      ensures remote !in objects ==> dest.objects == old(dest.objects)
      ensures old(dest.history) <= dest.history
      ensures forall k | |old(dest.history)| <= k < |dest.history| ::
                && remote in objects && local in dest.history[k]
                && dest.history[k] == old(dest.objects)[local := dest.history[k][local]]
                && (dest.history[k][local] <= objects[remote]
                    || (fault.FlushFails? && dest.history[k][local] == fault.left))
    {
      if fault.NoDirectory? || remote !in objects || fault.CreateFails? {
        return false;
      }
      var content := objects[remote];
      dest.Write(local, []);
      var copied := 0;
      while copied < |content|
        invariant copied <= |content|
        invariant dest.objects == old(dest.objects)[local := content[..copied]]
        invariant objects == old(objects)
        invariant old(dest.history) <= dest.history
        invariant forall k | |old(dest.history)| <= k < |dest.history| ::
                    && local in dest.history[k]
                    && dest.history[k] == old(dest.objects)[local := dest.history[k][local]]
                    && dest.history[k][local] <= content
      {
        if fault.ReadFails? && fault.after <= copied {
          break;
        }
        copied := if copied + chunk < |content| then copied + chunk else |content|;
        dest.Write(local, content[..copied]);
      }
      if fault.ReadFails? {
        return false;
      }
      if fault.FlushFails? {
        dest.Write(local, fault.left);
        return false;
      }
      assert content[..copied] == content;
      ok := true;
    }

    /** Every object, temporaries left out, each once. */
    method List() returns (out: seq<string>)
      ensures forall n :: n in out <==> n in Visible(objects)
      ensures forall i, j | 0 <= i < j < |out| :: out[i] != out[j]
    {
      out := [];
      var rest := objects.Keys;
      while rest != {}
        invariant rest <= objects.Keys
        invariant forall n :: n in out <==> n in objects.Keys - rest && !Hidden(n)
        invariant forall i, j | 0 <= i < j < |out| :: out[i] != out[j]
      {
        var n :| n in rest;
        rest := rest - {n};
        if Hidden(n) {
          continue;
        }
        out := out + [n];
      }
    }

    /** -1 when there is no such object. */
    function Size(remote: string): (n: int)
      reads this
      ensures n == -1 <==> remote !in objects
      ensures n >= 0 ==> n == |objects[remote]|
    {
      if remote in objects then |objects[remote]| else -1
    }

    function SHA256(remote: string, hash: Hash): Option<string>
      reads this
    {
      if remote in objects then Some(hash(objects[remote])) else None
    }
  }

  lemma WithoutTemp(during: Tree, tmp: string)
    requires Hidden(tmp)
    ensures Visible(during) == Visible(during - {tmp})
  {
    var rest := during - {tmp};
    assert forall n | n in during && n != tmp :: n in rest && rest[n] == during[n];
  }

  lemma VisiblePut(before: Tree, remote: string, content: Bytes)
    requires !Hidden(remote)
    ensures Visible(before[remote := content]) == Visible(before)[remote := content]
  {
  }

  /** A Put seen through List: at every step exactly the old keys, or the old keys and the new object. */
  lemma PutIsAtomicToReaders(before: Tree, during: Tree, tmp: string, remote: string, content: Bytes)
    requires Hidden(tmp) && !Hidden(remote)
    requires during - {tmp} == before || during - {tmp} == before[remote := content]
    requires tmp !in before
    ensures Visible(during) == Visible(before) || Visible(during) == Visible(before)[remote := content]
  {
    WithoutTemp(during, tmp);
    VisiblePut(before, remote, content);
  }
}

/**
 A quiescent host file system. A handle is the absolute path of its directory entry, as the
 link /proc/self/fd/N shows it: a sequence of names from the host's root. Directories carry an
 inode number, because the walker compares inodes, and two directories may share one: that is
 what a bind mount of the root below itself looks like.
 */
module FileTree {
  import opened Results

  type Name = string
  type Path = seq<Name>

  datatype Errno =
    | ENOENT | ENOTDIR | ELOOP | EINVAL | EACCES | EPERM | EEXIST | ENOTEMPTY | EISDIR | ESTALE
    | OtherErrno(code: int)

  datatype Node = Directory(inode: nat) | Symlink(target: string) | Leaf

  /**
   lookupFault: errors of looking a name up in a directory (no search permission, name too long).
   followFault: the verdicts of may_follow_link, by link. magic: links on nd_jump_link file systems.
   createFault: errors of mkdirat. pinned: entries that cannot be removed (busy, immutable).
   nextInode: the number the next new directory gets.
   */
  datatype Fs = Fs(
    nodes: map<Path, Node>,
    lookupFault: map<(Path, Name), Errno>,
    followFault: map<Path, Errno>,
    magic: set<Path>,
    createFault: map<(Path, Name), Errno>,
    pinned: set<Path>,
    nextInode: nat)

  predicate IsDir(fs: Fs, p: Path) {
    p in fs.nodes && fs.nodes[p].Directory?
  }

  predicate IsLink(fs: Fs, p: Path) {
    p in fs.nodes && fs.nodes[p].Symlink?
  }

  function Parent(p: Path): Path {
    if p == [] then [] else p[..|p| - 1]
  }

  predicate ProperName(n: Name) {
    n != "" && n != "." && n != ".." && '/' !in n
  }

  predicate Seated(fs: Fs, p: Path) {
    && (p in fs.nodes && p != [] ==> IsDir(fs, Parent(p)) && ProperName(p[|p| - 1]))
    && (IsDir(fs, p) ==> fs.nodes[p].inode < fs.nextInode)
  }

  /** A tree: every entry but the host's root sits in a directory, under a proper name; inode
      numbers are below the next one. */
  ghost predicate ValidFs(fs: Fs) {
    && IsDir(fs, [])
    && (forall p :: Seated(fs, p))
    && (forall k :: k in fs.lookupFault ==> fs.lookupFault[k] != ENOENT)
  }

  /** openat(dir, name, O_PATH | O_NOFOLLOW): the entry itself, never what a link points to. */
  function OpenAt(fs: Fs, dir: Path, name: Name): Result<Path, Errno> {
    if !IsDir(fs, dir) then Failure(ENOTDIR)
    else if (dir, name) in fs.lookupFault then Failure(fs.lookupFault[(dir, name)])
    else if name == "." then Success(dir)
    else if name == ".." then Success(Parent(dir))
    else if dir + [name] in fs.nodes then Success(dir + [name])
    else Failure(ENOENT)
  }

  predicate Within(root: Path, p: Path) {
    root <= p
  }

  lemma {:induction false} OpenAtFinds(fs: Fs, dir: Path, name: Name)
    requires ValidFs(fs)
    requires OpenAt(fs, dir, name).Success?
    ensures OpenAt(fs, dir, name).value in fs.nodes
    ensures name == ".." && dir != [] ==> OpenAt(fs, dir, name).value == Parent(dir) && IsDir(fs, Parent(dir))
    ensures name != "." && name != ".." ==> OpenAt(fs, dir, name).value == dir + [name] && ProperName(name)
  {
    assert Seated(fs, dir);
    if name != "." && name != ".." {
      assert Seated(fs, dir + [name]);
      assert (dir + [name])[|dir + [name]| - 1] == name;
    }
  }

  lemma {:induction false} AncestorIsDir(fs: Fs, p: Path, n: nat)
    requires ValidFs(fs) && p in fs.nodes && n < |p|
    ensures IsDir(fs, p[..n])
    decreases |p|
  {
    assert Seated(fs, p);
    if n < |p| - 1 {
      AncestorIsDir(fs, Parent(p), n);
      assert Parent(p)[..n] == p[..n];
    }
  }
}

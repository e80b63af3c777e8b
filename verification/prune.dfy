/**
  Removing the empty directories of a tree: the recursive walk over a file system that it changes as
  it goes, some of whose directories may refuse to be removed or to be read.
 */
module Prune {

  /** A path is the sequence of its names. */
  type Path = seq<string>

  /** What makes a directory stay: it is the root, or some file is beneath it, or some directory at or
      beneath it cannot be removed. */
  ghost predicate Kept(root: Path, files: set<Path>, stuck: set<Path>, d: Path) {
    || d == root
    || (exists f | f in files :: d <= f)
    || (exists s | s in stuck :: d <= s)
  }

  /** The directories that are left when those from `top` on are pruned. */
  ghost function Pruned(root: Path, dirs: set<Path>, files: set<Path>, stuck: set<Path>, top: Path): set<Path> {
    set d | d in dirs && (!(top <= d) || Kept(root, files, stuck, d))
  }

  function Parent(p: Path): Path {
    if p == [] then [] else p[..|p| - 1]
  }

  /** A tree: everything is beneath the root, in directories that exist. */
  ghost predicate IsTree(root: Path, dirs: set<Path>, files: set<Path>) {
    && root in dirs
    && dirs !! files
    && (forall p | p in dirs :: root <= p)
    && (forall p | p in files :: root <= p)
    && (forall p {:trigger Parent(p)} | p in dirs && p != root :: Parent(p) in dirs)
    && (forall p {:trigger Parent(p)} | p in files && p != root :: Parent(p) in dirs)
    && root !in files
  }

  /** In a tree every prefix of a path, from the root on, is a directory. */
  lemma {:induction false} PrefixesExist(root: Path, dirs: set<Path>, files: set<Path>, p: Path, n: nat)
    requires IsTree(root, dirs, files) && p in dirs && |root| <= n <= |p|
    ensures p[..n] in dirs
    decreases |p|
  {
    if n < |p| {
      assert p != root;
      var parent := Parent(p);
      PrefixesExist(root, dirs, files, parent, n);
      assert parent[..n] == p[..n];
    } else {
      assert p[..n] == p;
    }
  }

  /** Pruning keeps every file where it is, and the tree a tree. */
  lemma PrunedIsTree(root: Path, dirs: set<Path>, files: set<Path>, stuck: set<Path>)
    requires IsTree(root, dirs, files) && stuck <= dirs
    ensures IsTree(root, Pruned(root, dirs, files, stuck, root), files)
  {
    var left := Pruned(root, dirs, files, stuck, root);
    forall p | p in left && p != root ensures Parent(p) in left {
      assert p in dirs && root <= p;
      ParentIsKept(root, files, stuck, p);
    }
    forall p | p in files ensures Parent(p) in left {
      assert root <= p && p != root && Parent(p) in dirs && Parent(p) <= p;
    }
  }

  lemma ParentIsKept(root: Path, files: set<Path>, stuck: set<Path>, p: Path)
    requires Kept(root, files, stuck, p) && p != root && p != []
    ensures Kept(root, files, stuck, Parent(p))
  {
    if f :| f in files && p <= f {
      assert Parent(p) <= f;
    } else {
      var s :| s in stuck && p <= s;
      assert Parent(p) <= s;
    }
  }

  /** When every removal succeeds, no directory but the root is left without a file beneath it. */
  lemma NoEmptyDirectoryIsLeft(root: Path, dirs: set<Path>, files: set<Path>, d: Path)
    requires IsTree(root, dirs, files)
    ensures d in Pruned(root, dirs, files, {}, root) <==>
            d in dirs && (d == root || exists f | f in files :: d <= f)
  {
    assert d in dirs ==> d in dirs + files && root <= d;
  }

  /** Pruning again removes nothing. */
  lemma PruningTwiceIsOnce(root: Path, dirs: set<Path>, files: set<Path>, stuck: set<Path>,
      top: Path)
    requires stuck <= dirs
    ensures var once := Pruned(root, dirs, files, stuck, top);
            Pruned(root, once, files, stuck, top) == once && stuck <= once
  {
    forall s | s in stuck ensures Kept(root, files, stuck, s) {
      assert s <= s;
    }
  }

  /** What is left once the subdirectories of `dir` other than the pending ones are pruned. */
  ghost function WalkedTo(root: Path, before: set<Path>, files: set<Path>, stuck: set<Path>,
                          dir: Path, pending: set<Path>): set<Path> {
    set d | d in before && (!(dir < d) || Kept(root, files, stuck, d) || d[..|dir| + 1] in pending)
  }

  /** Pruning one more subdirectory. */
  lemma OneFurther(root: Path, before: set<Path>, files: set<Path>, stuck: set<Path>,
                   dir: Path, pending: set<Path>, subdir: Path)
    requires subdir in pending && forall p | p in pending :: p in before && |p| == |dir| + 1 && dir <= p
    ensures pending - {subdir} <= WalkedTo(root, before, files, stuck, dir, pending - {subdir}) <= before
    ensures Pruned(root, WalkedTo(root, before, files, stuck, dir, pending), files, stuck, subdir)
         == WalkedTo(root, before, files, stuck, dir, pending - {subdir})
  {
    forall p | p in pending ensures p[..|dir| + 1] == p {
    }
    forall d | d in before && dir < d ensures subdir <= d <==> d[..|dir| + 1] == subdir {
    }
  }

  /** Before any subdirectory is pruned nothing is gone. */
  lemma NoneWalked(root: Path, before: set<Path>, files: set<Path>, stuck: set<Path>, dir: Path,
      pending: set<Path>)
    requires IsTree(root, before, files) && dir in before
    requires pending == set p | p in before && |p| == |dir| + 1 && dir <= p
    ensures WalkedTo(root, before, files, stuck, dir, pending) == before
  {
    forall d | d in before && dir < d ensures d[..|dir| + 1] in pending {
      PrefixesExist(root, before, files, d, |dir| + 1);
    }
  }

  /** A directory with something beneath it has an entry. */
  lemma HasAnEntry(root: Path, dirs: set<Path>, files: set<Path>, dir: Path, p: Path)
    requires IsTree(root, dirs, files) && dir in dirs && p in dirs + files && dir < p
    ensures Entries(dirs + files, dir) != {}
  {
    var d := if p in files then Parent(p) else p;
    if dir == d {
      assert p in Entries(dirs + files, dir);
    } else {
      PrefixesExist(root, dirs, files, d, |dir| + 1);
      assert d[..|dir| + 1] in Entries(dirs + files, dir);
    }
  }

  /** A directory whose subdirectories are pruned is empty exactly when nothing makes it stay. */
  lemma EmptyIffNotKept(root: Path, dirs: set<Path>, files: set<Path>, stuck: set<Path>, dir: Path)
    requires IsTree(root, dirs, files) && stuck <= dirs && dir in dirs && dir != root && dir !in stuck
    requires forall p | p in dirs && dir < p :: Kept(root, files, stuck, p)
    ensures Entries(dirs + files, dir) == {} <==> !Kept(root, files, stuck, dir)
  {
    if Kept(root, files, stuck, dir) {
      var p: Path;
      if f :| f in files && dir <= f {
        p := f;
      } else {
        p :| p in stuck && dir <= p;
      }
      assert |p| == |dir| ==> p == dir;
      HasAnEntry(root, dirs, files, dir, p);
    } else if p :| p in Entries(dirs + files, dir) {
      assert root <= dir && |p| == |dir| + 1;
      assert p in files ==> Kept(root, files, stuck, dir);
      KeptBelow(root, files, stuck, dir, p);
    }
  }

  /** Whatever makes a directory stay, other than being the root, makes those above it stay. */
  lemma KeptBelow(root: Path, files: set<Path>, stuck: set<Path>, dir: Path, p: Path)
    requires dir <= p && Kept(root, files, stuck, p) && !Kept(root, files, stuck, dir)
    ensures p == root
  {
    if f :| f in files && p <= f {
      assert dir <= f;
    } else if s :| s in stuck && p <= s {
      assert dir <= s;
    }
  }

  /** Removing an empty directory leaves a tree. */
  lemma RemainsATree(root: Path, dirs: set<Path>, files: set<Path>, dir: Path)
    requires IsTree(root, dirs, files) && dir != root && Entries(dirs + files, dir) == {}
    ensures IsTree(root, dirs - {dir}, files)
  {
    forall p | p in dirs + files && p != root ensures Parent(p) != dir {
      assert p !in Entries(dirs + files, dir);
    }
  }

  /** The entries of a directory among some paths. */
  function Entries(paths: set<Path>, dir: Path): set<Path> {
    set p | p in paths && |p| == |dir| + 1 && dir <= p
  }

  /** Whatever refuses, a directory that is empty after pruning is the root or one that refused. */
  lemma OnlyRefusingAreEmpty(root: Path, dirs: set<Path>, files: set<Path>, stuck: set<Path>,
      d: Path)
    requires IsTree(root, dirs, files) && stuck <= dirs
    requires var left := Pruned(root, dirs, files, stuck, root); d in left && Entries(left + files, d) == {}
    ensures d == root || d in stuck
  {
    var left := Pruned(root, dirs, files, stuck, root);
    PrunedIsTree(root, dirs, files, stuck);
    if d != root && d !in stuck {
      assert root <= d && Kept(root, files, stuck, d);
      EveryStuckIsLeft(root, dirs, files, stuck);
      EmptyIffNotKept(root, left, files, stuck, d);
    }
  }

  lemma EveryStuckIsLeft(root: Path, dirs: set<Path>, files: set<Path>, stuck: set<Path>)
    requires IsTree(root, dirs, files) && stuck <= dirs
    ensures var left := Pruned(root, dirs, files, stuck, root);
            stuck <= left && forall p | p in left :: Kept(root, files, stuck, p)
  {
    forall s | s in stuck ensures Kept(root, files, stuck, s) {
      assert s <= s;
    }
    forall p | p in Pruned(root, dirs, files, stuck, root) ensures Kept(root, files, stuck, p) {
      assert p in dirs && root <= p;
    }
  }

  /** What the walk does after the subdirectories are pruned: the directory itself goes exactly when it
      is empty, can go, and is not the root. */
  lemma LastStep(root: Path, before: set<Path>, files: set<Path>, stuck: set<Path>, dir: Path)
    requires IsTree(root, before, files) && dir in before
    requires var dirs := WalkedTo(root, before, files, stuck, dir, {}); IsTree(root, dirs, files) && stuck <= dirs
    ensures var dirs := WalkedTo(root, before, files, stuck, dir, {});
            Pruned(root, before, files, stuck, dir) ==
            if Entries(dirs + files, dir) == {} && dir != root && dir !in stuck then dirs - {dir} else dirs
  {
    var dirs := WalkedTo(root, before, files, stuck, dir, {});
    forall d | d in before && d != dir ensures dir <= d <==> dir < d {
      assert dir <= d && |d| == |dir| ==> d == dir;
    }
    if dir != root && dir !in stuck {
      EmptyIffNotKept(root, dirs, files, stuck, dir);
      assert dir <= dir && (dir in Pruned(root, before, files, stuck, dir) <==> Kept(root, files, stuck, dir));
    } else {
      assert dir <= dir && Kept(root, files, stuck, dir);
    }
  }

  // ---- what refuses ----------------------------------------------------------------------------

  /** What a walk from `dir` on cannot remove: the directories that refuse to go, and those that it
      does not get to because one above them, or they themselves, cannot be read. */
  ghost function StuckIn(dirs: set<Path>, refusing: set<Path>, unreadable: set<Path>, dir: Path): set<Path> {
    set d | d in dirs && (d in refusing || exists u | u in unreadable :: dir <= u <= d)
  }

  /** An unreadable directory keeps everything beneath it. */
  lemma UnreadableKeepsAll(root: Path, dirs: set<Path>, files: set<Path>, refusing: set<Path>,
                           unreadable: set<Path>, dir: Path)
    requires dir in unreadable
    ensures Pruned(root, dirs, files, StuckIn(dirs, refusing, unreadable, dir), dir) == dirs
  {
    forall d | d in dirs && dir <= d ensures d in StuckIn(dirs, refusing, unreadable, dir) && d <= d {
      assert dir <= dir;
    }
  }

  /** What is stuck stays stuck as long as it stays. */
  lemma StuckStays(dirs: set<Path>, left: set<Path>, refusing: set<Path>, unreadable: set<Path>,
      dir: Path)
    requires StuckIn(dirs, refusing, unreadable, dir) <= left <= dirs
    ensures StuckIn(left, refusing, unreadable, dir) == StuckIn(dirs, refusing, unreadable, dir)
  {
  }

  /** Below a subdirectory of a readable directory the walk meets the same that is stuck. */
  lemma StuckBelow(root: Path, dirs: set<Path>, files: set<Path>, refusing: set<Path>,
      unreadable: set<Path>,
                   dir: Path, subdir: Path)
    requires dir !in unreadable && |subdir| == |dir| + 1 && dir <= subdir
    ensures Pruned(root, dirs, files, StuckIn(dirs, refusing, unreadable, subdir), subdir)
         == Pruned(root, dirs, files, StuckIn(dirs, refusing, unreadable, dir), subdir)
  {
    var near, far := StuckIn(dirs, refusing, unreadable, subdir), StuckIn(dirs, refusing, unreadable, dir);
    forall s | s in dirs && subdir <= s ensures s in near <==> s in far {
      forall u | u in unreadable && u <= s ensures dir <= u <==> subdir <= u {
        assert dir <= u && |u| == |dir| ==> u == dir;
      }
    }
    forall d | subdir <= d ensures Kept(root, files, near, d) <==> Kept(root, files, far, d) {
      forall s | s in dirs && d <= s ensures subdir <= s {
      }
    }
  }

  /** Nothing that is stuck is pruned. */
  lemma StuckIsLeft(root: Path, dirs: set<Path>, files: set<Path>, stuck: set<Path>, top: Path)
    requires stuck <= dirs
    ensures stuck <= Pruned(root, dirs, files, stuck, top)
  {
    forall s | s in stuck ensures Kept(root, files, stuck, s) {
      assert s <= s;
    }
  }

  // ---- the walk ------------------------------------------------------------------------------

  class FileSystem {
    const downloadDir: Path

    /** Directories that the operating system refuses to remove, and those it refuses to read. */
    const refusing: set<Path>
    const unreadable: set<Path>

    var dirs: set<Path>
    var files: set<Path>

    constructor (downloadDir: Path, refusing: set<Path>, unreadable: set<Path>, dirs: set<Path>, files: set<Path>)
      requires IsTree(downloadDir, dirs, files)
      ensures Valid() && this.downloadDir == downloadDir && this.refusing == refusing && this.unreadable == unreadable
      ensures this.dirs == dirs && this.files == files
    {
      this.downloadDir, this.refusing, this.unreadable := downloadDir, refusing, unreadable;
      this.dirs, this.files := dirs, files;
    }

    ghost predicate Valid()
      reads this
    {
      IsTree(downloadDir, dirs, files)
    }

    ghost function Stuck(dir: Path): set<Path>
      reads this
    {
      StuckIn(dirs, refusing, unreadable, dir)
    }

    ghost function Below(dir: Path): set<Path>
      reads this
    {
      set p | p in dirs && dir < p
    }

    /** Prunes from a directory on; an error in a subdirectory does not stop the walk. The walk fails
        where the directory is not there or cannot be read, or is left empty and refuses to go. */
    method RemoveEmptyDirs(dir: Path) returns (ok: bool)
      requires Valid()
      modifies `dirs
      ensures Valid() && Stuck(dir) == old(Stuck(dir))
      ensures dir in old(dirs) ==> dirs == Pruned(downloadDir, old(dirs), files, old(Stuck(dir)), dir)
      ensures dir !in old(dirs) ==> dirs == old(dirs)
      ensures ok <==> dir in old(dirs) && dir !in unreadable
                      && (dir == downloadDir || dir !in refusing || Entries(dirs + files, dir) != {})
      decreases Below(dir)
    {
      if dir !in dirs || dir in unreadable {
        if dir in dirs {
          UnreadableKeepsAll(downloadDir, dirs, files, refusing, unreadable, dir);
        }
        return false;
      }
      ghost var before, stuck := dirs, Stuck(dir);
      var pending := Entries(dirs, dir);
      NoneWalked(downloadDir, before, files, stuck, dir, pending);
      DirItself(dirs, refusing, unreadable, dir);
      hide Kept, Pruned, WalkedTo, StuckIn;
      while pending != {}
        invariant Valid() && Stuck(dir) == stuck && stuck <= dirs <= before
        invariant pending <= dirs && forall p | p in pending :: |p| == |dir| + 1 && dir <= p
        invariant dirs == WalkedTo(downloadDir, before, files, stuck, dir, pending)
        decreases |pending|
      {
        var subdir :| subdir in pending;
        ghost var was := dirs;
        assert subdir in old(Below(dir)) && subdir !in Below(subdir);
        OneFurther(downloadDir, before, files, stuck, dir, pending, subdir);
        StuckBelow(downloadDir, dirs, files, refusing, unreadable, dir, subdir);
        StuckIsLeft(downloadDir, dirs, files, stuck, subdir);
        var _ := RemoveEmptyDirs(subdir);
        PrunedIsPart(downloadDir, was, files, stuck, subdir);
        StuckStays(was, dirs, refusing, unreadable, dir);
        pending := pending - {subdir};
      }
      assert dir in dirs;
      LastStep(downloadDir, before, files, stuck, dir);
      if Entries(dirs + files, dir) == {} && dir != downloadDir {
        if dir in refusing {
          return false;
        }
        RemainsATree(downloadDir, dirs, files, dir);
        StuckStays(dirs, dirs - {dir}, refusing, unreadable, dir);
        dirs := dirs - {dir};
      }
      ok := true;
    }
  }

  /** A directory that can be read is stuck only if it refuses to go. */
  lemma DirItself(dirs: set<Path>, refusing: set<Path>, unreadable: set<Path>, dir: Path)
    requires dir in dirs && dir !in unreadable
    ensures dir in StuckIn(dirs, refusing, unreadable, dir) <==> dir in refusing
    ensures StuckIn(dirs, refusing, unreadable, dir) <= dirs
  {
    forall u | u in unreadable ensures !(dir <= u <= dir) {
      assert dir <= u <= dir ==> u == dir;
    }
  }

  lemma PrunedIsPart(root: Path, dirs: set<Path>, files: set<Path>, stuck: set<Path>, top: Path)
    ensures Pruned(root, dirs, files, stuck, top) <= dirs
  {
  }
}

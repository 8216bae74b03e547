/** What the data directory manager relies on from its host, as values: the
    state of the filesystem, a failure oracle for each filesystem call, the
    answer of the app registry, and the effect of each filesystem call that
    the manager makes (os.MkdirAll, the mode change, os.RemoveAll and the
    recursive copy). */
module Host {
  import opened Paths

  type Content = seq<bv8>
  type Mode = int

  /** The fixed permission policy, 0755 in octal (rwxr-xr-x). */
  const DirMode: Mode := 0x1ED

  /** A filesystem: its directories, its regular files with their contents,
      and the modes known for directories. A directory without an entry in
      `modes` has a mode nothing here constrains (a umask decided it). */
  datatype Fs = Fs(dirs: set<Path>, files: map<Path, Content>, modes: map<Path, Mode>)

  /** The paths at which each kind of call is refused by the host
      (permissions, a full disk, a read-only mount, ...). A copy is refused
      by its destination. */
  datatype Faults = Faults(mkdir: set<Path>, chmod: set<Path>, remove: set<Path>, copy: set<Path>)

  /** The answer of the app registry: a failure, or the names of all apps. */
  datatype Registry = Unavailable | Apps(names: seq<string>)

  datatype Op = MkdirOp | ChmodOp | RemoveOp | CopyOp

  /** An I/O error propagated from the host, or the wrapped error of a
      failed clone. */
  datatype Error = IoError(op: Op, path: Path) | CloneFailure(cause: Error)

  /** The `error` result of an operation: `Ok` is Go's nil. */
  datatype Outcome = Ok | Fail(error: Error)

  /** The result of an operation together with the state it leaves. */
  datatype Step = Step(out: Outcome, fs: Fs)

  /** The shape every real filesystem has: each directory and file hangs
      below a directory (or directly below the root), nothing is both a file
      and a directory, and modes are recorded for directories only. */
  predicate WellFormed(fs: Fs)
  {
    && (forall d :: d in fs.dirs && |d| > 1 ==> d[..|d| - 1] in fs.dirs)
    && (forall f :: f in fs.files ==> |f| > 0 && f !in fs.dirs)
    && (forall f :: f in fs.files && |f| > 1 ==> f[..|f| - 1] in fs.dirs)
    && fs.modes.Keys <= fs.dirs
  }

  /** Whether anything exists at `p`. */
  predicate Exists(fs: Fs, p: Path)
  {
    p in fs.dirs || p in fs.files
  }

  /** In a well-formed filesystem every directory's ancestors exist. */
  lemma {:induction false} AncestorsExist(fs: Fs, p: Path)
    requires WellFormed(fs) && p in fs.dirs
    ensures Ancestry(p) <= fs.dirs
    decreases |p|
  {
    if |p| > 1 {
      var parent := p[..|p| - 1];
      AncestorsExist(fs, parent);
      assert p == parent + [p[|p| - 1]];
      AncestryAppend(parent, p[|p| - 1]);
    } else if |p| == 1 {
      assert Ancestry(p) == {p} by {
        assert forall q :: q in Ancestry(p) ==> q == p[..|q|] && |q| == 1;
      }
    }
  }

  /** Everything below a path that exists is reached from that path, so
      when nothing is at `p` nothing lies below it either. */
  lemma {:induction false} NothingBelowMissing(fs: Fs, p: Path, q: Path)
    requires WellFormed(fs) && |p| > 0 && !Exists(fs, p) && p <= q
    ensures !Exists(fs, q)
    decreases |q|
  {
    if q != p && Exists(fs, q) {
      var parent := q[..|q| - 1];
      assert p <= parent;
      assert parent in fs.dirs;
      NothingBelowMissing(fs, p, parent);
    }
  }

  /** The state of `fs` below `p` is the same as in `fs'`. */
  ghost predicate SameSubtree(fs: Fs, fs': Fs, p: Path)
  {
    && (forall q :: p <= q ==> (q in fs.dirs <==> q in fs'.dirs))
    && (forall q :: p <= q ==> (q in fs.files <==> q in fs'.files))
    && (forall q :: p <= q && q in fs.files && q in fs'.files ==> fs.files[q] == fs'.files[q])
    && (forall q :: p <= q ==> (q in fs.modes <==> q in fs'.modes))
    && (forall q :: p <= q && q in fs.modes && q in fs'.modes ==> fs.modes[q] == fs'.modes[q])
  }

  // ---------------------------------------------------------------------
  // os.MkdirAll

  /** Recursive creation. A path that already is a directory is left alone
      and reported as success. Otherwise the call is refused when the
      oracle says so or when some prefix of the path is a regular file;
      a refused call changes nothing. New directories get no recorded mode. */
  function MkdirAll(fs: Fs, faults: Faults, p: Path): (r: Step)
    requires WellFormed(fs)
    ensures WellFormed(r.fs)
    ensures r.out.Ok? <==> p in fs.dirs || (p !in faults.mkdir && Ancestry(p) !! fs.files.Keys)
    ensures r.out.Fail? ==> r.out.error == IoError(MkdirOp, p) && r.fs == fs
    ensures r.out.Ok? ==> p in r.fs.dirs && Ancestry(p) <= r.fs.dirs
    ensures fs.dirs <= r.fs.dirs
    ensures forall d :: d in r.fs.dirs ==> d in fs.dirs || d == p || d in Ancestry(p)
    ensures r.fs.files == fs.files && r.fs.modes == fs.modes
  {
    if p in fs.dirs then
      AncestorsExist(fs, p);
      Step(Ok, fs)
    else if p in faults.mkdir || !(Ancestry(p) !! fs.files.Keys) then
      Step(Fail(IoError(MkdirOp, p)), fs)
    else
      var fs' := fs.(dirs := fs.dirs + Ancestry(p) + {p});
      assert forall d :: d in fs'.dirs && |d| > 1 ==> d[..|d| - 1] in fs'.dirs by {
        forall d | d in Ancestry(p) && |d| > 1
          ensures d[..|d| - 1] in Ancestry(p)
        {
          assert d[..|d| - 1] <= p;
        }
        if |p| > 1 {
          assert p[..|p| - 1] in Ancestry(p);
        }
      }
      Step(Ok, fs')
  }

  // ---------------------------------------------------------------------
  // Setting a directory's mode

  /** Sets the mode of an existing directory; refused when the oracle says
      so or when there is no directory at `p`. */
  function SetPermissions(fs: Fs, faults: Faults, p: Path, mode: Mode): (r: Step)
    requires WellFormed(fs)
    ensures WellFormed(r.fs)
    ensures r.out.Ok? <==> p in fs.dirs && p !in faults.chmod
    ensures r.out.Fail? ==> r.out.error == IoError(ChmodOp, p) && r.fs == fs
    ensures r.out.Ok? ==> r.fs.dirs == fs.dirs && r.fs.files == fs.files
    ensures r.out.Ok? ==> p in r.fs.modes && r.fs.modes[p] == mode
    ensures r.out.Ok? ==> forall q :: q != p ==>
      (q in r.fs.modes <==> q in fs.modes) && (q in fs.modes ==> r.fs.modes[q] == fs.modes[q])
  {
    if p in fs.dirs && p !in faults.chmod then
      Step(Ok, fs.(modes := fs.modes[p := mode]))
    else
      Step(Fail(IoError(ChmodOp, p)), fs)
  }

  // ---------------------------------------------------------------------
  // os.RemoveAll

  /** A prefix of a path's parent is a prefix of the path. */
  lemma PrefixOfParent(p: Path, d: Path)
    requires |d| > 0
    ensures p <= d[..|d| - 1] ==> p <= d
  {
  }

  function Below(s: set<Path>, p: Path): set<Path>
  {
    set q | q in s && p <= q
  }

  /** Recursive removal of `p` and everything below it. Removing a path
      where nothing exists succeeds; otherwise the oracle may refuse it,
      and a refused call changes nothing. */
  function RemoveAll(fs: Fs, faults: Faults, p: Path): (r: Step)
    requires WellFormed(fs)
    ensures WellFormed(r.fs)
    ensures r.out.Fail? <==> Exists(fs, p) && p in faults.remove
    ensures r.out.Fail? ==> r.out.error == IoError(RemoveOp, p) && r.fs == fs
    ensures r.out.Ok? ==> forall q :: q in r.fs.dirs <==> q in fs.dirs && !(p <= q)
    ensures r.out.Ok? ==> forall q :: q in r.fs.files <==> q in fs.files && !(p <= q)
    ensures r.out.Ok? ==> forall q :: q in r.fs.modes <==> q in fs.modes && !(p <= q)
    ensures forall q :: q in r.fs.files ==> r.fs.files[q] == fs.files[q]
    ensures forall q :: q in r.fs.modes ==> r.fs.modes[q] == fs.modes[q]
  {
    if Exists(fs, p) && p in faults.remove then
      Step(Fail(IoError(RemoveOp, p)), fs)
    else
      var gone := Below(fs.dirs + fs.files.Keys, p);
      var fs' := Fs(fs.dirs - gone, fs.files - gone, fs.modes - gone);
      assert forall d :: d in fs'.dirs && |d| > 1 ==> d[..|d| - 1] in fs'.dirs by {
        forall d | d in fs'.dirs && |d| > 1
          ensures !(p <= d[..|d| - 1])
        {
          PrefixOfParent(p, d);
        }
      }
      assert forall f :: f in fs'.files && |f| > 1 ==> f[..|f| - 1] in fs'.dirs by {
        forall f | f in fs'.files && |f| > 1
          ensures !(p <= f[..|f| - 1])
        {
          PrefixOfParent(p, f);
        }
      }
      Step(Ok, fs')
  }

  // ---------------------------------------------------------------------
  // The recursive copy

  /** The path that `q`, lying below `src`, takes when `src` is copied to
      `dst`: the same suffix below `dst`. */
  function Rebase(q: Path, src: Path, dst: Path): (r: Path)
    requires src <= q
    ensures dst <= r && |r| == |dst| + |q| - |src|
    ensures src + r[|dst|..] == q
  {
    assert q == src + q[|src|..];
    assert (dst + q[|src|..])[|dst|..] == q[|src|..];
    dst + q[|src|..]
  }

  /** The paths of `s` below `src`, moved below `dst`. */
  function Graft(s: set<Path>, src: Path, dst: Path): (r: set<Path>)
    ensures forall q :: q in s && src <= q ==> Rebase(q, src, dst) in r
    ensures forall t :: t in r ==> dst <= t && src + t[|dst|..] in s
  {
    set q | q in s && src <= q :: Rebase(q, src, dst)
  }

  /** The files below `src`, moved below `dst` with their contents. */
  function GraftFiles(files: map<Path, Content>, src: Path, dst: Path): (m: map<Path, Content>)
    ensures m.Keys == Graft(files.Keys, src, dst)
    ensures forall t :: t in m ==> m[t] == files[src + t[|dst|..]]
  {
    map t | t in Graft(files.Keys, src, dst) :: files[src + t[|dst|..]]
  }

  /** The copy cannot place the tree: a prefix of the destination is a
      file, or a directory of the source lands on a file, or a file of the
      source lands on a directory. */
  predicate CopyBlocked(fs: Fs, src: Path, dst: Path)
  {
    || !(Ancestry(dst) !! fs.files.Keys)
    || !(Graft(fs.dirs, src, dst) !! fs.files.Keys)
    || !(Graft(fs.files.Keys, src, dst) !! fs.dirs)
  }

  /** The directories and files a successful copy leaves. */
  function CopiedDirs(fs: Fs, src: Path, dst: Path): set<Path>
  {
    fs.dirs + Ancestry(dst) + {dst} + Graft(fs.dirs, src, dst)
  }

  function CopiedFiles(fs: Fs, src: Path, dst: Path): map<Path, Content>
  {
    fs.files + GraftFiles(fs.files, src, dst)
  }

  /** A path strictly below `src` has its parent below `src`, and moved
      below `dst` it has the moved parent as its parent. */
  lemma RebaseParent(t: Path, src: Path, dst: Path)
    requires dst < t
    ensures src <= src + t[|dst|..][..|t| - |dst| - 1]
    ensures t[..|t| - 1] == Rebase(src + t[|dst|..][..|t| - |dst| - 1], src, dst)
  {
    var s := t[|dst|..];
    assert t == dst + s;
    assert t[..|t| - 1] == dst + s[..|s| - 1];
    assert (src + s[..|s| - 1])[|src|..] == s[..|s| - 1];
  }

  /** The parent of a copied directory is a directory after the copy. */
  lemma CopiedDirsClosed(fs: Fs, src: Path, dst: Path, d: Path)
    requires WellFormed(fs) && src in fs.dirs
    requires d in CopiedDirs(fs, src, dst) && |d| > 1
    ensures d[..|d| - 1] in CopiedDirs(fs, src, dst)
  {
    if d in Ancestry(dst) || d == dst {
      assert d[..|d| - 1] <= dst;
    } else if d !in fs.dirs {
      assert d in Graft(fs.dirs, src, dst);
      ParentCopied(fs, src, dst, d);
    }
  }

  /** The parent of a path moved strictly below `dst` is a copied directory. */
  lemma ParentCopied(fs: Fs, src: Path, dst: Path, t: Path)
    requires WellFormed(fs) && src in fs.dirs
    requires dst < t && (src + t[|dst|..] in fs.dirs || src + t[|dst|..] in fs.files)
    ensures t[..|t| - 1] in CopiedDirs(fs, src, dst)
  {
    var q := src + t[|dst|..];
    RebaseParent(t, src, dst);
    var parent := src + t[|dst|..][..|t| - |dst| - 1];
    assert parent == q[..|q| - 1];
    if |q| == 1 {
      assert parent == src;
    }
    assert parent in fs.dirs;
  }

  /** A copied file is nowhere a directory after the copy. */
  lemma CopiedFileNotDir(fs: Fs, src: Path, dst: Path, f: Path)
    requires WellFormed(fs) && src in fs.dirs && !CopyBlocked(fs, src, dst)
    requires f in CopiedFiles(fs, src, dst)
    ensures |f| > 0 && f !in CopiedDirs(fs, src, dst)
    ensures |f| > 1 ==> f[..|f| - 1] in CopiedDirs(fs, src, dst)
  {
    if f in Graft(fs.files.Keys, src, dst) {
      GraftedFileNotDir(fs, src, dst, f);
    } else {
      assert f in fs.files;
    }
  }

  /** The same, for a file the copy placed below `dst`. */
  lemma GraftedFileNotDir(fs: Fs, src: Path, dst: Path, f: Path)
    requires WellFormed(fs) && src in fs.dirs && !CopyBlocked(fs, src, dst)
    requires f in Graft(fs.files.Keys, src, dst)
    ensures |f| > 0 && f !in CopiedDirs(fs, src, dst)
    ensures f[..|f| - 1] in CopiedDirs(fs, src, dst)
  {
    var q := src + f[|dst|..];
    assert q in fs.files;
    assert q != src;
    assert dst < f;
    ParentCopied(fs, src, dst, f);
    assert f !in Ancestry(dst);
  }

  /** The overlay of a successful copy keeps the filesystem well formed. */
  lemma CopyKeepsWellFormed(fs: Fs, src: Path, dst: Path)
    requires WellFormed(fs) && src in fs.dirs && !CopyBlocked(fs, src, dst)
    ensures WellFormed(Fs(CopiedDirs(fs, src, dst), CopiedFiles(fs, src, dst), fs.modes))
  {
    forall d | d in CopiedDirs(fs, src, dst) && |d| > 1
      ensures d[..|d| - 1] in CopiedDirs(fs, src, dst)
    {
      CopiedDirsClosed(fs, src, dst, d);
    }
    forall f | f in CopiedFiles(fs, src, dst)
      ensures |f| > 0 && f !in CopiedDirs(fs, src, dst)
      ensures |f| > 1 ==> f[..|f| - 1] in CopiedDirs(fs, src, dst)
    {
      CopiedFileNotDir(fs, src, dst, f);
    }
  }

  /** Every directory and file below `src` has its copy below `dst`. */
  lemma CopiedTree(fs: Fs, src: Path, dst: Path)
    ensures forall q :: q in fs.dirs && src <= q ==> Rebase(q, src, dst) in CopiedDirs(fs, src, dst)
    ensures forall q :: q in fs.files && src <= q ==>
      Rebase(q, src, dst) in CopiedFiles(fs, src, dst) &&
      CopiedFiles(fs, src, dst)[Rebase(q, src, dst)] == fs.files[q]
  {
    forall q | q in fs.files && src <= q
      ensures Rebase(q, src, dst) in CopiedFiles(fs, src, dst)
      ensures CopiedFiles(fs, src, dst)[Rebase(q, src, dst)] == fs.files[q]
    {
      var t := Rebase(q, src, dst);
      assert t in GraftFiles(fs.files, src, dst);
    }
  }

  /** A copy adds nothing outside the ancestry and the subtree of `dst`. */
  lemma CopiedFrame(fs: Fs, src: Path, dst: Path)
    ensures forall q :: q in fs.files && !(dst <= q) ==> CopiedFiles(fs, src, dst)[q] == fs.files[q]
    ensures forall q :: q in CopiedDirs(fs, src, dst) ==> q in fs.dirs || dst <= q || q in Ancestry(dst)
    ensures forall q :: q in CopiedFiles(fs, src, dst) ==> q in fs.files || dst <= q
  {
  }

  /** Conversely, every directory a copy adds at or below `dst` and every
      file it writes there comes from the source tree, and any other file
      keeps its contents. */
  lemma CopiedOnlyTree(fs: Fs, src: Path, dst: Path)
    requires src in fs.dirs
    ensures forall t :: t in CopiedDirs(fs, src, dst) ==>
      t in fs.dirs || t in Ancestry(dst) || (dst <= t && src + t[|dst|..] in fs.dirs)
    ensures forall t :: t in CopiedFiles(fs, src, dst) && dst <= t && src + t[|dst|..] in fs.files ==>
      CopiedFiles(fs, src, dst)[t] == fs.files[src + t[|dst|..]]
    ensures forall t :: t in CopiedFiles(fs, src, dst) && !(dst <= t && src + t[|dst|..] in fs.files) ==>
      t in fs.files && CopiedFiles(fs, src, dst)[t] == fs.files[t]
  {
    var g := GraftFiles(fs.files, src, dst);
    forall t | t in CopiedFiles(fs, src, dst) && dst <= t && src + t[|dst|..] in fs.files
      ensures t in g
    {
      var q := src + t[|dst|..];
      assert q[|src|..] == t[|dst|..];
      assert Rebase(q, src, dst) == t;
    }
    assert (dst + [])[|dst|..] == [] && src + [] == src;
  }

  /** Recursive copy of the tree at `src` onto `dst`: the ancestors of
      `dst` and every directory and file below `src` are placed at the same
      suffix below `dst`, over whatever `dst` already holds. Refused when
      `src` is not a directory, when the oracle refuses the destination or
      when the tree cannot be placed; a refused copy changes nothing. Modes
      are left as they are. */
  function Copy(fs: Fs, faults: Faults, src: Path, dst: Path): (r: Step)
    requires WellFormed(fs)
    ensures WellFormed(r.fs)
    ensures r.out.Ok? <==> src in fs.dirs && dst !in faults.copy && !CopyBlocked(fs, src, dst)
    ensures r.out.Fail? ==> r.out.error == IoError(CopyOp, dst) && r.fs == fs
    ensures r.out.Ok? ==> dst in r.fs.dirs && Ancestry(dst) <= r.fs.dirs
    ensures r.out.Ok? ==> forall q :: q in fs.dirs && src <= q ==> Rebase(q, src, dst) in r.fs.dirs
    ensures r.out.Ok? ==> forall q :: q in fs.files && src <= q ==>
      Rebase(q, src, dst) in r.fs.files && r.fs.files[Rebase(q, src, dst)] == fs.files[q]
    ensures fs.dirs <= r.fs.dirs && fs.files.Keys <= r.fs.files.Keys
    ensures forall q :: q in fs.files && !(dst <= q) ==> r.fs.files[q] == fs.files[q]
    ensures forall q :: q in r.fs.dirs ==> q in fs.dirs || dst <= q || q in Ancestry(dst)
    ensures forall q :: q in r.fs.files ==> q in fs.files || dst <= q
    ensures r.out.Ok? ==> forall t :: t in r.fs.dirs ==>
      t in fs.dirs || t in Ancestry(dst) || (dst <= t && src + t[|dst|..] in fs.dirs)
    ensures r.out.Ok? ==> forall t :: t in r.fs.files && dst <= t && src + t[|dst|..] in fs.files ==>
      r.fs.files[t] == fs.files[src + t[|dst|..]]
    ensures r.out.Ok? ==> forall t :: t in r.fs.files && !(dst <= t && src + t[|dst|..] in fs.files) ==>
      t in fs.files && r.fs.files[t] == fs.files[t]
    ensures r.fs.modes == fs.modes
  {
    if src in fs.dirs && dst !in faults.copy && !CopyBlocked(fs, src, dst) then
      CopyKeepsWellFormed(fs, src, dst);
      CopiedTree(fs, src, dst);
      CopiedFrame(fs, src, dst);
      CopiedOnlyTree(fs, src, dst);
      Step(Ok, Fs(CopiedDirs(fs, src, dst), CopiedFiles(fs, src, dst), fs.modes))
    else
      Step(Fail(IoError(CopyOp, dst)), fs)
  }

  /** The state an allowed copy leaves. */
  lemma CopySucceeds(fs: Fs, faults: Faults, src: Path, dst: Path)
    requires WellFormed(fs) && src in fs.dirs && dst !in faults.copy && !CopyBlocked(fs, src, dst)
    ensures WellFormed(Fs(CopiedDirs(fs, src, dst), CopiedFiles(fs, src, dst), fs.modes))
    ensures Copy(fs, faults, src, dst) == Step(Ok, Fs(CopiedDirs(fs, src, dst), CopiedFiles(fs, src, dst), fs.modes))
  {
    CopyKeepsWellFormed(fs, src, dst);
  }

  /** A successful copy onto a destination where nothing existed leaves
      below it exactly the source tree: every directory and file there is
      the image of one of the source, files with the source's contents. */
  lemma CopyExactWhenFresh(fs: Fs, faults: Faults, src: Path, dst: Path)
    requires WellFormed(fs) && |dst| > 0
    ensures var r := Copy(fs, faults, src, dst);
      r.out.Ok? && !Exists(fs, dst) ==>
        && (forall t :: t in r.fs.dirs && dst <= t ==> src + t[|dst|..] in fs.dirs)
        && (forall t :: t in r.fs.files && dst <= t ==>
              src + t[|dst|..] in fs.files && r.fs.files[t] == fs.files[src + t[|dst|..]])
  {
    var r := Copy(fs, faults, src, dst);
    if r.out.Ok? && !Exists(fs, dst) {
      forall t | t in r.fs.dirs && dst <= t
        ensures src + t[|dst|..] in fs.dirs
      {
        NothingBelowMissing(fs, dst, t);
        if t in Ancestry(dst) {
          assert t == dst && t[|dst|..] == [] && src + [] == src;
        }
      }
      forall t | t in r.fs.files && dst <= t
        ensures src + t[|dst|..] in fs.files
      {
        NothingBelowMissing(fs, dst, t);
      }
    }
  }

  /** `q` below `p` is not below `x` when `p` and `x` are apart. */
  lemma BelowApart(p: Path, x: Path, q: Path)
    requires !(p <= x) && !(x <= p)
    ensures p <= q ==> !(x <= q)
  {
    if p <= q && x <= q {
      PrefixesComparable(p, x, q);
    }
  }

  /** Whatever lies outside the destination's ancestry and subtree is not
      touched by a copy. */
  lemma CopyLeavesApartAlone(fs: Fs, faults: Faults, src: Path, dst: Path, p: Path)
    requires WellFormed(fs) && !(p <= dst) && !(dst <= p)
    ensures SameSubtree(Copy(fs, faults, src, dst).fs, fs, p)
  {
    var r := Copy(fs, faults, src, dst).fs;
    forall q | q in r.dirs && p <= q
      ensures q in fs.dirs
    {
      BelowApart(p, dst, q);
    }
    forall q | q in r.files && p <= q
      ensures q in fs.files && r.files[q] == fs.files[q]
    {
      BelowApart(p, dst, q);
    }
  }

  /** Whatever lies outside the removed subtree is not touched. */
  lemma RemoveLeavesApartAlone(fs: Fs, faults: Faults, x: Path, p: Path)
    requires WellFormed(fs) && !(p <= x) && !(x <= p)
    ensures SameSubtree(RemoveAll(fs, faults, x).fs, fs, p)
  {
    var r := RemoveAll(fs, faults, x).fs;
    forall q | q in fs.dirs && p <= q
      ensures q in r.dirs
    {
      BelowApart(p, x, q);
    }
    forall q | q in fs.files && p <= q
      ensures q in r.files
    {
      BelowApart(p, x, q);
    }
    forall q | q in fs.modes && p <= q
      ensures q in r.modes
    {
      BelowApart(p, x, q);
    }
  }
}

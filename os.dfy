/** The host as objects whose state the data directory manager changes:
    the filesystem, and the app registry it consults. Each filesystem method
    changes the fields as the matching function of `Host` says. */
module Os {
  import opened Paths
  import opened Host

  class FileSystem {
    var dirs: set<Path>
    var files: map<Path, Content>
    var modes: map<Path, Mode>
    /** Which calls the host refuses; fixed for the life of the object. */
    const faults: Faults
    /** The paths passed to RemoveAll so far, oldest first. */
    ghost var removals: seq<Path>

    function State(): Fs
      reads this
    {
      Fs(dirs, files, modes)
    }

    ghost predicate Valid()
      reads this
    {
      WellFormed(State())
    }

    constructor (start: Fs, faults: Faults)
      requires WellFormed(start)
      ensures Valid() && State() == start && this.faults == faults && removals == []
    {
      dirs, files, modes := start.dirs, start.files, start.modes;
      this.faults := faults;
      removals := [];
    }

    /** Whether `p` is a directory (a regular file does not count). */
    method DirectoryExists(p: Path) returns (b: bool)
      requires Valid()
      ensures b <==> p in State().dirs
      ensures b ==> Ancestry(p) <= State().dirs
    {
      b := p in dirs;
      if b {
        AncestorsExist(State(), p);
      }
    }

    /** os.MkdirAll(p, 0755). */
    method MkdirAll(p: Path) returns (out: Outcome)
      requires Valid()
      modifies this
      ensures Valid()
      ensures Step(out, State()) == Host.MkdirAll(old(State()), faults, p)
      ensures removals == old(removals)
    {
      if p in dirs {
        return Ok;
      }
      if p in faults.mkdir || !(Ancestry(p) !! files.Keys) {
        return Fail(IoError(MkdirOp, p));
      }
      dirs := dirs + Ancestry(p) + {p};
      out := Ok;
    }

    /** Setting the mode of the directory at `p`. */
    method SetPermissions(p: Path, mode: Mode) returns (out: Outcome)
      requires Valid()
      modifies this
      ensures Valid()
      ensures Step(out, State()) == Host.SetPermissions(old(State()), faults, p, mode)
      ensures removals == old(removals)
    {
      if p !in dirs || p in faults.chmod {
        return Fail(IoError(ChmodOp, p));
      }
      modes := modes[p := mode];
      out := Ok;
    }

    /** os.RemoveAll(p). */
    method RemoveAll(p: Path) returns (out: Outcome)
      requires Valid()
      modifies this
      ensures Valid()
      ensures Step(out, State()) == Host.RemoveAll(old(State()), faults, p)
      ensures removals == old(removals) + [p]
    {
      removals := removals + [p];
      if (p in dirs || p in files) && p in faults.remove {
        return Fail(IoError(RemoveOp, p));
      }
      var gone := Below(dirs + files.Keys, p);
      dirs, files, modes := dirs - gone, files - gone, modes - gone;
      out := Ok;
    }

    /** The recursive copy of `src` onto `dst`. */
    method Copy(src: Path, dst: Path) returns (out: Outcome)
      requires Valid()
      modifies this
      ensures Valid()
      ensures Step(out, State()) == Host.Copy(old(State()), faults, src, dst)
      ensures removals == old(removals)
    {
      if src !in dirs || dst in faults.copy || CopyBlocked(State(), src, dst) {
        return Fail(IoError(CopyOp, dst));
      }
      var before := State();
      CopySucceeds(before, faults, src, dst);
      dirs, files := CopiedDirs(before, src, dst), CopiedFiles(before, src, dst);
      out := Ok;
    }
  }

  /** The app registry: it answers every lookup with `answer` and counts
      how often it was asked. */
  class AppRegistry {
    const answer: Registry
    var lookups: nat

    constructor (answer: Registry)
      ensures this.answer == answer && lookups == 0
    {
      this.answer := answer;
      lookups := 0;
    }

    /** UnfilteredDokkuApps(): every app name, or a failure. */
    method UnfilteredDokkuApps() returns (r: Registry)
      modifies this
      ensures r == answer && lookups == old(lookups) + 1
    {
      r := answer;
      lookups := lookups + 1;
    }
  }
}

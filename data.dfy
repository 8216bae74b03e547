/** The app data directory manager of plugins/common/data.go, acting on the
    filesystem and app registry objects of module `Os`. The storage root
    (DOKKU_LIB_ROOT) is passed in as `root`. Each method has exactly the
    effect of its namesake in `DataSpec`, and its own postconditions repeat
    the guarantees that matter to its callers. */
module Data {
  import opened Paths
  import opened Host
  import opened Os
  import DataSpec

  /** CreateAppDataDirectory: mkdir -p of the app's directory, then mode 0755. */
  method CreateAppDataDirectory(fs: FileSystem, root: Path, pluginName: string, appName: string)
    returns (err: Outcome)
    requires fs.Valid()
    modifies fs
    ensures fs.Valid() && fs.removals == old(fs.removals)
    ensures Step(err, fs.State())
      == DataSpec.CreateAppDataDirectory(old(fs.State()), fs.faults, root, pluginName, appName)
    ensures var directory := AppDataDirectory(root, pluginName, appName);
      err.Ok? ==> directory in fs.dirs && directory in fs.modes && fs.modes[directory] == DirMode
    ensures err == Fail(IoError(MkdirOp, AppDataDirectory(root, pluginName, appName)))
      ==> fs.State() == old(fs.State())
    ensures var directory := AppDataDirectory(root, pluginName, appName);
      directory !in old(fs.dirs) && (directory in fs.faults.mkdir || !(Ancestry(directory) !! old(fs.files).Keys)) ==>
        err == Fail(IoError(MkdirOp, directory)) && fs.State() == old(fs.State())
  {
    var directory := AppDataDirectory(root, pluginName, appName);
    err := fs.MkdirAll(directory);
    if err.Fail? {
      return;
    }
    err := fs.SetPermissions(directory, DirMode);
    if err.Fail? {
      return;
    }
    return Ok;
  }

  /** CreateDataDirectory: mkdir -p of the plugin's directory, then mode 0755. */
  method CreateDataDirectory(fs: FileSystem, root: Path, pluginName: string) returns (err: Outcome)
    requires fs.Valid()
    modifies fs
    ensures fs.Valid() && fs.removals == old(fs.removals)
    ensures Step(err, fs.State()) == DataSpec.CreateDataDirectory(old(fs.State()), fs.faults, root, pluginName)
    ensures var directory := DataDirectory(root, pluginName);
      err.Ok? ==> directory in fs.dirs && directory in fs.modes && fs.modes[directory] == DirMode
    ensures err == Fail(IoError(MkdirOp, DataDirectory(root, pluginName))) ==> fs.State() == old(fs.State())
    ensures var directory := DataDirectory(root, pluginName);
      directory !in old(fs.dirs) && (directory in fs.faults.mkdir || !(Ancestry(directory) !! old(fs.files).Keys)) ==>
        err == Fail(IoError(MkdirOp, directory)) && fs.State() == old(fs.State())
  {
    var directory := DataDirectory(root, pluginName);
    err := fs.MkdirAll(directory);
    if err.Fail? {
      return;
    }
    err := fs.SetPermissions(directory, DirMode);
    if err.Fail? {
      return;
    }
    return Ok;
  }

  /** MigrateAppDataDirectory: clone, then remove the old app's directory
      only if the clone succeeded. */
  method MigrateAppDataDirectory(fs: FileSystem, root: Path, pluginName: string, oldAppName: string, newAppName: string)
    returns (err: Outcome)
    requires fs.Valid()
    modifies fs
    ensures fs.Valid()
    ensures Step(err, fs.State())
      == DataSpec.MigrateAppDataDirectory(old(fs.State()), fs.faults, root, pluginName, oldAppName, newAppName)
    ensures var cloned := DataSpec.CloneAppData(old(fs.State()), fs.faults, root, pluginName, oldAppName, newAppName);
      fs.removals == old(fs.removals) +
        (if cloned.out.Fail? then [] else [AppDataDirectory(root, pluginName, oldAppName)])
    ensures var cloned := DataSpec.CloneAppData(old(fs.State()), fs.faults, root, pluginName, oldAppName, newAppName);
      cloned.out.Fail? ==> err == cloned.out && fs.State() == cloned.fs
    ensures var cloned := DataSpec.CloneAppData(old(fs.State()), fs.faults, root, pluginName, oldAppName, newAppName);
      cloned.out.Fail? && oldAppName != newAppName ==>
        SameSubtree(fs.State(), old(fs.State()), AppDataDirectory(root, pluginName, oldAppName))
  {
    ghost var before := fs.State();
    err := CloneAppData(fs, root, pluginName, oldAppName, newAppName);
    if err.Fail? {
      if oldAppName != newAppName {
        DataSpec.MigrateKeepsSourceOnCloneFailure(before, fs.faults, root, pluginName, oldAppName, newAppName);
      }
      return;
    }
    err := RemoveAppDataDirectory(fs, root, pluginName, oldAppName);
  }

  /** RemoveAppDataDirectory: os.RemoveAll of the app's directory. */
  method RemoveAppDataDirectory(fs: FileSystem, root: Path, pluginName: string, appName: string)
    returns (err: Outcome)
    requires fs.Valid()
    modifies fs
    ensures fs.Valid()
    ensures fs.removals == old(fs.removals) + [AppDataDirectory(root, pluginName, appName)]
    ensures Step(err, fs.State())
      == DataSpec.RemoveAppDataDirectory(old(fs.State()), fs.faults, root, pluginName, appName)
    ensures err.Ok? ==> forall q :: AppDataDirectory(root, pluginName, appName) <= q ==> !Exists(fs.State(), q)
    ensures !Exists(old(fs.State()), AppDataDirectory(root, pluginName, appName)) ==>
      err.Ok? && fs.State() == old(fs.State())
  {
    DataSpec.RemoveAppDataDirectoryIdempotent(fs.State(), fs.faults, root, pluginName, appName);
    err := fs.RemoveAll(AppDataDirectory(root, pluginName, appName));
  }

  /** CloneAppData: create the new app's directory when the old one is not
      a directory; otherwise copy the old tree onto the new directory and
      report a copy error as a clone failure. */
  method CloneAppData(fs: FileSystem, root: Path, pluginName: string, oldAppName: string, newAppName: string)
    returns (err: Outcome)
    requires fs.Valid()
    modifies fs
    ensures fs.Valid() && fs.removals == old(fs.removals)
    ensures Step(err, fs.State())
      == DataSpec.CloneAppData(old(fs.State()), fs.faults, root, pluginName, oldAppName, newAppName)
    ensures oldAppName != newAppName ==>
      SameSubtree(fs.State(), old(fs.State()), AppDataDirectory(root, pluginName, oldAppName))
    ensures err.Ok? ==> AppDataDirectory(root, pluginName, newAppName) in fs.dirs
  {
    ghost var before := fs.State();
    if oldAppName != newAppName {
      DataSpec.CloneLeavesSourceAlone(before, fs.faults, root, pluginName, oldAppName, newAppName);
    }
    var oldDataDir := AppDataDirectory(root, pluginName, oldAppName);
    var isDir := fs.DirectoryExists(oldDataDir);
    if !isDir {
      err := CreateAppDataDirectory(fs, root, pluginName, newAppName);
      return;
    }

    var newDataDir := AppDataDirectory(root, pluginName, newAppName);
    var copyErr := fs.Copy(oldDataDir, newDataDir);
    if copyErr.Fail? {
      return Fail(CloneFailure(copyErr.error));
    }
    return Ok;
  }

  /** SetupAppData: create the plugin's directory; ask the registry, and if
      it fails report success; otherwise create each app's directory in
      order, stopping at the first error. */
  method SetupAppData(fs: FileSystem, registry: AppRegistry, root: Path, pluginName: string)
    returns (err: Outcome)
    requires fs.Valid()
    modifies fs, registry
    ensures fs.Valid() && fs.removals == old(fs.removals)
    ensures Step(err, fs.State())
      == DataSpec.SetupAppData(old(fs.State()), fs.faults, root, pluginName, registry.answer)
    ensures registry.lookups == old(registry.lookups) +
      (if DataSpec.CreateDataDirectory(old(fs.State()), fs.faults, root, pluginName).out.Ok? then 1 else 0)
    ensures err.Ok? && registry.answer.Apps? ==>
      forall a :: a in registry.answer.names ==> AppDataDirectory(root, pluginName, a) in fs.dirs
  {
    err := CreateDataDirectory(fs, root, pluginName);
    if err.Fail? {
      return;
    }

    var apps := registry.UnfilteredDokkuApps();
    if apps.Unavailable? {
      return Ok;
    }
    err := CreateAppDirectories(fs, root, pluginName, apps.names);
  }

  /** The loop of SetupAppData: create each listed app's directory in
      order, returning the first error. */
  method CreateAppDirectories(fs: FileSystem, root: Path, pluginName: string, names: seq<string>)
    returns (err: Outcome)
    requires fs.Valid()
    modifies fs
    ensures fs.Valid() && fs.removals == old(fs.removals)
    ensures Step(err, fs.State())
      == DataSpec.CreateAppDirectories(old(fs.State()), fs.faults, root, pluginName, names)
    ensures err.Ok? ==> forall a :: a in names ==> AppDataDirectory(root, pluginName, a) in fs.dirs
  {
    ghost var before := fs.State();
    for i := 0 to |names|
      invariant fs.Valid() && fs.removals == old(fs.removals)
      invariant DataSpec.CreateAppDirectories(before, fs.faults, root, pluginName, names)
        == DataSpec.CreateAppDirectories(fs.State(), fs.faults, root, pluginName, names[i..])
    {
      DataSpec.SliceStep(names, i);
      var appErr := CreateAppDataDirectory(fs, root, pluginName, names[i]);
      if appErr.Fail? {
        return appErr;
      }
    }
    DataSpec.CreateAppDirectoriesCovers(before, fs.faults, root, pluginName, names);
    err := Ok;
  }
}

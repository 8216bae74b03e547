# App data directories of dokku plugins, in Dafny

This project models the app data directory manager that dokku plugins share
(`plugins/common/data.go`). Each plugin keeps per-app persistent data under
`<DOKKU_LIB_ROOT>/data/<plugin>/<app>`. The manager does five things:

- it resolves those paths;
- it creates the plugin directory and app directories, each with mode 0755;
- it removes an app's directory recursively;
- it clones an app's data to a new name, and migrates it (clone, then remove the old one);
- it reconciles a plugin (`SetupAppData`), so that every app the registry lists has a directory.

Files:

- `paths.dfy` (module `Paths`): paths as segment lists (`seq<string>`), the
  two path builders, and the prefix facts the rest relies on.
- `host.dfy` (module `Host`): the host as values.
  - A filesystem `Fs` is a set of directories, a map from file paths to
    contents, and a map from directories to modes.
  - `WellFormed` is the tree shape every real filesystem has.
  - `Faults` is the failure oracle: the paths where mkdir, chmod, remove or
    copy are refused.
  - `Registry` is the app registry's answer.
  - The effect of each host call is a function: `MkdirAll`, `SetPermissions`,
    `RemoveAll`, `Copy`. Each is proved to keep `WellFormed`.
- `os.dfy` (module `Os`): the same host as objects that the manager changes in place.
  - class `FileSystem` has fields `dirs`, `files` and `modes`, plus a ghost log of
    `RemoveAll` calls.
  - class `AppRegistry` answers `UnfilteredDokkuApps` and counts how often it is asked.
- `data_spec.dfy` (module `DataSpec`): each data.go operation as a function of
  the state before it, and the lemmas that state what the operations guarantee.
- `data.dfy` (module `Data`): the data.go functions as methods over
  `FileSystem`. They follow the source step by step: mkdir then chmod, the
  existence test before copying, clone before remove, and the early-exit
  loop of `SetupAppData` (the method `Data.CreateAppDirectories`). Each method is proved to have exactly the effect
  of its `DataSpec` namesake.

The storage root is the parameter `root`. Plugin and app names are single path
segments. The mode 0755 is the constant `Host.DirMode` (0x1ED).

Host behaviour, as modelled:

- `os.MkdirAll` succeeds without change when the target already is a directory.
  Otherwise it fails, changing nothing, if the oracle refuses the target or
  some prefix of it is a regular file. On success it creates the target and all
  its ancestors. New directories get no recorded mode, because the umask decides it.
- `os.RemoveAll` of a path where nothing exists succeeds. Otherwise it either
  deletes the whole subtree or, when the oracle refuses, changes nothing.
- The recursive copy lays the source tree over the destination, creating the
  destination and its ancestors. It fails, changing nothing, when the source is
  not a directory, when the oracle refuses the destination, or when a directory
  would have to land on a file or a file on a directory.

## Model

| member | source | states |
|---|---|---|
| Paths.DataDirectory | plugins/common/data.go:44-47 | the plugin directory lies strictly below the storage root and its last segment is the plugin name |
| Paths.AppDataDirectory | plugins/common/data.go:39-42 | the app directory lies one segment below the plugin directory and ends with the app name; its ancestors are exactly the plugin directory's ancestors, so every app directory is under its plugin root |
| Paths.AppDirectoriesApart | plugins/common/data.go:39-42 | the directories of two different apps of one plugin never lie inside each other |
| Host.MkdirAll | plugins/common/data.go:14 | the recursive mkdir succeeds exactly when the target is already a directory or it is allowed and no prefix is a file; on success the target and its ancestors exist; on failure nothing changes; files and modes are never touched; only the target and its ancestors can be new |
| Host.SetPermissions | plugins/common/data.go:18 | the mode change succeeds exactly when the target is a directory and it is allowed; on success only the target's mode changes, to the given mode |
| Host.RemoveAll | plugins/common/data.go:60 | the recursive removal fails only when something exists and the host refuses, changing nothing; on success exactly the paths at or below the target are gone and everything else is unchanged |
| Host.Copy | plugins/common/data.go:71 | the copy succeeds exactly when the source is a directory, the destination is allowed and nothing is blocked; on success every directory and file of the source tree sits at the same suffix below the destination with the same contents, conversely every directory new at or below the destination and every file written there is the image of one of the source tree, with the source file's contents, and every other file keeps its contents; files outside the destination are unchanged, and only the destination's ancestry and subtree can be new |
| Os.FileSystem.MkdirAll | plugins/common/data.go:14 | the in-place recursive mkdir: the new fields and the outcome are exactly those of Host.MkdirAll; the filesystem stays well formed; the removal log is unchanged |
| Os.FileSystem.SetPermissions | plugins/common/data.go:18 | the in-place mode change: the new fields and the outcome are exactly those of Host.SetPermissions; the removal log is unchanged |
| Os.FileSystem.RemoveAll | plugins/common/data.go:60 | the in-place recursive removal: the new fields and the outcome are exactly those of Host.RemoveAll; the path is appended to the removal log |
| Os.FileSystem.Copy | plugins/common/data.go:71 | the in-place recursive copy: the new fields and the outcome are exactly those of Host.Copy; the removal log is unchanged |
| Os.FileSystem.DirectoryExists | plugins/common/data.go:66 | true exactly when the path is a directory, and then all its ancestors exist |
| Os.AppRegistry.UnfilteredDokkuApps | plugins/common/data.go:84 | returns the registry's answer, a failure or the app list, and counts one lookup |
| DataSpec.EnsureDirectory | plugins/common/data.go:12-37 | mkdir then chmod: succeeds exactly when both may; when the target is not already a directory and the mkdir is refused (by the host, or because a prefix is a file), the mkdir error is returned and nothing changes, so the chmod never runs; when the mkdir may proceed but the chmod is refused, the chmod error is returned; a chmod failure still leaves the directory made; on success the target and its ancestors exist with the target at mode 0755; only the target's mode changes, files never do, and the only new directories are the target and its ancestors |
| DataSpec.EnsureDirectoryIdempotent | plugins/common/data.go:12-37 | repeating a successful creation succeeds and leaves the state unchanged |
| DataSpec.EnsureDirectoryLeavesApartAlone | plugins/common/data.go:12-37 | creation changes nothing below any path that is not the target or one of its ancestors |
| DataSpec.CreateDataDirectory | plugins/common/data.go:25-37 | creating the plugin directory keeps the filesystem well formed |
| DataSpec.CreateAppDataDirectory | plugins/common/data.go:11-23 | creating an app directory keeps the filesystem well formed |
| Data.CreateAppDataDirectory | plugins/common/data.go:11-23 | has exactly the effect of DataSpec.CreateAppDataDirectory; on success the app directory exists with mode 0755; a refused mkdir returns the mkdir error and leaves the state unchanged, and after a mkdir failure the state is unchanged |
| Data.CreateDataDirectory | plugins/common/data.go:25-37 | has exactly the effect of DataSpec.CreateDataDirectory; on success the plugin directory exists with mode 0755; a refused mkdir returns the mkdir error and leaves the state unchanged, and after a mkdir failure the state is unchanged |
| DataSpec.RemoveAppDataDirectory | plugins/common/data.go:58-61 | removing an app directory keeps the filesystem well formed |
| DataSpec.RemoveAppDataDirectoryComplete | plugins/common/data.go:58-61 | removal fails exactly when the directory exists and the host refuses, and then changes nothing; on success nothing is left at or below the app directory, and every path outside it keeps its presence, contents and mode |
| DataSpec.RemoveAppDataDirectoryIdempotent | plugins/common/data.go:58-61 | removing a missing app directory succeeds and changes nothing, so a second removal after a successful one does too |
| Data.RemoveAppDataDirectory | plugins/common/data.go:58-61 | has exactly the effect of DataSpec.RemoveAppDataDirectory and logs one removal; on success nothing remains below the app directory; a missing directory gives success and no change |
| DataSpec.CloneAppData | plugins/common/data.go:63-76 | cloning keeps the filesystem well formed |
| DataSpec.CloneFromMissingSource | plugins/common/data.go:64-68 | when the old app has no directory, the clone is exactly the creation of the new app's directory; on success that directory exists with mode 0755, and it is empty if nothing was there before |
| DataSpec.CloneFromExistingSource | plugins/common/data.go:70-75 | when the old directory exists, the clone succeeds exactly when the copy does; a failed copy is reported as a clone failure wrapping the copy error, with the state unchanged; on success the new directory exists and holds every directory and file of the old tree at the same suffix with the same contents; when nothing existed at the new directory before, it holds exactly the old tree and nothing else |
| DataSpec.CloneLeavesSourceAlone | plugins/common/data.go:63-76 | a clone to another name changes nothing below the old app's directory, whatever the outcome |
| Data.CloneAppData | plugins/common/data.go:63-76 | has exactly the effect of DataSpec.CloneAppData and removes nothing; for another name, the old tree is unchanged; on success the new directory exists |
| DataSpec.MigrateAppDataDirectory | plugins/common/data.go:49-56 | migrating keeps the filesystem well formed |
| DataSpec.MigrateStopsOnCloneFailure | plugins/common/data.go:50-53 | when the clone fails, migration returns exactly the clone's error and state, so the removal is never attempted |
| DataSpec.MigrateKeepsSourceOnCloneFailure | plugins/common/data.go:50-53 | when the clone to another name fails, the old tree is intact after the migration |
| DataSpec.MigrateRemovesAfterClone | plugins/common/data.go:51-55 | for any pair of names, when the clone succeeds the migration's result is exactly that of removing the old directory from the state the clone left |
| DataSpec.MigrateMovesData | plugins/common/data.go:49-56 | after a fully successful migration to another name nothing is left below the old directory; the new directory exists (with mode 0755 when there was nothing to copy) and holds the old tree with the same contents, and exactly the old tree when nothing existed there before |
| DataSpec.MigrateClearsSource | plugins/common/data.go:55 | after a successful migration nothing exists at or below the old app's directory |
| DataSpec.MigrateKeepsDestination | plugins/common/data.go:49-56 | after a successful migration to another name the new directory exists, with mode 0755 when the old one was missing |
| DataSpec.MigrateCarriesTree | plugins/common/data.go:49-56 | after a successful migration from an existing directory to another name, every directory and file of the old tree is below the new one with the same contents; when the new directory did not exist before, nothing else is below it |
| DataSpec.MigrateRedisExample | plugins/common/data.go:49-56 | worked example: plugin redis, `web1/dump.rdb` holds "X", and no call is refused; migrating web1 to web2 succeeds, `web2/dump.rdb` holds "X", and nothing is left below `web1`; this holds for every storage root |
| DataSpec.SameNameMigrateDeletes | plugins/common/data.go:49-56 | migrating an app onto its own name, with a host that refuses nothing, reports success and leaves nothing at or below that app's directory: the clone writes onto the source, then the source is removed |
| Data.MigrateAppDataDirectory | plugins/common/data.go:49-56 | has exactly the effect of DataSpec.MigrateAppDataDirectory; it calls RemoveAll on the old directory only when the clone succeeded; on a clone failure it returns that error with the clone's state, and for another name the old tree is intact |
| DataSpec.CreateAppDirectories | plugins/common/data.go:89-93 | the reconciliation loop, in every outcome: no directory disappears; no file changes; the only new directories are the plugin directory's ancestry and the listed apps' directories; only listed apps' directories change mode |
| DataSpec.CreateAppDirectoriesCovers | plugins/common/data.go:89-95 | after a successful loop every listed app has its directory at mode 0755 |
| DataSpec.CreateAppDirectoriesStopsAtFirstFailure | plugins/common/data.go:89-93 | a failed loop stopped at some app k: all earlier apps succeeded; the result is exactly that of creating app k after them, so no later app was tried; every earlier app's directory remains |
| DataSpec.SetupAppData | plugins/common/data.go:78-96 | reconciliation keeps the filesystem well formed |
| DataSpec.SetupAppDataRootFirst | plugins/common/data.go:80-87 | when the plugin directory cannot be created, that error is the result, whatever the registry answers; when the registry fails, the result is success after creating only the plugin directory |
| DataSpec.SetupAppDataCovers | plugins/common/data.go:79-96 | after a successful reconciliation the plugin directory and every listed app's directory exist at mode 0755; no directory disappeared and no file changed; the only new directories are the plugin directory, its ancestors and the listed apps' directories |
| DataSpec.SetupAppDataNeverRemoves | plugins/common/data.go:79-96 | in every outcome of a reconciliation, every existing directory stays and every file is unchanged |
| Data.CreateAppDirectories | plugins/common/data.go:89-93 | the loop over the registry's apps has exactly the effect of DataSpec.CreateAppDirectories and removes nothing; when it finishes without error every listed app has a directory |
| Data.SetupAppData | plugins/common/data.go:78-96 | has exactly the effect of DataSpec.SetupAppData and removes nothing; the registry is asked once when the plugin directory was created, and never otherwise; on success with an app list, every listed app has a directory |

## Left out

- `MustGetEnv("DOKKU_LIB_ROOT")` reads the process environment and exits fatally when the variable is unset. The root is a parameter instead, so the fatal path is not modelled.
- `UnfilteredDokkuApps` is defined elsewhere. It is the `Registry` answer held by `Os.AppRegistry`.
- `SetPermissions` is defined elsewhere and is not part of this model. It is modelled as a mode change that may be refused; any ownership change it makes is not modelled.
- The copy comes from the `github.com/otiai10/copy` library, whose source is not shown. It is modelled as an overlay of the source tree onto the destination. Symlinks, file permissions and the library's merge options are not modelled, and copying leaves modes as they are.
- Partial effects of failed host calls are not modelled: a refused mkdir, removal or copy changes nothing. On the real host, a refused copy can leave the destination half written; the model does not show this.
- The failure oracle is fixed per path, so a call refused once is refused every time. Transient failures are not modelled. The idempotence lemmas are stated for this oracle.
- `filepath.Join` cleaning of `..`, `/` and empty segments, and app or plugin names made of several segments, are not modelled.
- Error message texts are not modelled. An error records only its kind: an I/O error of a given call at a given path, or a clone failure wrapping the copy's error.
- Modes of intermediate directories are not modelled, because the umask decides them. Only the mode set on the target is.
- Concurrent access is not modelled. The code takes no locks.
- DataSpec.CloneLeavesSourceAlone: stated only for a new name different from the old one. With the same name, the clone writes into the source itself.
- DataSpec.MigrateKeepsSourceOnCloneFailure: stated only for a different new name, for the same reason.
- DataSpec.MigrateMovesData: stated only for a different new name. With the same name, the removal deletes the data just cloned, as DataSpec.SameNameMigrateDeletes shows. The carried tree is also claimed only when the old path is a directory.
- DataSpec.MigrateKeepsDestination: stated only for a different new name. With the same name, nothing is left at the new directory, which is the old one (DataSpec.SameNameMigrateDeletes).
- DataSpec.MigrateCarriesTree: stated only for a different new name, for the same reason.
- DataSpec.CloneFromExistingSource: states that the destination holds exactly the source tree only when nothing existed there before. When the destination already holds data, the copy merges into it: the model states that the source tree is there, that every other file there keeps its contents, and that nothing else is added.
- Data.CloneAppData and DataSpec.CloneFromMissingSource: with no source directory the result is that of creating the destination. That creation can fail, so success is not claimed unconditionally; the code returns whatever the creation returns.

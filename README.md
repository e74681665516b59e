# Packaging decisions of the opensubtitles-uploader gulpfile, in Dafny

The repository packages an NW.js desktop application with a gulpfile. Most of that
file runs subprocesses or touches the filesystem. What this project models is the
decision layer around that I/O:

- **Host identifiers** (`app/js/vendor/system.js`). `getPlatform` maps Node's
  `process.platform` to the tags `osx`, `win` and `linux`. `getArchitecture` passes
  `ia32`, `x64` and `arm64` through. Both throw on anything else. Module `System`.
- **Platform resolution** (`parsePlatforms`). The `--platforms` request, or the host's
  tag when there is none, is split on commas. Then:
  - the available platforms among the tokens are kept;
  - `win32`/`osx32` are appended when `win64`/`osx64` were requested;
  - duplicates are dropped;
  - a first token `all` gives every available platform.

  Module `Platforms`. Its method `ParsePlatforms` keeps the loop that pushes tokens
  one by one. It is proved equal to the function `ResolvedPlatforms`, and the lemmas
  are stated about that function.
- **Task decisions** (module `Tasks`):
  - `run`: the empty-set rejection and the choice of the cached binary;
  - `nsis`, `deb`, `compress` and `portable`: the skip tests, and the command each
    one would start for a platform;
  - `clean:mediainfo`: the list of paths it deletes.

  Each command is a value (`Command`, `Step`). Nothing is spawned.
- **Task composition** (module `Series`). `gulp.task` registers a task. `gulp.series`
  captures the tasks it names when it is built. `build`, `dist` and `test` are
  flattened into the task functions they run.

Module `Js` models the JavaScript built-ins the script uses as functions with their
own laws:
- `split(',')`, with its inverse `join`;
- `indexOf` and regular-expression substring tests;
- `slice(0, 3)`;
- `[...new Set(xs)]`;
- `.filter(n => n)`.

The script reads some inputs from the Node process. They are parameters here:
- `process.platform`, `process.arch` and `process.cwd()` form a `Host` value;
- the `package.json` fields form a `Package` value;
- the `--platforms` value is an `Option<string>`.

An empty `--platforms` string behaves like no request, as `"" || x` does in
JavaScript. `parsePlatforms` consults the host only when the request is absent or
empty; `run`, `nsis`, `deb` and `compress` consult it on their own as well.

Five places where the code's behaviour may be unexpected:
- A lone `win64` request resolves to `["win32"]`, not to `["win"]`. The fallback
  pushes `win32`/`osx32`, and those are not among the available platforms.
- `gulp.series` does not deduplicate: it runs what it captured, in order. The model
  therefore flattens series into their leaf tasks. It proves that `dist` and `test`
  happen to contain no task twice.
- `run` joins the host's tag (for the cache directory) with the first target's prefix
  (for the executable). For example, `--platforms=win` on a Linux host gives
  `cache/nwjs-sdk-v0.106.1-linux-x64/nw.exe`.
- `clean:mediainfo` spares a platform's own top-level library by comparing the platform
  with `win`, `osx` and `linux`. The `win32` build that a `win64` request resolves to
  therefore loses its own win32 library; likewise `osx32` loses the osx64 library.
- `portable` names its zip `<name>-<version>-win32-portable.zip` whatever the platform.
  `--platforms=win,win64` resolves to `win` and `win32`, and both platforms' directories
  are zipped, concurrently, into the same file.

## Model

| member | source | states |
|---|---|---|
| System.GetPlatform | app/js/vendor/system.js:7-18 | succeeds exactly for `darwin`, `win32` and `linux`; every other host fails with the unsupported-OS error |
| System.GetArchitecture | app/js/vendor/system.js:26-35 | succeeds exactly for `ia32`, `x64` and `arm64`, and then returns its argument unchanged; otherwise fails with the unsupported-architecture error |
| System.GetPlatformTable | app/js/vendor/system.js:8-14 | `darwin` maps to `osx`, `win32` to `win`, `linux` to `linux` |
| System.GetPlatformRejects | app/js/vendor/system.js:15-16 | every string other than the three hosts is rejected |
| System.GetPlatformInjective | app/js/vendor/system.js:8-14 | distinct accepted hosts get distinct tags |
| System.GetPlatformRoundTrip | app/js/vendor/system.js:7-18 | the inverse table `NodePlatformOf` undoes `GetPlatform` on accepted hosts, and `GetPlatform` undoes it on the three tags |
| Platforms.HostTagIsAvailable | gulpfile.js:18-22 | every tag `currentPlatform()` can return is in `availablePlatforms` |
| Js.Split | gulpfile.js:30 | `split(',')` yields at least one piece, and no piece contains a comma |
| Js.JoinSplit | gulpfile.js:30 | joining the pieces of a split with the separator gives the string back |
| Js.SplitJoin | gulpfile.js:30 | splitting a join of comma-free pieces gives the pieces back |
| Platforms.RequestedPlatforms | gulpfile.js:30 | a non-empty request gives the pieces of its comma split; an absent or empty one gives `[host tag]`; it fails exactly when there is no request and the host is unsupported; the token list is never empty |
| Platforms.PushAvailable | gulpfile.js:31-35 | the push loop computes exactly `KeepAvailable` of the tokens |
| Platforms.KeepAvailable | gulpfile.js:33-35 | the kept tokens are exactly the requested tokens that are available platforms |
| Platforms.KeepAvailableOrder | gulpfile.js:33-35 | keeping the available tokens preserves their first-occurrence order |
| Platforms.FallbacksFacts | gulpfile.js:38-43 | the fallbacks hold `win32` exactly when `win64` was requested and `osx32` exactly when `osx64` was; neither is an available platform, and neither appears twice |
| Platforms.Resolve | gulpfile.js:45-48 | a first token `all` gives `availablePlatforms`; any result has no duplicates |
| Platforms.ResolvedPlatforms | gulpfile.js:29-49 | fails exactly when there is no request and the host is unsupported, and then with the unsupported-OS error; a non-empty request resolves its comma split |
| Js.Unique | gulpfile.js:45-46 | `[...new Set(xs)]` has no duplicates and the same elements as `xs` |
| Js.UniqueFirstOccurrenceOrder | gulpfile.js:46 | the deduplicated elements appear in the order of their first occurrences |
| Js.UniqueAppendFresh | gulpfile.js:46 | appending distinct, new elements to the input appends them unchanged to the output |
| Platforms.ParsePlatforms | gulpfile.js:29-49 | the push loop and the fallback appends compute exactly `ResolvedPlatforms` |
| Platforms.AllShortCircuits | gulpfile.js:48 | a request whose first token is `all` resolves to `availablePlatforms`, whatever else it lists and whatever the host |
| Platforms.NoRequestResolvesToHost | gulpfile.js:30 | an absent or empty request resolves to `[host tag]`, or to the host error when the host is unsupported |
| Platforms.ResolvedHasNoDuplicates | gulpfile.js:45-48 | no resolution contains a platform twice |
| Platforms.ResolvedMembers | gulpfile.js:33-46 | outside the `all` case, x is resolved if and only if x is an available platform in the request, or x is `win32` and `win64` was requested, or x is `osx32` and `osx64` was requested |
| Platforms.ResolvedLayout | gulpfile.js:33-46 | outside the `all` case, the requested available platforms come first, in first-occurrence order; then `win32` if `win64` was requested; then `osx32` if `osx64` was |
| Platforms.ResolvedWithinTargets | gulpfile.js:18-48 | every resolved platform is `linux`, `win`, `osx`, `win32` or `osx32` |
| Platforms.DuplicatesDropped | gulpfile.js:45-46 | `linux,linux,osx` resolves to `[linux, osx]` |
| Platforms.Win64FallsBack | gulpfile.js:38-40 | `win64` resolves to `[win32]` |
| Platforms.NothingAvailable | gulpfile.js:33-48 | a single-token request that is neither an available platform, nor `win64`/`osx64`, nor `all` resolves to the empty list |
| Js.Take | gulpfile.js:74 | `slice(0, n)` is the prefix of length n, or the whole string when it is shorter |
| Tasks.BinarySuffix | gulpfile.js:74-86 | a prefix `osx` selects `/nwjs.app/Contents/MacOS/nwjs`, `lin` selects `/nw`, `win` selects `/nw.exe`; any other prefix has no binary |
| Tasks.Run | gulpfile.js:56-97 | rejects with the host error, then on an empty platform set, then on an unsupported host platform or architecture, then on an unknown prefix; otherwise spawns the cached binary with `. --development` |
| Tasks.RunBinaryMatchesFamily | gulpfile.js:74-86 | for every resolved platform, the binary chosen is the one of its OS family, so `run` never takes its `Unsupported platform` branch |
| Js.Contains | gulpfile.js:242 | a string contains only substrings no longer than itself, and contains each of its prefixes |
| Js.ContainsAt | gulpfile.js:189 | the recursive substring test agrees with "occurs at some position" |
| Tasks.WindowsOnlySkips | gulpfile.js:189 | the pattern matching `osx` or `linux` matches exactly when `osx` or `linux` occurs at some position of the platform (the same test on line 349) |
| Tasks.DebSkipsTarget | gulpfile.js:238 | the pattern matching `osx` or `win` matches exactly when `osx` or `win` occurs at some position of the platform |
| Tasks.CompressSkips | gulpfile.js:294 | `indexOf('win') !== -1` exactly when `win` occurs at some position of the platform |
| Tasks.RuntimeDirSegments | gulpfile.js:72 | the runtime directory is the two path segments `cache` and `nwjs-sdk-v0.106.1-<host>-<arch>` when the host tag and the architecture contain no `/` |
| Tasks.NsisStep | gulpfile.js:189-204 | `nsis` skips exactly the platforms containing `osx` or `linux`; otherwise it spawns makensis with `-DARCH=<platform>` first |
| Tasks.DebStep | gulpfile.js:238-257 | `deb` throws exactly when the platform is not skipped and the host is unsupported; it packages exactly when the platform contains neither `osx` nor `win` and the host is Linux, and then with the deb-maker.sh arguments; every other outcome is a skip, not-for-this-platform for an `osx`/`win` target and not-on-this-host otherwise |
| Tasks.DebTask | gulpfile.js:234-245 | the whole task throws exactly when the host is unsupported and some platform is not skipped; otherwise it yields each platform's step, in order |
| Tasks.CompressStep | gulpfile.js:294-327 | only that platform's promise fails, and exactly when the platform has no `win` and the host is unsupported; `compress` skips exactly the platforms containing `win`; it uses gulp tar+gzip exactly on a Windows host, over the glob `<platform dir>/**`, and otherwise the tar-then-xz pipeline from the platform directory, run in `.` for Linux targets and in the app bundle otherwise |
| Tasks.PortableStep | gulpfile.js:349-359 | `portable` skips exactly the platforms containing `osx` or `linux`; otherwise it zips the platform build with `dist/osu.json` into an archive inside `build/` |
| Tasks.PortableArchiveIgnoresPlatform | gulpfile.js:359 | any two Windows targets are zipped into the same archive |
| Tasks.PortableArchivesCollide | gulpfile.js:345-359 | `win,win64` resolves to `[win, win32]`; neither is skipped by `portable`, and both share one archive |
| Tasks.TargetFacts | gulpfile.js:189-352 | on the tags a resolution yields, the substring tests agree with the OS family: no installer for non-Windows, no deb for non-Linux, no tarball for Windows, and the binary matches the family |
| Tasks.HostTagFacts | gulpfile.js:242 | on host tags, containing `win` means Windows and containing `linux` means Linux |
| Tasks.PackagingFollowsFamily | gulpfile.js:186-352 | for every resolved platform: nsis and portable run exactly for Windows targets, deb skips exactly the non-Linux targets, compress skips exactly the Windows targets, and each target gets exactly one of the installer and the tarball |
| Js.FilterTruthy | gulpfile.js:380 | `.filter(n => n)` keeps exactly the non-empty strings |
| Js.FilterTruthyAppend | gulpfile.js:380 | filtering a concatenation is the concatenation of the filtered parts, so order and multiplicity are kept |
| Js.FilterTruthyOne | gulpfile.js:380 | one element is kept exactly when it is non-empty |
| Tasks.MediainfoCandidates | gulpfile.js:374-379 | six candidates; every non-empty one lies inside the platform's build directory; the three bundled ones are never empty |
| Tasks.MediainfoDeleteList | gulpfile.js:369-381 | the delete list contains no empty path and nothing outside the platform's build directory, and always contains the bundled win32, linux32 and linux64 libraries |
| Tasks.MediainfoDeleteListExact | gulpfile.js:374-380 | a path is deleted if and only if it is the top-level win32 library and the platform is not `win`, the osx64 one and it is not `osx`, the linux32 one and it is not `linux`, or one of the three bundled libraries; nothing else is deleted |
| Tasks.MediainfoSparesOwnLibrary | gulpfile.js:374-376 | the platform's top-level win32 (for `win`), osx64 (for `osx`) or linux32 (for `linux`) library is deleted if and only if the platform is not that one |
| Tasks.Win64BuildLosesWin32Library | gulpfile.js:374 | a `win64` request resolves to `[win32]`, and `clean:mediainfo` deletes that platform's top-level win32 library |
| Series.LeavesAllAppend | gulpfile.js:429-435 | a series of `a` followed by `b` runs what `a` runs, then what `b` runs |
| Series.SeriesFlattens | gulpfile.js:432 | a series nested in a series runs the same leaves as its steps spliced in place |
| Series.LookupAll | gulpfile.js:429-435 | the names' lookup succeeds exactly when every name is registered, and yields their leaves in order; a failure names a missing task |
| Series.DefineSeries | gulpfile.js:429-435 | defining a series fails exactly on a missing name; otherwise it adds only its own name, leaves every other task as it was, and runs the leaves of the named tasks in order |
| Series.GulpfileTasks | gulpfile.js:429-435 | once built, the registry holds exactly the twelve task functions and `build`, `dist`, `test` |
| Series.GulpfileSeries | gulpfile.js:429-435 | the gulpfile's registry builds without error; `build` runs `npm:clean_modules, nwjs, clean:mediainfo, clean:nwjs, build:prune`; `dist` runs those, then `compress, deb, nsis, portable`; `test` runs `jshint`, then build's five |
| Series.GulpfileSeriesRunEachOnce | gulpfile.js:429-435 | neither `dist` nor `test` runs a task function twice |

## Left out

- Subprocesses are not modelled: `spawn`, `exec` and their `close`, `error` and data
  handlers (the exit code only decides what is logged). The commands `run`, `nsis`
  and `deb` would start are returned as values.
- Filesystem effects are not modelled: `deleteAsync`, the gulp `src`/tar/gzip/zip
  streams and `nwbuild`. `clean:mediainfo`'s paths and the archive names are
  returned as values; the deletions and archives themselves are not.
- Concurrency is not modelled: `Promise.all` fan-out and `.catch(console.log)`. A task's
  per-platform outcome is the step function applied to that platform, and one
  platform's failure is a value that does not touch the others (`CompressStep`).
  `deb` shows the one exception: a synchronous throw inside `.map` escapes the whole
  task (`DebTask`). No separate member maps `nsis`, `compress` or `portable` over a
  platform list.
- gulp's execution of a series is gulp's own code and is not modelled: tasks run one
  after another, and the series stops at the first failure.
- Argument parsing by `yargs` is not modelled. `--platforms` is an optional string;
  a non-string value (a bare `--platforms` parses as a boolean) is not covered.
- `path.join` is modelled as joining with `/`. Its normalisation of `.`, `..` and
  repeated separators is not modelled, nor its backslash separator on a Windows host.
  The model's paths are node's whenever the package name and the platform are plain
  path segments and the working directory is not the root: node joins `/` and `build`
  into `/build`, the model into `//build`. That root case affects `nsis`'s `-DOUTDIR`
  and the `.tar.xz` path of `compress`.
- Tasks.CompressStep: its contract states the skip, the error, gulp tar+gzip on a Windows
  host with its source glob, and otherwise the `tar | xz` pipeline with its sources and
  working directory.
  It does not state the archive names, which its body gives.
- Tasks.PortableStep: its contract states the skip rule, the zipped inputs and that the
  archive lies in `build/`, not the archive's full name.
  `PortableArchiveIgnoresPlatform` proves that the name is the same for every platform.
- Tasks.NsisStep: its contract states the skip rule and the `-DARCH` argument, not the
  program name or the other two arguments.
- No configuration logic, only static data: the `clean:nwjs` glob list, the `nwjs`
  options object, and the commented-out Windows options block (dead code).
- Presentation, or a thin wrapper over a library whose source is not part of this model:
  the help text of `default`, `jshint`, `build:prune`, and `npm:clean_modules` with its
  count of removed files. They appear only as task names in `Series`.
- Log messages are not modelled. A skip carries only its reason, `NotForPlatform` or
  `NotOnThisHost`.
- The `!Array.isArray(platforms)` test in `run` is always false, since
  `parsePlatforms` always returns an array; only the emptiness test is modelled.

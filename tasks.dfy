/**
 * gulpfile.js, lines 16-19 and 55-382: the decisions the gulp tasks take for each
 * resolved platform. `run` picks the cached NW.js binary to start; `nsis`, `deb`,
 * `compress` and `portable` either skip a platform or pick the packaging command for
 * it; `clean:mediainfo` picks the library directories to delete. The commands
 * themselves are values here: spawning, streaming and deleting are left to the host.
 */
module Tasks {
  import opened Wrappers
  import opened Js
  import opened System
  import opened Platforms

  /** `nwVersion`, `flavor` and `releasesDir`. */
  const NwVersion: string := "0.106.1"
  const Flavor: string := "sdk"
  const ReleasesDir: string := "build"

  /** What the script reads from the running Node process: `process.platform`,
      `process.arch` and `process.cwd()`. */
  datatype Host = Host(platform: string, arch: string, cwd: string)

  /** The package.json fields the script uses. */
  datatype Package = Package(name: string, version: string, releaseName: string)

  /** A program and its arguments, as handed to `spawn`. */
  datatype Command = Command(program: string, args: seq<string>)

  /** The ways the `run` promise rejects before anything is spawned. */
  datatype RunError =
    | HostNotSupported(cause: SystemError)   // getPlatform or getArchitecture threw
    | NoValidPlatform                        // "No valid platform resolved."
    | UnsupportedPlatform(platform: string)  // "Unsupported platform: ..."

  /** `path.join('cache', 'nwjs-<flavor>-v<version>-<host>-<arch>')`. */
  function RuntimeDir(hostTag: string, arch: string): string {
    Join(["cache", "nwjs-" + Flavor + "-v" + NwVersion + "-" + hostTag + "-" + arch], '/')
  }

  /** The runtime directory is the two path segments `cache` and
      `nwjs-<flavor>-v<version>-<host>-<arch>` when host tag and architecture are
      segments themselves. The constants come in as parameters equal to them so that
      the proof reasons about their concatenation without unfolding `Split` on literal
      text, which the verifier does not bound. */
  lemma RuntimeDirSegments(hostTag: string, arch: string, cache: string, flavor: string, version: string)
    requires cache == "cache" && flavor == Flavor && version == NwVersion
    requires '/' !in hostTag && '/' !in arch
    ensures Split(RuntimeDir(hostTag, arch), '/') == [cache, "nwjs-" + flavor + "-v" + version + "-" + hostTag + "-" + arch]
  {
    var name := "nwjs-" + flavor + "-v" + version + "-" + hostTag + "-" + arch;
    NoSeparatorInConcat("nwjs-" + flavor + "-v" + version + "-", hostTag + "-" + arch, '/');
    NoSeparatorInConcat(hostTag + "-", arch, '/');
    NoSeparatorInConcat(hostTag, "-", '/');
    NoSeparatorInConcat("nwjs-" + flavor + "-v", version + "-", '/');
    NoSeparatorInConcat("nwjs-" + flavor, "-v", '/');
    NoSeparatorInConcat("nwjs-", flavor, '/');
    NoSeparatorInConcat(version, "-", '/');
    assert '/' !in name;
    SplitJoin([cache, name], '/');
  }

  /** The path of the NW.js executable inside a runtime directory, chosen by the first
      three characters of the target platform (the `switch` of lines 74-86). */
  function BinarySuffix(platform: string): (r: Option<string>)
    ensures r.Some? <==> StartsWith(platform, "osx") || StartsWith(platform, "lin") || StartsWith(platform, "win")
    ensures StartsWith(platform, "osx") ==> r == Some("/nwjs.app/Contents/MacOS/nwjs")
    ensures StartsWith(platform, "lin") ==> r == Some("/nw")
    ensures StartsWith(platform, "win") ==> r == Some("/nw.exe")
  {
    var key := Take(platform, 3);
    if key == "osx" then Some("/nwjs.app/Contents/MacOS/nwjs")
    else if key == "lin" then Some("/nw")
    else if key == "win" then Some("/nw.exe")
    else None
  }

  /** The `run` task: resolve the platforms, reject an empty set, then build the path of
      the cached binary for the first platform; the result is the command it spawns. */
  method Run(request: Option<string>, host: Host) returns (r: Result<Command, RunError>)
    ensures match ResolvedPlatforms(request, host.platform)
      case Err(e) => r == Err(HostNotSupported(e))
      case Ok(platforms) =>
        if platforms == [] then r == Err(NoValidPlatform)
        else if GetPlatform(host.platform).Err? then r == Err(HostNotSupported(UnsupportedOs))
        else if GetArchitecture(host.arch).Err? then r == Err(HostNotSupported(UnsupportedArchitecture))
        else if BinarySuffix(platforms[0]).None? then r == Err(UnsupportedPlatform(platforms[0]))
        else r == Ok(Command(RuntimeDir(GetPlatform(host.platform).value, host.arch) + BinarySuffix(platforms[0]).value,
                             [".", "--development"]))
  {
    var parsed := ParsePlatforms(request, host.platform);
    if parsed.Err? {
      return Err(HostNotSupported(parsed.error));
    }
    var platforms := parsed.value;
    if |platforms| == 0 {
      return Err(NoValidPlatform);
    }
    var platform := platforms[0];
    var hostTag := GetPlatform(host.platform);
    if hostTag.Err? {
      return Err(HostNotSupported(hostTag.error));
    }
    var arch := GetArchitecture(host.arch);
    if arch.Err? {
      return Err(HostNotSupported(arch.error));
    }
    var bin := RuntimeDir(hostTag.value, arch.value);
    var key := Take(platform, 3);
    if key == "osx" {
      bin := bin + "/nwjs.app/Contents/MacOS/nwjs";
    } else if key == "lin" {
      bin := bin + "/nw";
    } else if key == "win" {
      bin := bin + "/nw.exe";
    } else {
      return Err(UnsupportedPlatform(platform));
    }
    r := Ok(Command(bin, [".", "--development"]));
  }

  /** The operating-system family of a target tag: a closed classification to check the
      substring tests of the tasks against. */
  datatype Family = Windows | MacOS | Linux

  function FamilyOf(target: string): Option<Family> {
    if target == "win" || target == "win32" then Some(Windows)
    else if target == "osx" || target == "osx32" then Some(MacOS)
    else if target == "linux" then Some(Linux)
    else None
  }

  /** The executable each family's NW.js build has. */
  function FamilyBinary(family: Family): string {
    match family
    case Windows => "/nw.exe"
    case MacOS => "/nwjs.app/Contents/MacOS/nwjs"
    case Linux => "/nw"
  }

  /** `run` never takes its `Unsupported platform` branch for a resolved platform: every
      tag a resolution yields picks the binary of its own family. */
  lemma RunBinaryMatchesFamily(request: Option<string>, nodePlatform: string)
    requires ResolvedPlatforms(request, nodePlatform).Ok?
    ensures forall p :: p in ResolvedPlatforms(request, nodePlatform).value ==>
      FamilyOf(p).Some? && BinarySuffix(p) == Some(FamilyBinary(FamilyOf(p).value))
  {
    ResolvedWithinTargets(request, nodePlatform);
    forall p | p in ResolvedPlatforms(request, nodePlatform).value
      ensures FamilyOf(p).Some? && BinarySuffix(p) == Some(FamilyBinary(FamilyOf(p).value))
    {
      TargetFacts(p);
    }
  }

  /** `platform.match(/osx|linux/) !== null`: `nsis` and `portable`, which are for
      Windows only, skip the platform. */
  predicate WindowsOnlySkips(platform: string)
    ensures WindowsOnlySkips(platform) <==>
      (exists i :: OccursAt(platform, "osx", i)) || (exists i :: OccursAt(platform, "linux", i))
  {
    ContainsAt(platform, "osx");
    ContainsAt(platform, "linux");
    Contains(platform, "osx") || Contains(platform, "linux")
  }

  /** `platform.match(/osx|win/) !== null`: `deb` skips the platform. */
  predicate DebSkipsTarget(platform: string)
    ensures DebSkipsTarget(platform) <==>
      (exists i :: OccursAt(platform, "osx", i)) || (exists i :: OccursAt(platform, "win", i))
  {
    ContainsAt(platform, "osx");
    ContainsAt(platform, "win");
    Contains(platform, "osx") || Contains(platform, "win")
  }

  /** `platform.indexOf('win') !== -1`: `compress` skips the platform. */
  predicate CompressSkips(platform: string)
    ensures CompressSkips(platform) <==> exists i :: OccursAt(platform, "win", i)
  {
    ContainsAt(platform, "win");
    Contains(platform, "win")
  }

  /** Why a task did nothing for a platform. */
  datatype SkipReason =
    | NotForPlatform   // "No `<task>` task for <platform>"
    | NotOnThisHost    // "Packaging deb is only possible on linux"

  /** What a packaging task does for one platform. */
  datatype Step =
    | Skip(reason: SkipReason)
    | Spawn(command: Command)                                  // nsis (makensis), deb (deb-maker.sh)
    | TarGzip(sources: string, archive: string)                // compress through gulp tar and gzip streams
    | TarXz(sources: string, cwd: string, archive: string)     // compress through a `tar | xz` shell pipeline
    | Zip(inputs: seq<string>, archive: string)                // portable through a gulp zip stream

  /** `path.join(releasesDir, pkJson.name, platform)`. */
  function PlatformDir(pkg: Package, platform: string): string {
    Join([ReleasesDir, pkg.name, platform], '/')
  }

  /** The `nsis` task for one platform (lines 189-204). */
  function NsisStep(platform: string, host: Host): (s: Step)
    ensures s.Skip? <==> WindowsOnlySkips(platform)
    ensures s.Skip? ==> s.reason == NotForPlatform
    ensures !s.Skip? ==> s.Spawn? && |s.command.args| == 3 && s.command.args[0] == "-DARCH=" + platform
  {
    if WindowsOnlySkips(platform) then Skip(NotForPlatform)
    else
      Spawn(Command(if host.platform == "win32" then "makensis.exe" else "makensis",
                    ["-DARCH=" + platform, "-DOUTDIR=" + Join([host.cwd, ReleasesDir], '/'), "dist/win-installer.nsi"]))
  }

  /** The `deb` task for one platform (lines 238-257). The host test calls
      `currentPlatform()`, which throws on an unsupported host. */
  function DebStep(platform: string, host: Host, pkg: Package): (r: Result<Step, SystemError>)
    ensures r.Err? <==> !DebSkipsTarget(platform) && GetPlatform(host.platform).Err?
    ensures r.Ok? && r.value.Spawn? <==> !DebSkipsTarget(platform) && host.platform == "linux"
    ensures r.Ok? && r.value.Spawn? ==> r.value.command == Command("bash", ["dist/deb-maker.sh", platform, pkg.name, pkg.releaseName, pkg.version, ReleasesDir])
    ensures r.Ok? && !r.value.Spawn? ==> r.value == Skip(if DebSkipsTarget(platform) then NotForPlatform else NotOnThisHost)
  {
    if DebSkipsTarget(platform) then Ok(Skip(NotForPlatform))
    else
      match GetPlatform(host.platform)
      case Err(e) => Err(e)
      case Ok(hostTag) =>
        HostTagFacts(hostTag);
        if !Contains(hostTag, "linux") then Ok(Skip(NotOnThisHost))
        else Ok(Spawn(Command("bash", ["dist/deb-maker.sh", platform, pkg.name, pkg.releaseName, pkg.version, ReleasesDir])))
  }

  /** The `deb` task over all platforms. The per-platform callbacks run in order inside
      `.map`, so the first throw escapes the task before `Promise.all` is reached. */
  function DebTask(platforms: seq<string>, host: Host, pkg: Package): (r: Result<seq<Step>, SystemError>)
    ensures r.Err? <==> GetPlatform(host.platform).Err? && exists i :: 0 <= i < |platforms| && !DebSkipsTarget(platforms[i])
    ensures r.Ok? ==> |r.value| == |platforms|
    ensures r.Ok? ==> forall i :: 0 <= i < |platforms| ==> DebStep(platforms[i], host, pkg) == Ok(r.value[i])
    decreases |platforms|
  {
    if platforms == [] then Ok([])
    else
      match DebStep(platforms[0], host, pkg)
      case Err(e) => Err(e)
      case Ok(first) =>
        match DebTask(platforms[1..], host, pkg)
        case Err(e) => Err(e)
        case Ok(rest) => Ok([first] + rest)
  }

  /** The `compress` task for one platform (lines 294-327). The host test runs inside the
      promise, so an unsupported host rejects that platform's promise only. */
  function CompressStep(platform: string, host: Host, pkg: Package): (r: Result<Step, SystemError>)
    ensures r.Err? <==> !CompressSkips(platform) && GetPlatform(host.platform).Err?
    ensures r.Ok? && r.value.Skip? <==> CompressSkips(platform)
    ensures r.Ok? && r.value.TarGzip? <==> !CompressSkips(platform) && host.platform == "win32"
    ensures r.Ok? ==> r.value.Skip? || r.value.TarGzip? || r.value.TarXz?
    ensures r.Ok? && r.value.TarGzip? ==> r.value.sources == PlatformDir(pkg, platform) + "/**"
    ensures r.Ok? && r.value.TarXz? ==> r.value.sources == PlatformDir(pkg, platform)
    ensures r.Ok? && r.value.TarXz? ==> r.value.cwd == (if Contains(platform, "linux") then "." else pkg.name + ".app")
  {
    if CompressSkips(platform) then Ok(Skip(NotForPlatform))
    else
      match GetPlatform(host.platform)
      case Err(e) => Err(e)
      case Ok(hostTag) =>
        HostTagFacts(hostTag);
        var sources := PlatformDir(pkg, platform);
        var archive := pkg.name + "-" + pkg.version + "_" + platform;
        if Contains(hostTag, "win") then
          Ok(TarGzip(sources + "/**", Join([ReleasesDir, archive + ".tar.gz"], '/')))
        else
          Ok(TarXz(sources, if Contains(platform, "linux") then "." else pkg.name + ".app",
                   Join([host.cwd, ReleasesDir, archive + ".tar.xz"], '/')))
  }

  /** The `portable` task for one platform (lines 349-359). */
  function PortableStep(platform: string, pkg: Package): (s: Step)
    ensures s.Skip? <==> WindowsOnlySkips(platform)
    ensures !s.Skip? ==> s.Zip? && s.inputs == [PlatformDir(pkg, platform) + "/**", "dist/osu.json"]
    ensures !s.Skip? ==> StartsWith(s.archive, ReleasesDir + "/")
  {
    JoinTwo(ReleasesDir, pkg.name + "-" + pkg.version + "-win32-portable.zip", '/');
    if WindowsOnlySkips(platform) then Skip(NotForPlatform)
    else Zip([PlatformDir(pkg, platform) + "/**", "dist/osu.json"],
             Join([ReleasesDir, pkg.name + "-" + pkg.version + "-win32-portable.zip"], '/'))
  }

  /** The substring tests on each tag a resolution can yield. */
  lemma TargetFacts(p: string)
    requires p in ResolvableTargets
    ensures FamilyOf(p).Some?
    ensures WindowsOnlySkips(p) <==> FamilyOf(p) != Some(Windows)
    ensures DebSkipsTarget(p) <==> FamilyOf(p) != Some(Linux)
    ensures CompressSkips(p) <==> FamilyOf(p) == Some(Windows)
    ensures BinarySuffix(p) == Some(FamilyBinary(FamilyOf(p).value))
  {
    TargetSubstrings(p);
    TargetPrefixes(p);
  }

  /** Which of `osx`, `win` and `linux` each resolvable target contains. */
  lemma TargetSubstrings(p: string)
    requires p in ResolvableTargets
    ensures Contains(p, "osx") <==> p == "osx" || p == "osx32"
    ensures Contains(p, "win") <==> p == "win" || p == "win32"
    ensures Contains(p, "linux") <==> p == "linux"
  {
    TargetContains(p, "osx");
    TargetContains(p, "win");
    TargetContains(p, "linux");
  }

  /** A resolvable target contains one of the three words exactly when it starts with it,
      because the words and the targets differ in their first letter. */
  lemma TargetContains(p: string, word: string)
    requires p in ResolvableTargets
    requires word in ["osx", "win", "linux"]
    ensures Contains(p, word) <==> StartsWith(p, word)
  {
    if Contains(p, word) {
      ContainsHead(p, word);
    }
  }

  /** The binary each resolvable target's three-letter prefix selects. */
  lemma TargetPrefixes(p: string)
    requires p in ResolvableTargets
    ensures FamilyOf(p).Some? && BinarySuffix(p) == Some(FamilyBinary(FamilyOf(p).value))
  {
    if p == "linux" {
      assert StartsWith(p, "linux") && StartsWith(p, "lin");
    } else if p == "win" || p == "win32" {
      assert StartsWith(p, "win");
    } else {
      assert StartsWith(p, "osx");
    }
  }

  /** The substring tests on the host tags `getPlatform` returns. */
  lemma HostTagFacts(tag: string)
    requires tag in AvailablePlatforms
    ensures Contains(tag, "win") <==> tag == "win"
    ensures Contains(tag, "linux") <==> tag == "linux"
  {
    if Contains(tag, "win") { ContainsHead(tag, "win"); }
    if Contains(tag, "linux") { ContainsHead(tag, "linux"); }
    assert tag == "win" ==> StartsWith(tag, "win");
    assert tag == "linux" ==> StartsWith(tag, "linux");
  }

  /** For every resolved platform, `nsis` and `portable` run exactly for the Windows
      targets, `deb` only for Linux, and `compress` for all but Windows: each target gets
      exactly one of the installer and the tarball. */
  lemma PackagingFollowsFamily(request: Option<string>, nodePlatform: string, host: Host, pkg: Package)
    requires ResolvedPlatforms(request, nodePlatform).Ok?
    ensures forall p :: p in ResolvedPlatforms(request, nodePlatform).value ==>
      (NsisStep(p, host).Skip? <==> FamilyOf(p) != Some(Windows)) &&
      (PortableStep(p, pkg).Skip? <==> FamilyOf(p) != Some(Windows)) &&
      (DebStep(p, host, pkg) == Ok(Skip(NotForPlatform)) <==> FamilyOf(p) != Some(Linux)) &&
      (CompressStep(p, host, pkg) == Ok(Skip(NotForPlatform)) <==> FamilyOf(p) == Some(Windows)) &&
      (WindowsOnlySkips(p) != CompressSkips(p))
  {
    ResolvedWithinTargets(request, nodePlatform);
    forall p | p in ResolvedPlatforms(request, nodePlatform).value
      ensures (NsisStep(p, host).Skip? <==> FamilyOf(p) != Some(Windows)) &&
        (PortableStep(p, pkg).Skip? <==> FamilyOf(p) != Some(Windows)) &&
        (DebStep(p, host, pkg) == Ok(Skip(NotForPlatform)) <==> FamilyOf(p) != Some(Linux)) &&
        (CompressStep(p, host, pkg) == Ok(Skip(NotForPlatform)) <==> FamilyOf(p) == Some(Windows)) &&
        (WindowsOnlySkips(p) != CompressSkips(p))
    {
      TargetFacts(p);
    }
  }

  /** `node_modules/mediainfo-wrapper/lib`, and the same inside the macOS app bundle. */
  const MediainfoLib: string := "node_modules/mediainfo-wrapper/lib/"
  const BundledPrefix: string := ".app/Contents/Resources/app.nw/"

  /** The platform's top-level copy of a mediainfo library. */
  function TopLevelLib(pkg: Package, platform: string, lib: string): string {
    Join([PlatformDir(pkg, platform), MediainfoLib + lib], '/')
  }

  /** A mediainfo library inside the platform's macOS app bundle. */
  function BundledLib(pkg: Package, platform: string, lib: string): string {
    Join([PlatformDir(pkg, platform), pkg.name + BundledPrefix + MediainfoLib + lib], '/')
  }

  /** A path joined onto the platform directory lies inside it. */
  lemma JoinedUnderPlatformDir(pkg: Package, platform: string, rest: string)
    ensures StartsWith(Join([PlatformDir(pkg, platform), rest], '/'), PlatformDir(pkg, platform) + "/")
  {
    var dir := PlatformDir(pkg, platform);
    JoinTwo(dir, rest, '/');
    assert (dir + "/" + rest)[..|dir + "/"|] == dir + "/";
  }

  /** The six paths lines 374-379 list, an empty string standing for a library kept:
      every path listed lies inside the platform's build directory. */
  function MediainfoCandidates(pkg: Package, platform: string): (r: seq<string>)
    ensures |r| == 6
    ensures forall x :: x in r && x != "" ==> StartsWith(x, PlatformDir(pkg, platform) + "/")
    ensures forall k :: 3 <= k < 6 ==> r[k] != ""
  {
    JoinedUnderPlatformDir(pkg, platform, MediainfoLib + "win32");
    JoinedUnderPlatformDir(pkg, platform, MediainfoLib + "osx64");
    JoinedUnderPlatformDir(pkg, platform, MediainfoLib + "linux32");
    JoinedUnderPlatformDir(pkg, platform, pkg.name + BundledPrefix + MediainfoLib + "win32");
    JoinedUnderPlatformDir(pkg, platform, pkg.name + BundledPrefix + MediainfoLib + "linux32");
    JoinedUnderPlatformDir(pkg, platform, pkg.name + BundledPrefix + MediainfoLib + "linux64");
    [
      if platform != "win" then TopLevelLib(pkg, platform, "win32") else "",
      if platform != "osx" then TopLevelLib(pkg, platform, "osx64") else "",
      if platform != "linux" then TopLevelLib(pkg, platform, "linux32") else "",
      BundledLib(pkg, platform, "win32"),
      BundledLib(pkg, platform, "linux32"),
      BundledLib(pkg, platform, "linux64")
    ]
  }

  /** The paths `clean:mediainfo` deletes for one platform (lines 374-380): no empty
      path, nothing outside the platform's build directory, and always the three
      bundled libraries. */
  function MediainfoDeleteList(pkg: Package, platform: string): (r: seq<string>)
    ensures forall x :: x in r ==> x != ""
    ensures forall x :: x in r ==> StartsWith(x, PlatformDir(pkg, platform) + "/")
    ensures forall lib :: lib in ["win32", "linux32", "linux64"] ==> BundledLib(pkg, platform, lib) in r
  {
    FilterTruthy(MediainfoCandidates(pkg, platform))
  }

  /** The delete list holds exactly the paths lines 374-379 name: each top-level library
      unless it is the platform's own, and the three bundled ones, and nothing else. */
  lemma MediainfoDeleteListExact(pkg: Package, platform: string, x: string)
    ensures x in MediainfoDeleteList(pkg, platform) <==>
      (x == TopLevelLib(pkg, platform, "win32") && platform != "win") ||
      (x == TopLevelLib(pkg, platform, "osx64") && platform != "osx") ||
      (x == TopLevelLib(pkg, platform, "linux32") && platform != "linux") ||
      x == BundledLib(pkg, platform, "win32") ||
      x == BundledLib(pkg, platform, "linux32") ||
      x == BundledLib(pkg, platform, "linux64")
  {
    var c := MediainfoCandidates(pkg, platform);
    assert x in c <==> x == c[0] || x == c[1] || x == c[2] || x == c[3] || x == c[4] || x == c[5];
    JoinedUnderPlatformDir(pkg, platform, MediainfoLib + "win32");
    JoinedUnderPlatformDir(pkg, platform, MediainfoLib + "osx64");
    JoinedUnderPlatformDir(pkg, platform, MediainfoLib + "linux32");
  }

  lemma AppendCancel(base: string, x: string, y: string)
    requires base + x == base + y
    ensures x == y
  {
    assert x == (base + x)[|base|..];
    assert y == (base + y)[|base|..];
  }

  /** The top-level copies of distinct libraries are distinct paths, and none is a path
      inside the app bundle. */
  lemma MediainfoPathsDistinct(pkg: Package, platform: string, lib: string, other: string)
    requires lib in ["win32", "osx64", "linux32"] && other in ["win32", "osx64", "linux32", "linux64"]
    ensures lib != other ==> TopLevelLib(pkg, platform, lib) != TopLevelLib(pkg, platform, other)
    ensures TopLevelLib(pkg, platform, lib) != BundledLib(pkg, platform, other)
  {
    var dir := PlatformDir(pkg, platform);
    var base := dir + "/" + MediainfoLib;
    JoinTwo(dir, MediainfoLib + lib, '/');
    JoinTwo(dir, MediainfoLib + other, '/');
    JoinTwo(dir, pkg.name + BundledPrefix + MediainfoLib + other, '/');
    assert TopLevelLib(pkg, platform, lib) == base + lib;
    assert TopLevelLib(pkg, platform, other) == base + other;
    if lib != other && base + lib == base + other {
      AppendCancel(base, lib, other);
    }
    assert |BundledLib(pkg, platform, other)| > |TopLevelLib(pkg, platform, lib)|;
  }

  /** `clean:mediainfo` deletes the top-level copy of each library except the one the
      platform itself runs on: win32 for `win`, osx64 for `osx`, linux32 for `linux`. */
  lemma MediainfoSparesOwnLibrary(pkg: Package, platform: string, tag: string, lib: string)
    requires (tag, lib) in [("win", "win32"), ("osx", "osx64"), ("linux", "linux32")]
    ensures TopLevelLib(pkg, platform, lib) in MediainfoDeleteList(pkg, platform) <==> platform != tag
  {
    var own := TopLevelLib(pkg, platform, lib);
    var c := MediainfoCandidates(pkg, platform);
    var slot := if lib == "win32" then 0 else if lib == "osx64" then 1 else 2;
    forall k | 0 <= k < |c|
      ensures c[k] == own <==> k == slot && platform != tag
    {
      CandidateIsOwn(pkg, platform, tag, lib, slot, k);
    }
    if platform != tag {
      assert c[slot] == own;
    }
  }

  /** Only the library's own slot can hold its top-level path, and only when it is not spared. */
  lemma CandidateIsOwn(pkg: Package, platform: string, tag: string, lib: string, slot: nat, k: nat)
    requires (tag, lib) in [("win", "win32"), ("osx", "osx64"), ("linux", "linux32")]
    requires slot == (if lib == "win32" then 0 else if lib == "osx64" then 1 else 2)
    requires k < 6
    ensures MediainfoCandidates(pkg, platform)[k] == TopLevelLib(pkg, platform, lib) <==> k == slot && platform != tag
  {
    var names := ["win32", "osx64", "linux32", "win32", "linux32", "linux64"];
    MediainfoPathsDistinct(pkg, platform, lib, names[k]);
    assert TopLevelLib(pkg, platform, lib) != "";
  }

  /** A `win64` request builds the `win32` fallback, and `clean:mediainfo` then deletes
      that build's own top-level win32 library: the test on line 374 compares the
      platform with `win` only. */
  lemma Win64BuildLosesWin32Library(request: string, nodePlatform: string, pkg: Package)
    requires request == "win64"
    ensures ResolvedPlatforms(Some(request), nodePlatform) == Ok(["win32"])
    ensures TopLevelLib(pkg, "win32", "win32") in MediainfoDeleteList(pkg, "win32")
  {
    Win64FallsBack(request, nodePlatform);
    MediainfoSparesOwnLibrary(pkg, "win32", "win", "win32");
  }

  /** The portable archive's name (line 359) does not depend on the platform: every
      Windows target is zipped into the same file. */
  lemma PortableArchiveIgnoresPlatform(p: string, q: string, pkg: Package)
    requires !WindowsOnlySkips(p) && !WindowsOnlySkips(q)
    ensures PortableStep(p, pkg).archive == PortableStep(q, pkg).archive
  {
  }

  /** `--platforms=win,win64` resolves to two Windows targets, `win` and `win32`, whose
      portable builds are zipped, concurrently, into the same archive. */
  lemma PortableArchivesCollide(request: string, nodePlatform: string, pkg: Package)
    requires request == "win,win64"
    ensures ResolvedPlatforms(Some(request), nodePlatform) == Ok(["win", "win32"])
    ensures !PortableStep("win", pkg).Skip? && !PortableStep("win32", pkg).Skip?
    ensures PortableStep("win", pkg).archive == PortableStep("win32", pkg).archive
  {
    WinAndWin64Resolve(request, nodePlatform, ["win", "win64"]);
    TargetSubstrings("win");
    TargetSubstrings("win32");
  }

  /** The request string is passed with its tokens so that the split is proved from the
      join of the tokens rather than by unfolding the split on a literal. */
  lemma WinAndWin64Resolve(request: string, nodePlatform: string, tokens: seq<string>)
    requires request == "win,win64" && tokens == ["win", "win64"]
    ensures ResolvedPlatforms(Some(request), nodePlatform) == Ok(["win", "win32"])
  {
    assert Join(tokens, ',') == request;
    SplitJoin(tokens, ',');
    WinAndWin64Tokens(tokens);
  }

  lemma WinAndWin64Tokens(tokens: seq<string>)
    requires tokens == ["win", "win64"]
    ensures Resolve(tokens) == ["win", "win32"]
  {
    Win64NotAvailable();
    assert tokens[..1] == ["win"] && ["win"][..0] == [];
    assert KeepAvailable(tokens) == ["win"];
    assert Fallbacks(tokens) == ["win32"];
    UniqueOfDistinct(["win", "win32"]);
  }
}

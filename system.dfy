/**
 * app/js/vendor/system.js: the host's Node identifiers (`process.platform`,
 * `process.arch`) mapped to the tags NW.js builds are named by; any other host throws.
 */
module System {
  import opened Wrappers

  /** The two errors the module throws: "Your OS is not supported by NW JS" and
      "Your architecture is not supported by NW JS". */
  datatype SystemError = UnsupportedOs | UnsupportedArchitecture

  /** The `process.platform` values that have an NW.js build. */
  const SupportedNodePlatforms: set<string> := {"darwin", "win32", "linux"}

  /** The architectures NW.js is built for; `getArchitecture` passes them through. */
  const SupportedArchitectures: set<string> := {"ia32", "x64", "arm64"}

  /** `getPlatform(platform)`. */
  function GetPlatform(platform: string): (r: Result<string, SystemError>)
    ensures r.Ok? <==> platform in SupportedNodePlatforms
    ensures r.Err? ==> r.error == UnsupportedOs
  {
    if platform == "darwin" then Ok("osx")
    else if platform == "win32" then Ok("win")
    else if platform == "linux" then Ok("linux")
    else Err(UnsupportedOs)
  }

  /** `getArchitecture(architecture)`. */
  function GetArchitecture(architecture: string): (r: Result<string, SystemError>)
    ensures r.Ok? <==> architecture in SupportedArchitectures
    ensures r.Ok? ==> r.value == architecture
    ensures r.Err? ==> r.error == UnsupportedArchitecture
  {
    if architecture == "ia32" || architecture == "x64" || architecture == "arm64" then Ok(architecture)
    else Err(UnsupportedArchitecture)
  }

  /** The inverse table: the `process.platform` a tag comes from. */
  function NodePlatformOf(tag: string): Option<string> {
    if tag == "osx" then Some("darwin")
    else if tag == "win" then Some("win32")
    else if tag == "linux" then Some("linux")
    else None
  }

  /** The three accepted hosts and their tags. */
  lemma GetPlatformTable()
    ensures GetPlatform("darwin") == Ok("osx")
    ensures GetPlatform("win32") == Ok("win")
    ensures GetPlatform("linux") == Ok("linux")
  {
  }

  /** Every other host is rejected. */
  lemma GetPlatformRejects(platform: string)
    requires platform != "darwin" && platform != "win32" && platform != "linux"
    ensures GetPlatform(platform) == Err(UnsupportedOs)
  {
  }

  /** Distinct accepted hosts get distinct tags. */
  lemma GetPlatformInjective(a: string, b: string)
    requires GetPlatform(a).Ok? && GetPlatform(b).Ok?
    requires a != b
    ensures GetPlatform(a).value != GetPlatform(b).value
  {
  }

  /** `NodePlatformOf` undoes `GetPlatform` on the accepted hosts, and `GetPlatform`
      undoes `NodePlatformOf` on the tags. */
  lemma GetPlatformRoundTrip(platform: string, tag: string)
    ensures GetPlatform(platform).Ok? ==> NodePlatformOf(GetPlatform(platform).value) == Some(platform)
    ensures NodePlatformOf(tag).Some? ==> GetPlatform(NodePlatformOf(tag).value) == Ok(tag)
  {
  }
}

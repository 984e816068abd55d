/**
 * The decisions of the development launcher's Electron self-repair
 * (packages/dev-mode.js): when to repair, whether to wipe old installs,
 * which mirror to use, and which archive URLs to try in which order.
 *
 * Shell commands, file existence and `require.resolve` are foreign calls;
 * their outcomes are fields of `RepairHost`.
 */
module DevMode {
  import opened Wrappers
  import opened Js
  import Strings
  import Search
  import ElectronVersions

  /** The pinned Electron version of the development scripts. */
  const ElectronVersion: string := "37.3.1"

  /** The mirror used when none is configured. */
  const DefaultMirror: string := "https://npmmirror.com/mirrors/electron/"

  /** `isCI`: any of the three CI variables is set (present and non-empty). */
  predicate IsCI(env: Env) {
    EnvSet(env, "CI") || EnvSet(env, "GITHUB_ACTIONS") || EnvSet(env, "GITLAB_CI")
  }

  /** The mirror: `ELECTRON_MIRROR`, else `npm_config_electron_mirror`, else the default. */
  function Mirror(env: Env): string {
    EnvOr(env, ["ELECTRON_MIRROR", "npm_config_electron_mirror"], DefaultMirror)
  }

  lemma MirrorPrecedence(env: Env)
    ensures EnvSet(env, "ELECTRON_MIRROR") ==> Mirror(env) == env["ELECTRON_MIRROR"]
    ensures !EnvSet(env, "ELECTRON_MIRROR") && EnvSet(env, "npm_config_electron_mirror") ==>
              Mirror(env) == env["npm_config_electron_mirror"]
    ensures !EnvSet(env, "ELECTRON_MIRROR") && !EnvSet(env, "npm_config_electron_mirror") ==>
              Mirror(env) == DefaultMirror
  {
    var names := ["ELECTRON_MIRROR", "npm_config_electron_mirror"];
    if EnvSet(env, "ELECTRON_MIRROR") {
      assert FirstSet(env, names, 0);
    } else if EnvSet(env, "npm_config_electron_mirror") {
      assert FirstSet(env, names, 1);
    }
  }

  /** The aggressive cleanup is skipped exactly when the install marker exists and no reinstall is forced. */
  predicate SkipsCleanup(env: Env, markerExists: bool) {
    !EnvSet(env, "FORCE_ELECTRON_REINSTALL") && markerExists
  }

  /** The archive's architecture name: `x64` and `arm64` are spelled as Node spells them, and so is everything else. */
  function ArchiveArch(arch: string): (a: string)
    ensures a == arch
  {
    if arch == "x64" then "x64" else if arch == "arm64" then "arm64" else arch
  }

  /** The release archive's file name. */
  function ArchiveName(version: string, platform: string, arch: string): string {
    "electron-v" + version + "-" + platform + "-" + ArchiveArch(arch) + ".zip"
  }

  /** The archive is always a zip, so the unzip branch is the one taken. */
  lemma ArchiveIsZip(version: string, platform: string, arch: string)
    ensures Strings.EndsWith(ArchiveName(version, platform, arch), ".zip")
  {
    var n := ArchiveName(version, platform, arch);
    assert n[|n| - 4..] == ".zip";
  }

  /** The mirror as a directory: a `/` is added only when it does not already end in one. */
  function MirrorDir(mirror: string): (d: string)
    ensures Strings.EndsWith(d, "/")
    ensures Strings.StartsWith(d, mirror) && |d| <= |mirror| + 1
  {
    if Strings.EndsWith(mirror, "/") then mirror else mirror + "/"
  }

  /** The download URLs, as `downloadAndUnpackElectron` builds them from its two branches. */
  function CandidateUrls(mirror: string, version: string, filename: string): (urls: seq<string>)
    ensures |urls| == 2
    ensures urls[0] == MirrorDir(mirror) + "v" + version + "/" + filename
    ensures urls[1] == MirrorDir(mirror) + filename
  {
    if Strings.EndsWith(mirror, "/") then
      [mirror + "v" + version + "/" + filename, mirror + filename]
    else
      [mirror + "/v" + version + "/" + filename, mirror + "/" + filename]
  }

  /** A mirror with or without its trailing `/` gives the same URLs. */
  lemma TrailingSlashIrrelevant(mirror: string, version: string, filename: string)
    requires !Strings.EndsWith(mirror, "/")
    ensures CandidateUrls(mirror + "/", version, filename) == CandidateUrls(mirror, version, filename)
  {
    var m := mirror + "/";
    assert m[|m| - 1..] == "/";
  }

  /** What the download step did: the URLs it tried in order, and the one that worked, if any. */
  datatype Download = Download(filename: string, candidates: seq<string>, attempt: Search.Attempt<string>)

  /**
   * The download loop of `downloadAndUnpackElectron`: the candidates in
   * order until one succeeds; `Failure` is the error thrown when none does.
   */
  function DownloadElectron(mirror: string, version: string, platform: string, arch: string,
                            fetches: string -> bool): (r: Result<Download, string>)
    ensures var urls := CandidateUrls(mirror, version, ArchiveName(version, platform, arch));
            && (r.Failure? <==> !fetches(urls[0]) && !fetches(urls[1]))
            && (r.Failure? ==> r.error == "All mirror download attempts failed")
            && (r.Success? && fetches(urls[0]) ==> r.value.attempt == Search.Attempt(Some(urls[0]), [urls[0]]))
            && (r.Success? && !fetches(urls[0]) ==> r.value.attempt == Search.Attempt(Some(urls[1]), urls))
  {
    var filename := ArchiveName(version, platform, arch);
    var urls := CandidateUrls(mirror, version, filename);
    var a := Search.TryInOrder(urls, fetches);
    FirstCandidateFirst(urls, fetches);
    if a.found.None? then Failure("All mirror download attempts failed")
    else Success(Download(filename, urls, a))
  }

  /** `TryInOrder` over two candidates, case by case. */
  lemma FirstCandidateFirst(urls: seq<string>, fetches: string -> bool)
    requires |urls| == 2
    ensures fetches(urls[0]) ==> Search.TryInOrder(urls, fetches) == Search.Attempt(Some(urls[0]), [urls[0]])
    ensures !fetches(urls[0]) && fetches(urls[1]) ==> Search.TryInOrder(urls, fetches) == Search.Attempt(Some(urls[1]), urls)
    ensures !fetches(urls[0]) && !fetches(urls[1]) ==> Search.TryInOrder(urls, fetches) == Search.Attempt(None, urls)
  {
    if fetches(urls[0]) {
      Search.FirstIndexFinds(urls, fetches, 0);
    } else if fetches(urls[1]) {
      Search.FirstIndexFinds(urls, fetches, 1);
      assert urls[..2] == urls;
    }
  }

  /**
   * The executable inside an unpacked Electron distribution, per platform.
   * `EnsureElectron.PlatformBinaryIsCandidate` shows each entry is one of the
   * install guard's candidate binaries.
   */
  function ExecRelPath(platform: string): (p: string)
    ensures platform == "darwin" ==> p == "Electron.app/Contents/MacOS/Electron"
    ensures platform == "win32" ==> p == "electron.exe"
    ensures platform != "darwin" && platform != "win32" ==> p == "electron"
  {
    if platform == "darwin" then "Electron.app/Contents/MacOS/Electron"
    else if platform == "win32" then "electron.exe"
    else "electron"
  }

  /** Everything `tryEnsureElectron` learns from its host. */
  datatype RepairHost = RepairHost(
    env: Env,
    platform: string,
    arch: string,
    /** `isElectronAvailable()`. */
    electronAvailable: bool,
    /** The `.electron_installed_v<version>` marker exists. */
    markerExists: bool,
    /** Whether a shell command succeeds. */
    commandSucceeds: string -> bool,
    /** Install artifacts are found and `require.resolve('electron')` works after the pnpm step. */
    resolvesAfterInstall: bool,
    /** Whether `curl` fetches a URL. */
    fetches: string -> bool,
    /** `require.resolve('electron')` works after the direct download. */
    resolvesAfterDownload: bool
  )

  datatype Skip = InCI | AlreadyAvailable

  /** What a repair run decided and how it ended. */
  datatype Repair =
    | Skipped(reason: Skip)
    | Attempted(
        cleanup: bool,              // the old installs were removed
        mirror: string,             // exported as ELECTRON_MIRROR and npm_config_electron_mirror
        installs: seq<string>,      // the pnpm commands run, in order
        download: Option<Result<Download, string>>,  // the direct download, when the pnpm step was not enough
        resolved: bool              // Electron resolves at the end
      )

  const PnpmInstall: string := "pnpm install --filter electron --workspace-root"

  function PnpmAdd(version: string): string {
    "pnpm add -w electron@" + version
  }

  /** `tryEnsureElectron`. */
  function TryEnsureElectron(h: RepairHost): (r: Repair)
    ensures r.Skipped? <==> IsCI(h.env) || h.electronAvailable
    ensures r == Skipped(InCI) <==> IsCI(h.env)
    ensures r.Attempted? ==>
              && (r.cleanup <==> !SkipsCleanup(h.env, h.markerExists))
              && r.mirror == Mirror(h.env)
              && r.installs == (if h.commandSucceeds(PnpmInstall) then [PnpmInstall] else [PnpmInstall, PnpmAdd(ElectronVersion)])
              && (r.download.None? <==> h.resolvesAfterInstall)
              && (r.resolved <==> h.resolvesAfterInstall || (r.download.Some? && r.download.value.Success? && h.resolvesAfterDownload))
  {
    if IsCI(h.env) then Skipped(InCI)
    else if h.electronAvailable then Skipped(AlreadyAvailable)
    else
      var cleanup := !SkipsCleanup(h.env, h.markerExists);
      var mirror := Mirror(h.env);
      var installs := if h.commandSucceeds(PnpmInstall) then [PnpmInstall] else [PnpmInstall, PnpmAdd(ElectronVersion)];
      if h.resolvesAfterInstall then Attempted(cleanup, mirror, installs, None, true)
      else
        var d := DownloadElectron(mirror, ElectronVersion, h.platform, h.arch, h.fetches);
        Attempted(cleanup, mirror, installs, Some(d), d.Success? && h.resolvesAfterDownload)
  }

  /** The pinned version's major number, as the version helpers read it. */
  lemma PinnedMajorVersion()
    ensures ElectronVersions.MajorVersion(ElectronVersion) == Some(37)
  {
    assert Strings.DecimalString(37) == "37";
    ElectronVersions.MajorVersionOfDotted(37, "3.1");
    assert Strings.DecimalString(37) + "." + "3.1" == ElectronVersion;
  }
}

/**
 * The install-time guard (scripts/ensure-electron.cjs): look for an
 * Electron binary under `node_modules/electron/dist`, install Electron with
 * pnpm when none is there, and exit 0 exactly when a binary is present in
 * the end.
 *
 * File existence and command success are inputs; the mirror is written
 * back to the environment the install commands inherit.
 */
module EnsureElectron {
  import opened Wrappers
  import opened Js
  import Search
  import DevMode

  /** `path.resolve('node_modules', 'electron', 'dist')` from the working directory. */
  function Dist(cwd: string): string {
    cwd + "/node_modules/electron/dist"
  }

  /**
   * `electronBinaryPaths()`: the three candidate binaries, in the order they
   * are checked. The table is stated literally; `PlatformBinaryIsCandidate`
   * ties it to the dev launcher's per-platform table, which is what makes it
   * more than a restatement.
   */
  function BinaryPaths(cwd: string): (ps: seq<string>)
    ensures |ps| == 3
    ensures ps[0] == Dist(cwd) + "/electron"
    ensures ps[1] == Dist(cwd) + "/electron.exe"
    ensures ps[2] == Dist(cwd) + "/Electron.app/Contents/MacOS/Electron"
  {
    [Dist(cwd) + "/electron", Dist(cwd) + "/electron.exe", Dist(cwd) + "/Electron.app/Contents/MacOS/Electron"]
  }

  /** `checkBinaryPresent()`: the first existing candidate, `None` for `null`. */
  function CheckBinaryPresent(cwd: string, present: string -> bool): (r: Option<string>)
    ensures r.None? <==> forall i :: 0 <= i < 3 ==> !present(BinaryPaths(cwd)[i])
    ensures r.Some? ==> exists i :: Search.IsFirst(BinaryPaths(cwd), present, i) && r.value == BinaryPaths(cwd)[i]
  {
    var ps := BinaryPaths(cwd);
    match Search.FirstIndex(ps, present)
    case None => None
    case Some(i) => Some(ps[i])
  }

  /** Each platform's executable, as the dev launcher places it, is one of the candidates checked here. */
  lemma PlatformBinaryIsCandidate(cwd: string, platform: string)
    ensures Dist(cwd) + "/" + DevMode.ExecRelPath(platform) in BinaryPaths(cwd)
  {
    var ps := BinaryPaths(cwd);
    var base := Dist(cwd) + "/";
    var exe := DevMode.ExecRelPath(platform);
    if platform == "darwin" {
      assert base + exe == ps[2];
    } else if platform == "win32" {
      assert base + exe == ps[1];
    } else {
      assert base + exe == ps[0];
    }
  }

  /** The mirror here: `ELECTRON_MIRROR`, else the default; `npm_config_electron_mirror` is not read. */
  function Mirror(env: Env): (m: string)
    ensures EnvSet(env, "ELECTRON_MIRROR") ==> m == env["ELECTRON_MIRROR"]
    ensures !EnvSet(env, "ELECTRON_MIRROR") ==> m == DevMode.DefaultMirror
  {
    if EnvSet(env, "ELECTRON_MIRROR") then env["ELECTRON_MIRROR"] else DevMode.DefaultMirror
  }

  /** Unlike the dev launcher, this script ignores `npm_config_electron_mirror`. */
  lemma MirrorDiffersFromDevMode(env: Env)
    requires !EnvSet(env, "ELECTRON_MIRROR")
    requires EnvSet(env, "npm_config_electron_mirror") && env["npm_config_electron_mirror"] != DevMode.DefaultMirror
    ensures Mirror(env) != DevMode.Mirror(env)
  {
    DevMode.MirrorPrecedence(env);
  }

  /** What the script reads from its host. */
  datatype ScriptHost = ScriptHost(
    env: Env,
    cwd: string,
    /** Which paths exist before any install. */
    existsBefore: string -> bool,
    /** Whether a shell command succeeds. */
    commandSucceeds: string -> bool,
    /** Which paths exist after the install attempt. */
    existsAfter: string -> bool
  )

  /** How the script ends: its exit code, the environment it leaves, and the pnpm install commands it ran. */
  datatype ScriptRun = ScriptRun(exitCode: int, env: Env, installs: seq<string>)

  const PnpmInstall: string := "pnpm install"

  /**
   * The script body (its CI test is the dev launcher's `isCI`, spelled out
   * again in the script): exit 0 in CI or when a binary is already there;
   * otherwise export the mirror, try `pnpm add`, fall back to
   * `pnpm install`, and exit 0 exactly when a binary is present afterwards.
   * A failing fallback is caught and reported; the final check decides.
   */
  function Run(h: ScriptHost): (r: ScriptRun)
    ensures r.exitCode == 0 || r.exitCode == 1
    ensures DevMode.IsCI(h.env) ==> r == ScriptRun(0, h.env, [])
    ensures !DevMode.IsCI(h.env) && CheckBinaryPresent(h.cwd, h.existsBefore).Some? ==> r == ScriptRun(0, h.env, [])
    ensures |r.installs| > 0 <==> !DevMode.IsCI(h.env) && CheckBinaryPresent(h.cwd, h.existsBefore).None?
    ensures |r.installs| > 0 ==>
              && r.installs[0] == DevMode.PnpmAdd(DevMode.ElectronVersion)
              && (|r.installs| == 2 <==> !h.commandSucceeds(r.installs[0]))
              && (r.exitCode == 0 <==> CheckBinaryPresent(h.cwd, h.existsAfter).Some?)
              && "ELECTRON_MIRROR" in r.env && r.env["ELECTRON_MIRROR"] == Mirror(h.env)
              && "npm_config_electron_mirror" in r.env && r.env["npm_config_electron_mirror"] == Mirror(h.env)
  {
    if DevMode.IsCI(h.env) then ScriptRun(0, h.env, [])
    else if CheckBinaryPresent(h.cwd, h.existsBefore).Some? then ScriptRun(0, h.env, [])
    else
      var mirror := Mirror(h.env);
      var env := h.env["ELECTRON_MIRROR" := mirror]["npm_config_electron_mirror" := mirror];
      var add := DevMode.PnpmAdd(DevMode.ElectronVersion);
      var installs := if h.commandSucceeds(add) then [add] else [add, PnpmInstall];
      var code := if CheckBinaryPresent(h.cwd, h.existsAfter).Some? then 0 else 1;
      ScriptRun(code, env, installs)
  }

  /** The exit code in one line: success exactly in CI or when a binary is present before or after installing. */
  lemma ExitCodeSummary(h: ScriptHost)
    ensures Run(h).exitCode == 0 <==>
              || DevMode.IsCI(h.env)
              || CheckBinaryPresent(h.cwd, h.existsBefore).Some?
              || CheckBinaryPresent(h.cwd, h.existsAfter).Some?
  {
  }
}

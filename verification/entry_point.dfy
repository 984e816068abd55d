/**
 * The process entry point (packages/entry-point.mjs): optionally install the
 * crash handlers, choose the renderer (dev-server URL or built file) and the
 * preload script, and start the app with that configuration.
 *
 * Module resolution and URL parsing are foreign calls; their outcomes are
 * inputs here.
 */
module EntryPoint {
  import opened Wrappers
  import opened Js
  import AppInit

  /** Whatever the entry point reads from its host. */
  datatype Host = Host(
    env: Env,
    /** `dirname(fileURLToPath(import.meta.url))`. */
    moduleDir: string,
    /** `import.meta.resolve('@app/renderer')` as a path, or `None` when it throws. */
    rendererResolution: Option<string>,
    /** `import.meta.resolve('@app/preload/exposed.mjs')` as a path, or `None` when it throws. */
    preloadResolution: Option<string>,
    /** `new URL(text)`, or `None` when the text is not a valid URL (the constructor throws). */
    parseUrl: string -> Option<AppInit.Url>
  )

  /** The crash handlers are installed in development, under Playwright, and on CI. */
  predicate InstallsCrashHandlers(env: Env) {
    EnvIs(env, "NODE_ENV", "development") || EnvIs(env, "PLAYWRIGHT_TEST", "true") || EnvSet(env, "CI")
  }

  /** `showAndExit`: the exit code after an uncaught exception or unhandled rejection. */
  const CrashExitCode: int := 1

  /** The renderer is the dev server when MODE is 'development' and a dev-server URL is given. */
  predicate UsesDevServer(env: Env) {
    EnvIs(env, "MODE", "development") && EnvSet(env, "VITE_DEV_SERVER_URL")
  }

  /** The built renderer: the resolved package, else the workspace build output. */
  function RendererPath(host: Host): string {
    host.rendererResolution.GetOr(host.moduleDir + "/renderer/dist/index.html")
  }

  /** The preload script: the resolved package export, else the workspace build output. */
  function PreloadPath(host: Host): string {
    host.preloadResolution.GetOr(host.moduleDir + "/preload/dist/exposed.mjs")
  }

  /** What evaluating the entry point leads to. */
  datatype Launch =
    | Started(config: AppInit.InitConfig)   // `initApp` called once, with this configuration
    | Aborted(error: string)                // evaluation threw before `initApp` was called

  datatype Outcome = Outcome(crashHandlers: bool, launch: Launch)

  function Entry(host: Host): (o: Outcome)
    ensures o.crashHandlers <==> InstallsCrashHandlers(host.env)
    ensures o.launch.Aborted? <==> UsesDevServer(host.env) && host.parseUrl(host.env["VITE_DEV_SERVER_URL"]).None?
    ensures o.launch.Started? ==>
              && (o.launch.config.renderer.DevServer? <==> UsesDevServer(host.env))
              && (o.launch.config.renderer.DevServer? ==>
                    Some(o.launch.config.renderer.url) == host.parseUrl(host.env["VITE_DEV_SERVER_URL"]))
              && (o.launch.config.renderer.File? ==>
                    o.launch.config.renderer.path ==
                      if host.rendererResolution.Some? then host.rendererResolution.value
                      else host.moduleDir + "/renderer/dist/index.html")
              && o.launch.config.preloadPath ==
                   if host.preloadResolution.Some? then host.preloadResolution.value
                   else host.moduleDir + "/preload/dist/exposed.mjs"
  {
    var handlers := InstallsCrashHandlers(host.env);
    var renderer :=
      if UsesDevServer(host.env) then
        match host.parseUrl(host.env["VITE_DEV_SERVER_URL"])
        case None => Failure("TypeError: Invalid URL")
        case Some(url) => Success(AppInit.DevServer(url))
      else Success(AppInit.File(RendererPath(host)));
    match renderer
    case Failure(e) => Outcome(handlers, Aborted(e))
    case Success(r) => Outcome(handlers, Started(AppInit.InitConfig(r, PreloadPath(host))))
  }

  /** The crash response: when installed, a crash exits with code 1; otherwise Node's default applies. */
  function OnCrash(o: Outcome): (code: Option<int>)
    ensures code.Some? <==> o.crashHandlers
    ensures code.Some? ==> code.value == CrashExitCode
  {
    if o.crashHandlers then Some(CrashExitCode) else None
  }

  /** Outside development, the built renderer file is used even when a dev-server URL is set. */
  lemma ProductionIgnoresDevServer(host: Host)
    requires !EnvIs(host.env, "MODE", "development")
    ensures Entry(host).launch.Started? && Entry(host).launch.config.renderer.File?
  {
  }
}

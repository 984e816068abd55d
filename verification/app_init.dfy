/**
 * `initApp` (packages/main/src/index.ts): create the Logger, register the
 * eight application modules with one module runner in a fixed order, with
 * origin allow-sets chosen by whether the renderer is a dev-server URL, and
 * settle as the runner does.
 */
module AppInit {
  import opened Wrappers
  import opened Js
  import Search
  import ModuleRunner

  /** A parsed URL, reduced to the two fields the main process reads. */
  datatype Url = Url(href: string, origin: string)

  /** `initConfig.renderer`: a dev-server URL or a built HTML file. */
  datatype Renderer = DevServer(url: Url) | File(path: string)

  /** `AppInitConfig`: where the renderer and the preload script live. */
  datatype InitConfig = InitConfig(renderer: Renderer, preloadPath: string)

  /** The modules `initApp` registers, with the options it gives each. */
  datatype ModuleSpec =
    | WindowManager(config: InitConfig, openDevTools: bool)
    | SingleInstance
    | TerminateOnLastWindowClose
    | HardwareAcceleration(enable: bool)
    | AutoUpdater
    | DevToolsExtension(extension: string)
    | InternalOrigins(origins: set<string>)
    | ExternalUrls(urls: set<string>)

  /** The documentation sites a dev-server renderer may open externally. */
  const DocumentationOrigins: set<string> := {
    "https://vite.dev",
    "https://developer.mozilla.org",
    "https://react.dev",
    "https://www.typescriptlang.org",
    "https://zustand-demo.pmnd.rs"
  }

  /** `new Set(renderer instanceof URL ? [renderer.origin] : [])`. */
  function InternalOriginSet(r: Renderer): set<string> {
    if r.DevServer? then {r.url.origin} else {}
  }

  /** The external-URL allow-set: the documentation sites for a dev-server renderer, nothing otherwise. */
  function ExternalUrlSet(r: Renderer): set<string> {
    if r.DevServer? then DocumentationOrigins else {}
  }

  /** The modules in the order `initApp` passes them to `init`. */
  function Registrations(cfg: InitConfig): seq<ModuleSpec> {
    [
      WindowManager(cfg, false),
      SingleInstance,
      TerminateOnLastWindowClose,
      HardwareAcceleration(false),
      AutoUpdater,
      DevToolsExtension("REACT_DEVELOPER_TOOLS"),
      InternalOrigins(InternalOriginSet(cfg.renderer)),
      ExternalUrls(ExternalUrlSet(cfg.renderer))
    ]
  }

  /** The registration order fixed by `initApp`. */
  lemma RegistrationOrder(cfg: InitConfig)
    ensures var ms := Registrations(cfg);
            && |ms| == 8
            && ms[0].WindowManager? && ms[1].SingleInstance? && ms[2].TerminateOnLastWindowClose?
            && ms[3].HardwareAcceleration? && ms[4].AutoUpdater? && ms[5].DevToolsExtension?
            && ms[6].InternalOrigins? && ms[7].ExternalUrls?
    ensures Registrations(cfg)[0] == WindowManager(cfg, false)
    ensures Registrations(cfg)[3] == HardwareAcceleration(false)
  {
  }

  /**
   * The security modules: a dev-server renderer may navigate only to its own
   * origin and open the five documentation sites; a file renderer gets two
   * empty allow-sets.
   */
  lemma OriginAllowSets(cfg: InitConfig)
    ensures cfg.renderer.DevServer? ==>
              && Registrations(cfg)[6] == InternalOrigins({cfg.renderer.url.origin})
              && Registrations(cfg)[7] == ExternalUrls(DocumentationOrigins)
              && |DocumentationOrigins| == 5
    ensures cfg.renderer.File? ==>
              Registrations(cfg)[6] == InternalOrigins({}) && Registrations(cfg)[7] == ExternalUrls({})
  {
  }

  /** What happened during start-up, in order. */
  datatype Event = LoggerCreated | Enabled(spec: ModuleSpec)

  /** The result of `initApp`: the start-up events and the settlement of its promise. */
  datatype Startup = Startup(events: seq<Event>, settlement: ModuleRunner.Settlement)

  /** The factory `initApp` calls for each module. */
  function Name(spec: ModuleSpec): string {
    match spec
    case WindowManager(_, _) => "createWindowManagerModule"
    case SingleInstance => "disallowMultipleAppInstance"
    case TerminateOnLastWindowClose => "terminateAppOnLastWindowClose"
    case HardwareAcceleration(_) => "hardwareAccelerationMode"
    case AutoUpdater => "autoUpdater"
    case DevToolsExtension(_) => "chromeDevToolsExtension"
    case InternalOrigins(_) => "allowInternalOrigins"
    case ExternalUrls(_) => "allowExternalUrls"
  }

  /** A registered module as the runner sees it; `behaviour` says what each module's `enable` does. */
  function AsModule(spec: ModuleSpec, behaviour: ModuleSpec -> ModuleRunner.EnableResult): ModuleRunner.AppModule {
    ModuleRunner.AppModule(Name(spec), _ => behaviour(spec))
  }

  function AsModules(specs: seq<ModuleSpec>, behaviour: ModuleSpec -> ModuleRunner.EnableResult): (ms: seq<ModuleRunner.AppModule>)
    ensures |ms| == |specs|
    ensures forall i :: 0 <= i < |specs| ==>
              ms[i].enable(ModuleRunner.CreateModuleContext()) == behaviour(specs[i])
  {
    seq(|specs|, i requires 0 <= i < |specs| => AsModule(specs[i], behaviour))
  }

  /**
   * `initApp(cfg)`: the Logger first, then the module `init` chain. A
   * synchronous throw from an `enable` rejects `initApp` at once with that
   * error; otherwise `initApp` settles as `moduleRunner.run()`.
   */
  function InitApp(cfg: InitConfig, behaviour: ModuleSpec -> ModuleRunner.EnableResult): Startup {
    var specs := Registrations(cfg);
    var step := ModuleRunner.InitAll(ModuleRunner.Create(), AsModules(specs, behaviour));
    var enabled := |step.runner.calls|;
    var events := [LoggerCreated] + seq(if enabled <= |specs| then enabled else |specs|, i requires 0 <= i < |specs| => Enabled(specs[i]));
    match step.escaped
    case Some(e) => Startup(events, ModuleRunner.Rejected(e))
    case None => Startup(events, ModuleRunner.Run(step.runner))
  }

  /** `enable` of the given module throws. */
  predicate ThrowsIn(behaviour: ModuleSpec -> ModuleRunner.EnableResult, spec: ModuleSpec) {
    behaviour(spec).Threw?
  }

  /**
   * With no synchronous throw, the Logger is created first, every module is
   * enabled once in registration order, and `initApp` settles exactly as the
   * runner's verdict: the earliest-registered module that does not fulfil.
   */
  lemma InitAppSettlesAsRun(cfg: InitConfig, behaviour: ModuleSpec -> ModuleRunner.EnableResult)
    requires forall i :: 0 <= i < 8 ==> !ThrowsIn(behaviour, Registrations(cfg)[i])
    ensures var specs := Registrations(cfg);
            InitApp(cfg, behaviour).events == [LoggerCreated] + seq(8, i requires 0 <= i < 8 => Enabled(specs[i]))
    ensures InitApp(cfg, behaviour).settlement ==
              ModuleRunner.Expected(AsModules(Registrations(cfg), behaviour))
  {
    var specs := Registrations(cfg);
    var ms := AsModules(specs, behaviour);
    assert forall i :: 0 <= i < |ms| ==> !ModuleRunner.Throws(ms[i]);
    ModuleRunner.RunIsEarliestRegistered(ms);
    ModuleRunner.InitAllNoThrow(ModuleRunner.Create(), ms);
  }

  /**
   * When the `k`-th module is the first whose `enable` throws, the modules
   * after it are never enabled and `initApp` rejects with that error.
   */
  lemma InitAppThrow(cfg: InitConfig, behaviour: ModuleSpec -> ModuleRunner.EnableResult, k: nat)
    requires k < 8 && ThrowsIn(behaviour, Registrations(cfg)[k])
    requires forall i :: 0 <= i < k ==> !ThrowsIn(behaviour, Registrations(cfg)[i])
    ensures var specs := Registrations(cfg);
            InitApp(cfg, behaviour).events == [LoggerCreated] + seq(k + 1, i requires 0 <= i < k + 1 => Enabled(specs[i]))
    ensures InitApp(cfg, behaviour).settlement == ModuleRunner.Rejected(behaviour(Registrations(cfg)[k]).error)
  {
    var specs := Registrations(cfg);
    var ms := AsModules(specs, behaviour);
    assert Search.IsFirst(ms, ModuleRunner.Throws, k);
    ModuleRunner.InitAllThrow(ModuleRunner.Create(), ms, k);
  }
}

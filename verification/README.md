# A Dafny model of an Electron application scaffold

The scaffold is an Electron + React + Vite template. This project models the
parts of it whose behaviour can be written down as logic, as pure functions
over abstract inputs, and proves what those parts promise.

- **Capability bridge.** The preload layer exports seven names. It installs
  each own export into the renderer's global namespace under
  `btoa(name)`. Two renderer routines rebuild the API object from the same
  seven names. The global namespace is a `map<string, Value>`. `btoa` is a
  Latin-1 check followed by base64 as in section 4 of RFC 4648. The fixed IPC
  channels of the preload functions are checked against the handlers the main
  process registers.
- **Startup.**
  - The entry point chooses a dev-server URL or a built file.
  - `initApp` registers eight modules in a fixed order, with origin
    allow-sets.
  - The module runner is an append-only promise chain, modelled by how each
    promise settles.
  - The window manager's restore-or-create step works over a list of windows.
- **Renderer state.** The counter/theme store, and the health check's
  aggregation, singleton and quick check.
- **Logging.** The read-back of the error log (trim, split, filter, tail,
  parse, reverse), the age-based cleanup and the export file name.
- **Electron tooling.**
  - Version probing: commands tried in order, a cache, and major versions.
  - The dev launcher's repair decisions: CI test, cleanup gating, mirror
    precedence, archive name, candidate URLs, first successful download, and
    the per-platform executable.
  - The install-time guard: candidate binaries, first match, exit codes.

Environment variables are a `map<string, string>`. File existence, command
success, module resolution, URL parsing and `JSON.stringify`/`JSON.parse` are
parameters.

Files, one module each:

- `wrappers.dfy`: Option/Result.
- `js.dfy`: values, JSON, truthiness, `process.env`, and number arguments with their integer conversion.
- `strings.dfy`: trim, split/join, `parseInt`.
- `base64.dfy`: RFC 4648 encoding and its strict decoder.
- `search.dfy`: first match.
- One file per component of the scaffold: `preload.dfy`,
  `renderer_bridge.dfy`, `ipc.dfy`, `module_runner.dfy`, `app_init.dfy`,
  `entry_point.dfy`, `window_manager.dfy`, `app_store.dfy`,
  `health_check.dfy`, `logger.dfy`, `electron_versions.dfy`, `dev_mode.dfy`,
  `ensure_electron.dfy`.

## Model

| member | source | states |
|---|---|---|
| Base64.Btoa | packages/preload/src/exposed.ts:10 | `btoa(name)` is defined exactly for Latin-1 names; it throws on the others. |
| Base64.DecodeEncode | packages/preload/src/exposed.ts:10 | Decoding recovers every byte sequence from its RFC 4648 encoding. This is the partner that makes the key derivation invertible. |
| Base64.BtoaInjective | packages/preload/src/exposed.ts:10 | Distinct export names never share a global key, so no export overwrites another. |
| Preload.PreloadNamespace | packages/preload/src/index.ts:29 | The namespace owns exactly the seven exported names, and enumerates exactly its own keys. |
| Preload.InstallFrom | packages/preload/src/exposed.ts:4-11 | The loop completes iff every remaining export has a Latin-1 name, a key no earlier export of the loop took, and a key not already bound in the globals; `exposeInMainWorld` refuses to rebind a key. When it completes, every own export `k` is under `btoa(k)` with its own value, and the key set is the old keys plus the installed ones. Old keys are never overwritten, even when the loop stops. |
| RendererBridge.Collect | packages/renderer/src/utils/electronAdapter.ts:19-26 | Name `n` is in the result iff it is listed and `g[btoa(n)]` is defined, and it carries that value. A name `btoa` rejects makes the lookup fail. |
| RendererBridge.Assemble | packages/renderer/src/utils/electronAdapter.ts:7-35 | The adapter returns null exactly when no expected key is defined. Otherwise its keys are exactly the listed names whose key is defined, with the installed values. |
| RendererBridge.AttachInline | packages/renderer/src/main.tsx:9-41 | `window.electronAPI` is assigned iff some expected key is defined, with exactly those names and values. Otherwise it is left as it was. |
| RendererBridge.NameListsAgree | packages/renderer/src/main.tsx:11-19 | The two renderer name lists are equal to each other and to the preload's seven exports. |
| RendererBridge.AttachAgreesWithAdapter | packages/renderer/src/main.tsx:24-38 | When the inline routine assigns, it assigns the adapter's non-null result. When the adapter gives null, nothing is assigned. |
| RendererBridge.DefinedExports | packages/preload/src/index.ts:29 | The exports whose value is defined, each with its value. |
| RendererBridge.InstalledExports | packages/preload/src/exposed.ts:6-11 | With Latin-1, distinct names whose keys are not bound yet, installation never throws and every own export is found under its key. |
| RendererBridge.InstallSucceedsIffKeysFree | packages/preload/src/exposed.ts:6-12 | The preload's loop completes without a throw exactly when none of the seven keys is already bound in the globals. |
| RendererBridge.InstalledKeyCount | packages/preload/src/exposed.ts:6-12 | Into empty globals, installation adds exactly seven keys, one per export: no two exports share a key. |
| RendererBridge.InstallThenAssemble | packages/renderer/src/utils/electronAdapter.ts:21-30 | Installing the preload's exports and then assembling gives back exactly the defined exports with identical values, whatever else the globals held, as long as none of the seven keys was bound already. |
| RendererBridge.AttachInstalled | packages/renderer/src/main.tsx:24-34 | After an installation that found its seven keys free, the inline routine assigns exactly the defined exports. |
| RendererBridge.ExportInstalled | packages/preload/src/exposed.ts:6-11 | After an installation that found its seven keys free, the global under `btoa(name)` holds the preload's export of that name, for each of the seven names (`versions` among them). |
| Ipc.Register | packages/main/src/modules/Logger.ts:42-78 | Registration succeeds iff no channel repeats, either among the new handlers or against the old table. The table then maps each channel to its handler's arity and keeps the old entries. |
| Ipc.Bind | packages/main/src/modules/Logger.ts:44 | A handler sees the invocation's arguments in order. Surplus arguments are dropped and missing ones read as `undefined`. |
| Ipc.Dispatch | packages/preload/src/index.ts:5-27 | An invocation reaches a handler iff its channel is registered, and the handler then gets as many parameters as it reads. |
| Ipc.MainTable | packages/main/src/modules/Logger.ts:44-77 | The main process handles exactly `log-error`, `get-log-path`, `show-message` and `get-app-info`. |
| Ipc.RegistrationsSucceed | packages/main/src/modules/Logger.ts:44-77 | The four registrations have distinct channels, so none is refused. |
| Ipc.FixedChannelsHandled | packages/preload/src/index.ts:10-27 | Every channel a preload function invokes on its own has a handler of the arity it passes. |
| Ipc.PreloadCallsReachHandlers | packages/preload/src/index.ts:10-27 | `logError(type, data)` binds `(type, data)` in order. `showMessage(m)` passes `m` unchanged. The two queries pass nothing. |
| Ipc.SendForwards | packages/preload/src/index.ts:5-7 | `send(channel, message)` reaches the caller's channel iff it is registered, and the message arrives unchanged. |
| ModuleRunner.ThenAssociative | packages/main/src/ModuleRunner.ts:31 | Appending to the chain is associative, so the chain's settlement does not depend on grouping. |
| ModuleRunner.Init | packages/main/src/ModuleRunner.ts:27-41 | `enable` is called at once, and the call is recorded with a context whose only field is the `app` singleton. It throws synchronously iff `enable` throws, with the same error, and the chain is then unchanged. A non-promise result also leaves the chain unchanged. |
| ModuleRunner.AwaitIsRun | packages/main/src/ModuleRunner.ts:14-25 | Awaiting the runner reacts to the same settlement as awaiting `run()`. |
| ModuleRunner.InitAllNoThrow | packages/main/src/ModuleRunner.ts:27-35 | With no synchronous throw, every module is enabled once in registration order, and the chain becomes the old chain followed by the earliest-registered blocking module. |
| ModuleRunner.InitAllThrow | packages/main/src/ModuleRunner.ts:28 | When module `k` is the first to throw, modules `0..k` are enabled, later ones never are, and `k`'s error escapes. |
| ModuleRunner.RunIsEarliestRegistered | packages/main/src/ModuleRunner.ts:23-32 | `run()` fulfils iff every returned promise fulfils. Otherwise it settles as the earliest-registered module that does not fulfil, not the earliest in time. |
| ModuleRunner.EmptyRunnerFulfils | packages/main/src/ModuleRunner.ts:8-10 | A fresh runner's `run()` fulfils. |
| AppInit.RegistrationOrder | packages/main/src/index.ts:17-48 | Eight modules are registered in a fixed order. The window manager comes first, with `openDevTools: false`, and hardware acceleration is disabled. |
| AppInit.OriginAllowSets | packages/main/src/index.ts:29-48 | A URL renderer allows its own origin and the five documentation sites. A file renderer gets two empty sets. |
| AppInit.AsModules | packages/main/src/index.ts:17-48 | Each registration becomes one runner module, in the same order, under its factory's name. |
| AppInit.InitAppSettlesAsRun | packages/main/src/index.ts:13-50 | The Logger is created before any module. With no synchronous throw, all eight modules are enabled in order, and `initApp` settles as `moduleRunner.run()`. |
| AppInit.InitAppThrow | packages/main/src/index.ts:17-48 | A synchronous throw from the `k`-th `enable` rejects `initApp` with that error, and no later module is enabled. |
| EntryPoint.Entry | packages/entry-point.mjs:5-58 | Crash handlers are installed iff NODE_ENV is `development`, PLAYWRIGHT_TEST is `true`, or CI is set. The renderer is the dev-server URL iff MODE is `development` and VITE_DEV_SERVER_URL is set; otherwise it is the resolved file or the workspace fallback. The preload path has the same fallback. `initApp` is called once, unless the URL is invalid. |
| EntryPoint.OnCrash | packages/entry-point.mjs:10-16 | With handlers installed, a crash exits with code 1. |
| EntryPoint.ProductionIgnoresDevServer | packages/entry-point.mjs:30-42 | Outside development the built file is used, even when a dev-server URL is set. |
| WindowManager.CreateModule | packages/main/src/modules/WindowManager.ts:12-19 | DevTools opening is on only when asked for, and defaults to off. |
| WindowManager.CreateWindow | packages/main/src/modules/WindowManager.ts:28-68 | The window `new BrowserWindow` adds starts hidden, with nodeIntegration off, context isolation on, sandbox off, no webview tag and the configured preload. It is told to load the URL's href for a URL renderer and the file otherwise. |
| WindowManager.Present | packages/main/src/modules/WindowManager.ts:81-91 | A minimized window is restored, then it is shown, DevTools are opened iff the flag is set, and it is focused, in that order. |
| WindowManager.RestoreOrCreate | packages/main/src/modules/WindowManager.ts:61-94 | The first live window is reused, and a window is created only when none is alive. The call rejects exactly when a window had to be created and its load rejects; it then leaves the new window hidden at the end of the list and does nothing else. Otherwise other windows are untouched, without `show` nothing else happens, and with `show` the window ends visible and focused. |
| WindowManager.RestoreOrCreateIdempotent | packages/main/src/modules/WindowManager.ts:70-94 | Restoring again never creates or loads anything. After a successful call it returns the same window and changes nothing; after a rejected load it shows the hidden window left behind. |
| WindowManager.Enable | packages/main/src/modules/WindowManager.ts:21-26 | `enable` fulfils iff a live window existed or the new window's load fulfils. Then a live window is visible and focused and the app listens for `second-instance` and `activate`. Otherwise no listener is added and the new window stays hidden. |
| WindowManager.OnEvent | packages/main/src/modules/WindowManager.ts:24-25 | A listened-for event leaves a live, visible, focused window, unless a window had to be created and its load rejects, which leaves the new window hidden. Any other event changes nothing. |
| AppStore.Apply | packages/renderer/src/store/useAppStore.ts:18-28 | `increment`/`decrement` move the count by one and keep the theme. `toggleTheme` flips the theme and keeps the count. `reset` zeroes the count and keeps the theme. |
| AppStore.ToggleTwice | packages/renderer/src/store/useAppStore.ts:20-27 | Toggling twice is the identity. |
| AppStore.IncrementDecrement | packages/renderer/src/store/useAppStore.ts:18-19 | Increment and decrement undo each other. |
| AppStore.DecrementBelowZero | packages/renderer/src/store/useAppStore.ts:16-19 | The count starts at 0 and has no lower bound. |
| AppStore.NetCount | packages/renderer/src/store/useAppStore.ts:18-19 | Without a reset, the count moves by the increments minus the decrements. |
| AppStore.ThemeParity | packages/renderer/src/store/useAppStore.ts:17-27 | Only toggles change the theme: an even number keeps it and an odd number flips it. |
| AppStore.ResetKeepsTheme | packages/renderer/src/store/useAppStore.ts:28 | Reset only zeroes the count. |
| HealthCheck.Evaluate | packages/renderer/src/utils/healthCheck.ts:44-55 | A probe's check is true iff it answers true. Otherwise it adds exactly one error: the failure message, or the prefixed exception. |
| HealthCheck.PerformHealthCheck | packages/renderer/src/utils/healthCheck.ts:24-85 | Each check is true exactly when its probe succeeds. The electronAPI check is true iff `window.electronAPI` is defined. |
| HealthCheck.SuccessIffAllChecks | packages/renderer/src/utils/healthCheck.ts:80-81 | Each failed check adds exactly one error, so success holds iff the error list is empty, iff all four checks pass. |
| HealthCheck.ElectronApiErrorFirst | packages/renderer/src/utils/healthCheck.ts:34-38 | A missing Electron API is always reported first, and the check then fails. |
| HealthCheck.ErrorsInProbeOrder | packages/renderer/src/utils/healthCheck.ts:34-78 | Errors keep probe order: the failing probes' messages appear in the order electronAPI, localStorage, zustand, react, one per failing probe and nothing else, each at the position given by the number of earlier failures. |
| HealthCheck.ThrownProbeReported | packages/renderer/src/utils/healthCheck.ts:53-54 | A throwing probe is reported with its prefix and the exception text. |
| HealthCheck.Perform | packages/renderer/src/utils/healthCheck.ts:87-105 | The result is remembered, and it is sent to `logError` as `health-check` iff that function is available. |
| HealthCheck.GetInstance | packages/renderer/src/utils/healthCheck.ts:17-22 | The first call creates an empty checker. Later calls return the stored one. |
| HealthCheck.GetInstanceSingleton | packages/renderer/src/utils/healthCheck.ts:17-22 | `getInstance` always returns the same instance. |
| HealthCheck.LastResultIsLatest | packages/renderer/src/utils/healthCheck.ts:15-116 | The last result is null before any check, and afterwards it is the latest check's result. |
| HealthCheck.PerformQuickCheck | packages/renderer/src/utils/healthCheck.ts:145-190 | The quick check runs its own two probes. Issues are reported iff one of them is false, a throw reading as false. Only then is a `runtime-health-issue` logged, and only when `logError` is available. |
| HealthCheck.QuickAgreesWithFull | packages/renderer/src/utils/healthCheck.ts:44-190 | Given the same localStorage and store outcomes, the quick check reads each as the full check does, so it finds issues exactly when the full check fails one of those two probes. |
| HealthCheck.BridgedApiPasses | packages/renderer/src/utils/healthCheck.ts:35-105 | Once the bridge has installed (into globals where its seven keys were free) and attached the API, the Electron API check passes and `logError` is available. |
| Logger.LogFilesDistinct | packages/main/src/modules/Logger.ts:12-14 | `app.log` and `error.log` are distinct files directly inside the log directory. |
| Logger.LogLineIsOneLine | packages/main/src/modules/Logger.ts:89-114 | A serialized entry is written as exactly one line, ended by a line break. |
| Logger.ErrorEntry | packages/main/src/modules/Logger.ts:101-112 | The error entry is an object with exactly the fields timestamp, type, errorData and processInfo. |
| Logger.NonEmpty | packages/main/src/modules/Logger.ts:166 | The filter keeps exactly the non-empty lines: every kept line is non-empty and from the input, and every non-empty input line is kept. |
| Logger.NonEmptyAppend | packages/main/src/modules/Logger.ts:166 | The filter works line by line: filtering a concatenation is filtering each part, in order. |
| Logger.SliceFrom | packages/main/src/modules/Logger.ts:169 | `slice(-limit)` is a suffix. For a positive limit it has at most `limit` lines. `slice(-0)` keeps every line. |
| Logger.KeepTruthy | packages/main/src/modules/Logger.ts:170-177 | A value is in the result iff it is a truthy successful parse of some line. When all are kept, the order is unchanged. |
| Logger.KeepTruthyAppend | packages/main/src/modules/Logger.ts:177 | `.filter(Boolean)` works element by element: filtering a concatenation is filtering each part, in order. |
| Logger.KeptIndices | packages/main/src/modules/Logger.ts:170-177 | The positions `.filter(Boolean)` keeps, strictly increasing: every listed position is kept, and every kept position is listed. |
| Logger.KeepTruthyIsKeptIndices | packages/main/src/modules/Logger.ts:170-177 | What `.filter(Boolean)` returns is the kept positions' values, in their order, so it is the subsequence of kept parses. |
| Logger.Reverse | packages/main/src/modules/Logger.ts:179 | The newest line comes first. |
| Logger.GetRecentErrors | packages/main/src/modules/Logger.ts:154-183 | A missing or unreadable file gives `[]`. Every result is a truthy parse of a non-empty line of the file. The limit is a JavaScript number, default 50, truncated toward zero; a positive truncated limit bounds the count. |
| Js.ToIntegerNegate | packages/main/src/modules/Logger.ts:169 | Converting `-limit` to an integer gives the negated conversion of `limit`, NaN reading as 0. |
| Logger.SliceStartOfLimit | packages/main/src/modules/Logger.ts:169 | The start `slice(-limit)` computes is minus the number of lines kept from the end. |
| Logger.FractionalLimitTruncated | packages/main/src/modules/Logger.ts:169 | A limit of 2.5 reads back exactly what a limit of 2 does. |
| Logger.NaNLimitKeepsAll | packages/main/src/modules/Logger.ts:169 | A NaN limit reads back every non-empty line, like a zero limit. |
| Logger.RecentErrorsAreLastKept | packages/main/src/modules/Logger.ts:163-179 | For any content, the result read from the end is the subsequence of the last `limit` non-empty lines whose parse is kept: the `k`-th kept line of that tail is the `k`-th result from the end. |
| Logger.ZeroLimitKeepsAll | packages/main/src/modules/Logger.ts:169 | A zero limit keeps every line. |
| Logger.NegativeLimitDropsOldest | packages/main/src/modules/Logger.ts:169 | A negative limit drops that many of the oldest lines. |
| Logger.ContentLinesOfWritten | packages/main/src/modules/Logger.ts:114-166 | Trimming, splitting and filtering a log written one entry per line gives back exactly the serialized entries. |
| Logger.RecentErrorsRoundTrip | packages/main/src/modules/Logger.ts:154-179 | With a positive limit, reading back what `logError` appended gives the last `limit` entries, newest first, each exactly as written. |
| Logger.MissingLogIsEmpty | packages/main/src/modules/Logger.ts:158-160 | A missing error log reads as no errors. |
| Logger.CleanupOldLogs | packages/main/src/modules/Logger.ts:130-151 | Without a failure, the deleted files are exactly the `.log` files older than `daysToKeep` days (any number, default 7; NaN deletes nothing), in directory order. The loop stops iff some `.log` entry's `stat` fails, or an expired one's `unlink` fails; then only the deletions before the first such entry happen. |
| Logger.ExpiredAreLogs | packages/main/src/modules/Logger.ts:138 | Only names ending in `.log` are deleted. |
| Logger.BoundaryKept | packages/main/src/modules/Logger.ts:135-142 | A file exactly `daysToKeep` days old is kept, because the comparison is strict. |
| Logger.HalfDayKeepsTwelveHours | packages/main/src/modules/Logger.ts:135-142 | With `daysToKeep` 0.5, a log exactly twelve hours old is kept and one a millisecond older is deleted. |
| Logger.NaNDaysDeletesNothing | packages/main/src/modules/Logger.ts:135-142 | With a NaN `daysToKeep` every age comparison is false, so nothing is deleted. |
| Logger.ExportFileNameSanitised | packages/main/src/modules/Logger.ts:190-191 | Every `:` and `.` of the timestamp becomes `-`. The rest is kept in place, and the only `.` left is the extension's. |
| Logger.HandleGetLogPath | packages/main/src/modules/Logger.ts:12-52 | The `get-log-path` handler answers with the directory `logs` directly under the user-data directory, and both log files lie directly inside it. |
| ElectronVersions.GetElectronEnv | packages/electron-versions/index.js:3-27 | The result is the parsed output of the first command that works, and later commands are not run. When none works, the error is thrown. |
| ElectronVersions.PnpmExecPreferred | packages/electron-versions/index.js:5-8 | When `pnpm exec` works, its answer is used and `npx` is never run. |
| ElectronVersions.NpxFallback | packages/electron-versions/index.js:10-26 | When `pnpm exec` fails, `npx` decides: its answer, or the error. |
| ElectronVersions.Load | packages/electron-versions/index.js:29-40 | A truthy cache is returned without running anything. A success is cached. A failure leaves the cache as it was. |
| ElectronVersions.CachedAnswerIsKept | packages/electron-versions/index.js:33-35 | Once an answer is cached, later calls return it without running commands, whatever the commands would do. |
| ElectronVersions.FailedLoadRetries | packages/electron-versions/index.js:37 | A failed load leaves no trace, so the next call starts over. |
| ElectronVersions.FalsyAnswerIsRefetched | packages/electron-versions/index.js:33-37 | The cache test is truthiness, so a falsy answer is fetched again on the next call. |
| ElectronVersions.Property | packages/electron-versions/index.js:48-58 | A property of the versions object is its field, or `undefined`. Reading a property of `null` throws. |
| ElectronVersions.VersionField | packages/electron-versions/index.js:44-58 | `getChromeVersion`/`getNodeVersion` project their field of the loaded versions, and a loading failure propagates. |
| ElectronVersions.MajorOf | packages/electron-versions/index.js:52-66 | Only a string version has a major version. An absent version throws the `undefined` TypeError of `.split`, a `null` one the `null` TypeError, and any other non-string `version.split is not a function`. |
| ElectronVersions.MajorVersionOfDotted | packages/electron-versions/index.js:64-66 | The major version is the decimal number before the first `.`: `37.3.1` gives 37. |
| ElectronVersions.MajorVersionOfPlain | packages/electron-versions/index.js:64-66 | A version without a dot is read whole. |
| ElectronVersions.ChromeMajorOfLoaded | packages/electron-versions/index.js:52-54 | A loaded `chrome` field `N.rest` gives major version N. |
| Strings.ParseIntOfDecimal | packages/electron-versions/index.js:65 | `parseInt(…, 10)` reads back a decimal number, whatever non-digit text follows it. |
| Strings.JoinSplit | packages/main/src/modules/Logger.ts:165 | Splitting on a separator and joining back gives the original text. |
| Strings.Trim | packages/main/src/modules/Logger.ts:164 | Trimming removes exactly the leading and trailing whitespace. |
| DevMode.MirrorPrecedence | packages/dev-mode.js:129-132 | The mirror is ELECTRON_MIRROR, else npm_config_electron_mirror, else the npmmirror default. |
| DevMode.ArchiveArch | packages/dev-mode.js:205 | The architecture mapping leaves every value unchanged. |
| DevMode.ArchiveIsZip | packages/dev-mode.js:206-238 | The archive name always ends in `.zip`, so the unzip branch is the one taken. |
| DevMode.CandidateUrls | packages/dev-mode.js:210-217 | There are exactly two URLs: the versioned path, then the flat one. Both are under the mirror, with one `/` after it whether or not it had one. |
| DevMode.TrailingSlashIrrelevant | packages/dev-mode.js:211-217 | A mirror with or without a trailing `/` yields the same URLs. |
| DevMode.DownloadElectron | packages/dev-mode.js:203-232 | Download stops at the first URL that works. When neither works, it throws `All mirror download attempts failed`. |
| DevMode.ExecRelPath | packages/dev-mode.js:278-283 | The executable is `Electron.app/Contents/MacOS/Electron` on darwin, `electron.exe` on win32, and `electron` otherwise. |
| DevMode.TryEnsureElectron | packages/dev-mode.js:105-201 | Repair is skipped in CI and when Electron is available. The cleanup runs unless the marker exists and no reinstall is forced. The mirror follows the precedence. `pnpm add` runs only when the filtered install fails. The direct download runs only when the pnpm step did not make Electron resolvable. |
| DevMode.PinnedMajorVersion | packages/dev-mode.js:17 | The pinned version `37.3.1` has major version 37 as the version helpers read it. |
| EnsureElectron.BinaryPaths | scripts/ensure-electron.cjs:16-23 | There are exactly three candidates under `node_modules/electron/dist`, in order: `electron`, `electron.exe`, then the macOS app binary. |
| EnsureElectron.CheckBinaryPresent | scripts/ensure-electron.cjs:25-31 | The result is the first existing candidate, or null iff none exists. |
| EnsureElectron.PlatformBinaryIsCandidate | scripts/ensure-electron.cjs:16-23 | The executable the dev launcher names for each platform is one of the candidates checked here. |
| EnsureElectron.Mirror | scripts/ensure-electron.cjs:48 | The mirror is ELECTRON_MIRROR, else the npmmirror default. |
| EnsureElectron.MirrorDiffersFromDevMode | scripts/ensure-electron.cjs:48 | Unlike the dev launcher, this script ignores npm_config_electron_mirror. |
| EnsureElectron.Run | scripts/ensure-electron.cjs:33-103 | The script exits 0 without installing in CI or when a binary is present. Otherwise it exports the mirror and tries `pnpm add -w electron@37.3.1`, then `pnpm install` only if that fails. It exits 0 iff a binary is present afterwards, and 1 otherwise. |
| EnsureElectron.ExitCodeSummary | scripts/ensure-electron.cjs:33-99 | The exit code is 0 exactly in CI, or when a binary is present before or after installing. |

## Left out

- JSON, dates and dynamic imports are not modelled. `JSON.stringify`/`JSON.parse` are a codec passed in; the read-back assumes it round-trips objects and prints them on one line. `new Date().toISOString()` is a timestamp parameter. `import()` and `localStorage` are probe outcomes.
- I/O is not modelled, in Node or in Electron: `appendFile`, `mkdir`, `readdir`, `writeFile`, `dialog.showMessageBox`, `ipcMain.handle` and `BrowserWindow`. Whether a window's `loadURL`/`loadFile` fulfils is a parameter, and whether `stat` and `unlink` succeed is part of each directory entry. `contextBridge.exposeInMainWorld` is modelled only as a write into the globals that refuses an already-bound key; its copying of values across the isolated worlds is not modelled. The windows are records holding the state the module reads and changes. `exportLogs` is modelled only by its file name, because its content is file reading.
- Shell effects in the dev launcher and the install guard are not modelled: `rm`, `curl`, `unzip`, `cp`, the marker and `path.txt` writes, the shims, and `pnpm approve-builds`. Command success and file existence are predicates. The steps after a successful download are assumed to succeed.
- `isElectronAvailable` in the dev launcher is not modelled. It probes a child process, the platform binary and the pnpm store; its verdict is an input.
- The Vite dev-server and build orchestration of the dev launcher, and the integrate-renderer script, are not modelled. They are process plumbing.
- Promise timing, the event loop, intervals and timeouts are not modelled. A promise is its final settlement, or `Pending` when it never settles. Concurrent IPC calls are not modelled.
- Paths are joined with `/` and not normalised, and `path.resolve` is relative to a working-directory parameter.
- The module factories (`disallowMultipleAppInstance`, `autoUpdater`, the DevTools extension, the origin blockers and the others) are not modelled beyond their names and options. What their `enable` does is a parameter.
- `createWindow`'s `DEBUG` preload check is not modelled. It only logs.
- Console output and log messages are not modelled, except the text of thrown errors and the error messages of the health check.
- Node's default crash behaviour without the handlers is not modelled. It is `None` in `EntryPoint.OnCrash`.
- `startRuntimeMonitoring`'s listeners and `logRuntimeError` are not modelled. They forward browser events to `logError`.
- Numbers in JSON are integers, because the model never does arithmetic on parsed numbers.
- AppStore.Apply, AppStore.IncrementDecrement, AppStore.NetCount, Strings.ParseInt: counts and parsed integers are unbounded integers. The source's numbers are IEEE doubles, exact only up to 2^53, so these contracts do not cover counts or parsed values beyond that bound.
- Logger.GetRecentErrors, Logger.CleanupOldLogs: a limit or day count is a finite number or NaN; the infinities are not represented, and neither is the rounding of `daysToKeep * 86400000` to a double.

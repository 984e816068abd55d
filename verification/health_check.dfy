/**
 * The renderer's start-up self-test (packages/renderer/src/utils/healthCheck.ts):
 * four probes folded into `{success, checks, errors}`, the singleton that
 * keeps the last result, and the periodic quick check.
 *
 * What each probe finds (localStorage round trip, dynamic imports of the
 * store and of React) is an input; `window.electronAPI` is the value the
 * bridge assigned, if any.
 */
module HealthCheck {
  import opened Wrappers
  import opened Js
  import Preload
  import RendererBridge

  /** How a probe went: it ran and answered, or it threw with the given text. */
  datatype Probe = Answered(ok: bool) | Threw(message: string)

  /** `window.electronAPI`: `None` is `undefined`. */
  type WindowApi = Option<RendererBridge.Api>

  /** What the probes find. */
  datatype Environment = Environment(
    electronAPI: WindowApi,
    localStorage: Probe,
    zustand: Probe,
    react: Probe
  )

  datatype Checks = Checks(electronAPI: bool, localStorage: bool, zustand: bool, react: bool)

  datatype HealthCheckResult = HealthCheckResult(success: bool, checks: Checks, errors: seq<string>, timestamp: string)

  /**
   * One guarded probe: its check value and the errors it appends — one
   * message when it answers false, one naming the exception when it throws.
   */
  function Evaluate(p: Probe, unavailable: string, failed: string): (r: (bool, seq<string>))
    ensures r.0 <==> p == Answered(true)
    ensures |r.1| == (if r.0 then 0 else 1)
    ensures p == Answered(false) ==> r.1 == [unavailable]
    ensures p.Threw? ==> r.1 == [failed + ": " + p.message]
  {
    match p
    case Answered(ok) => if ok then (true, []) else (false, [unavailable])
    case Threw(e) => (false, [failed + ": " + e])
  }

  /** `performHealthCheck`: the probes run in order electronAPI, localStorage, zustand, react. */
  function PerformHealthCheck(env: Environment, timestamp: string): (r: HealthCheckResult)
    ensures r.checks.electronAPI <==> env.electronAPI.Some?
    ensures r.checks.localStorage <==> env.localStorage == Answered(true)
    ensures r.checks.zustand <==> env.zustand == Answered(true)
    ensures r.checks.react <==> env.react == Answered(true)
    ensures r.timestamp == timestamp
  {
    var api := if env.electronAPI.Some? then (true, []) else (false, ["Electron API not available"]);
    var storage := Evaluate(env.localStorage, "localStorage not working properly", "localStorage check failed");
    var store := Evaluate(env.zustand, "Zustand store not initialized properly", "Zustand check failed");
    var react := Evaluate(env.react, "React not available", "React check failed");
    var errors := api.1 + storage.1 + store.1 + react.1;
    HealthCheckResult(|errors| == 0, Checks(api.0, storage.0, store.0, react.0), errors, timestamp)
  }

  function FailedChecks(c: Checks): nat {
    (if c.electronAPI then 0 else 1) + (if c.localStorage then 0 else 1)
    + (if c.zustand then 0 else 1) + (if c.react then 0 else 1)
  }

  /**
   * Each failing check contributes exactly one error, so the result is a
   * success exactly when all four checks pass, and only then has no errors.
   */
  lemma SuccessIffAllChecks(env: Environment, timestamp: string)
    ensures var r := PerformHealthCheck(env, timestamp);
            && |r.errors| == FailedChecks(r.checks)
            && (r.success <==> |r.errors| == 0)
            && (r.success <==> r.checks == Checks(true, true, true, true))
  {
  }

  /** Whether a probe failed, as 0 or 1: the number of errors it contributes. */
  function Failures(failed: bool): nat {
    if failed then 1 else 0
  }

  /**
   * The errors keep the probe order: each failing probe's message sits after
   * the messages of the failing probes before it, in the order electronAPI,
   * localStorage, zustand, react, and nothing else is reported.
   */
  lemma ErrorsInProbeOrder(env: Environment, timestamp: string)
    ensures var r := PerformHealthCheck(env, timestamp);
            var storage := Evaluate(env.localStorage, "localStorage not working properly", "localStorage check failed");
            var store := Evaluate(env.zustand, "Zustand store not initialized properly", "Zustand check failed");
            var react := Evaluate(env.react, "React not available", "React check failed");
            var a := Failures(env.electronAPI.None?);
            var b := a + Failures(!storage.0);
            var c := b + Failures(!store.0);
            && |r.errors| == c + Failures(!react.0)
            && (env.electronAPI.None? ==> r.errors[0] == "Electron API not available")
            && (!storage.0 ==> r.errors[a] == storage.1[0])
            && (!store.0 ==> r.errors[b] == store.1[0])
            && (!react.0 ==> r.errors[c] == react.1[0])
  {
  }

  /** The errors keep the probe order: an unavailable Electron API is always reported first. */
  lemma ElectronApiErrorFirst(env: Environment, timestamp: string)
    requires env.electronAPI.None?
    ensures var r := PerformHealthCheck(env, timestamp);
            |r.errors| > 0 && r.errors[0] == "Electron API not available" && !r.success
  {
  }

  /** A thrown probe's message is reported with the probe's prefix. */
  lemma ThrownProbeReported(env: Environment, timestamp: string, e: string)
    requires env.electronAPI.Some? && env.localStorage == Threw(e)
    ensures PerformHealthCheck(env, timestamp).errors[0] == "localStorage check failed: " + e
  {
  }

  /** `window.electronAPI?.logError` is truthy. */
  predicate CanLogError(api: WindowApi) {
    api.Some? && "logError" in api.value && Truthy(api.value["logError"])
  }

  /** The `HealthChecker` instance: its last result. */
  datatype Checker = Checker(checkResults: Option<HealthCheckResult>)

  /** The effect of `performHealthCheck` on its checker: the result and the error-log kind reported, if any. */
  datatype Performed = Performed(checker: Checker, result: HealthCheckResult, logged: Option<string>)

  function Perform(c: Checker, env: Environment, timestamp: string): (p: Performed)
    ensures p.checker.checkResults == Some(p.result)
    ensures p.logged.Some? <==> CanLogError(env.electronAPI)
    ensures p.logged.Some? ==> p.logged.value == "health-check"
  {
    var r := PerformHealthCheck(env, timestamp);
    Performed(Checker(Some(r)), r, if CanLogError(env.electronAPI) then Some("health-check") else None)
  }

  /** `getLastCheckResult`. */
  function GetLastCheckResult(c: Checker): Option<HealthCheckResult> {
    c.checkResults
  }

  /** The static slot holding the singleton, if created. */
  type Slot = Option<Checker>

  /** `HealthChecker.getInstance()`: the instance and the slot afterwards. */
  function GetInstance(s: Slot): (r: (Checker, Slot))
    ensures r.1 == Some(r.0)
    ensures s.Some? ==> r.0 == s.value
    ensures s.None? ==> r.0.checkResults.None?
  {
    match s
    case Some(c) => (c, s)
    case None => var c := Checker(None); (c, Some(c))
  }

  /** `getInstance` always returns the same instance, and later calls change nothing. */
  lemma GetInstanceSingleton(s: Slot)
    ensures var (c1, s1) := GetInstance(s);
            var (c2, s2) := GetInstance(s1);
            c2 == c1 && s2 == s1
  {
  }

  /** Before any check there is no result; afterwards the latest result is returned. */
  lemma LastResultIsLatest(env1: Environment, t1: string, env2: Environment, t2: string)
    ensures GetLastCheckResult(GetInstance(None).0) == None
    ensures var c := GetInstance(None).0;
            var p1 := Perform(c, env1, t1);
            var p2 := Perform(p1.checker, env2, t2);
            GetLastCheckResult(p1.checker) == Some(PerformHealthCheck(env1, t1))
            && GetLastCheckResult(p2.checker) == Some(PerformHealthCheck(env2, t2))
  {
  }

  /** The quick check: localStorage and the store; a throw in either reads as false. */
  datatype QuickCheck = QuickCheck(localStorage: bool, zustand: bool, hasIssues: bool, logged: Option<string>)

  /**
   * `performQuickCheck`, run every 30 seconds: its own localStorage round
   * trip (under `__quick_check__`) and its own store import, each an
   * outcome of that run, independent of the start-up check's probes.
   */
  function PerformQuickCheck(api: WindowApi, localStorage: Probe, zustand: Probe): (q: QuickCheck)
    ensures q.localStorage <==> localStorage == Answered(true)
    ensures q.zustand <==> zustand == Answered(true)
    ensures q.hasIssues <==> !q.localStorage || !q.zustand
    ensures q.logged.Some? <==> q.hasIssues && CanLogError(api)
    ensures q.logged.Some? ==> q.logged.value == "runtime-health-issue"
  {
    var storage := localStorage == Answered(true);
    var store := zustand == Answered(true);
    var values := [storage, store];
    var issues := exists i :: 0 <= i < |values| && !values[i];
    assert issues <==> !storage || !store by {
      assert values[0] == storage && values[1] == store;
    }
    QuickCheck(storage, store, issues,
               if issues && CanLogError(api) then Some("runtime-health-issue") else None)
  }

  /**
   * Given the same localStorage and store outcomes, the quick check reads
   * each the way the full check does (a throw and a false answer both
   * fail), so it finds issues exactly when the full check would fail one
   * of those two probes.
   */
  lemma QuickAgreesWithFull(env: Environment, timestamp: string, localStorage: Probe, zustand: Probe)
    ensures var q := PerformQuickCheck(env.electronAPI, localStorage, zustand);
            var r := PerformHealthCheck(env.(localStorage := localStorage, zustand := zustand), timestamp);
            && (q.localStorage <==> r.checks.localStorage)
            && (q.zustand <==> r.checks.zustand)
            && (q.hasIssues <==> !r.checks.localStorage || !r.checks.zustand)
  {
  }

  /**
   * After the bridge installs the preload's exports into globals where none
   * of their keys is bound yet, and the renderer
   * assembles them, the Electron API check passes and results are reported
   * through `logError`.
   */
  lemma BridgedApiPasses(g: Preload.Globals, sha256sum: Value, versions: Value,
                         current: WindowApi, localStorage: Probe, zustand: Probe, react: Probe, timestamp: string)
    requires Preload.KeysFree(g, Preload.ExportNames)
    ensures var ns := Preload.PreloadNamespace(sha256sum, versions);
            var api := RendererBridge.AttachInline(Preload.Install(g, ns).globals, current);
            var env := Environment(api, localStorage, zustand, react);
            PerformHealthCheck(env, timestamp).checks.electronAPI && CanLogError(api)
  {
    RendererBridge.AttachInstalled(g, sha256sum, versions, current);
    LogErrorExported(sha256sum, versions);
  }

  lemma LogErrorExported(sha256sum: Value, versions: Value)
    ensures CanLogError(Some(RendererBridge.DefinedExports(Preload.PreloadNamespace(sha256sum, versions))))
  {
    var ns := Preload.PreloadNamespace(sha256sum, versions);
    assert ns.own["logError"] == Fn("logError");
  }
}

/**
 * The preload layer (packages/preload/src): the seven named exports, the IPC
 * invocation each function export makes, and the loop that installs every
 * own export into the renderer's global namespace under `btoa(name)`.
 */
module Preload {
  import opened Wrappers
  import opened Js
  import opened Base64

  /** The export list of the capability module, in declaration order. */
  const ExportNames: seq<string> :=
    ["sha256sum", "versions", "send", "logError", "getLogPath", "showMessage", "getAppInfo"]

  /**
   * The order in which `for (k in ns)` visits a module namespace object: its
   * export names sorted by code units (ECMAScript, section 10.4.6).
   */
  const EnumerationOrder: seq<string> :=
    ["getAppInfo", "getLogPath", "logError", "send", "sha256sum", "showMessage", "versions"]

  /** A call `ipcRenderer.invoke(channel, ...args)`. */
  datatype Invocation = Invocation(channel: string, args: seq<Value>)

  function Send(channel: string, message: string): Invocation {
    Invocation(channel, [Str(message)])
  }

  function LogError(kind: string, errorData: Value): Invocation {
    Invocation("log-error", [Str(kind), errorData])
  }

  function GetLogPath(): Invocation {
    Invocation("get-log-path", [])
  }

  function ShowMessage(message: string): Invocation {
    Invocation("show-message", [Str(message)])
  }

  function GetAppInfo(): Invocation {
    Invocation("get-app-info", [])
  }

  /** The channels the preload functions invoke on their own (`send` takes the caller's). */
  const FixedInvocations: seq<(string, nat)> :=
    [("log-error", 2), ("get-log-path", 0), ("show-message", 1), ("get-app-info", 0)]

  /**
   * A namespace object as `for ... in` sees it: the keys it enumerates, in
   * order, and its own properties. Inherited enumerable keys are the ones
   * enumerated but not owned.
   */
  datatype Namespace = Namespace(enumeration: seq<string>, own: map<string, Value>)

  /**
   * The preload module's namespace. `sha256sum` and `versions` come from
   * helper files that are not part of this model, so their values are
   * parameters; the other five are the functions declared in index.ts.
   */
  function PreloadNamespace(sha256sum: Value, versions: Value): (ns: Namespace)
    ensures ns.own.Keys == set n | n in ExportNames
    ensures forall k :: k in ns.own <==> k in ns.enumeration
  {
    Namespace(
      EnumerationOrder,
      map[
        "sha256sum" := sha256sum,
        "versions" := versions,
        "send" := Fn("send"),
        "logError" := Fn("logError"),
        "getLogPath" := Fn("getLogPath"),
        "showMessage" := Fn("showMessage"),
        "getAppInfo" := Fn("getAppInfo")
      ])
  }

  /** The renderer's global namespace; an absent key reads as `undefined`. */
  type Globals = map<string, Value>

  /**
   * Result of the install loop: the globals afterwards and, when `btoa`
   * threw on an export name or `exposeInMainWorld` refused its key, that
   * name (the loop stops there; what was installed before stays installed).
   */
  datatype Installation = Installation(globals: Globals, thrownAt: Option<string>)

  /** `ns.enumeration[j]` passes the own-property check. */
  predicate Exported(ns: Namespace, j: int) {
    0 <= j < |ns.enumeration| && ns.enumeration[j] in ns.own
  }

  /** Some own key enumerated at or after `i` is installed under `key`. */
  predicate WritesKey(ns: Namespace, i: nat, key: string) {
    exists j :: i <= j < |ns.enumeration| && Exported(ns, j) && Btoa(ns.enumeration[j]) == Some(key)
  }

  /** Binding `key` is refused: `exposeInMainWorld` throws when the global namespace already has it. */
  predicate Bound(g: Globals, key: string) {
    key in g
  }

  /** None of the names has a bound key (a name `btoa` rejects has no key at all). */
  predicate KeysFree(g: Globals, names: seq<string>) {
    forall n :: n in names && IsLatin1(n) ==> !Bound(g, Btoa(n).value)
  }

  /**
   * The exports enumerated from position `i` on install without a throw:
   * each name is Latin-1, its key is not yet bound, and no name comes twice
   * (its second binding would be refused).
   */
  predicate Installable(g: Globals, ns: Namespace, i: nat) {
    forall j :: i <= j < |ns.enumeration| && Exported(ns, j) ==>
      && IsLatin1(ns.enumeration[j])
      && !Bound(g, Btoa(ns.enumeration[j]).value)
      && forall l :: i <= l < j && Exported(ns, l) ==> ns.enumeration[l] != ns.enumeration[j]
  }

  /** The loop of exposed.ts from position `i` of the enumeration. */
  function InstallFrom(g: Globals, ns: Namespace, i: nat): (r: Installation)
    requires i <= |ns.enumeration|
    ensures r.thrownAt.None? <==> Installable(g, ns, i)
    ensures r.thrownAt.None? ==> forall j :: i <= j && Exported(ns, j) ==>
              var key := Btoa(ns.enumeration[j]).value;
              key in r.globals && r.globals[key] == ns.own[ns.enumeration[j]]
    ensures r.thrownAt.None? ==> forall key :: key in r.globals <==> key in g || WritesKey(ns, i, key)
    ensures forall key :: key in g ==> key in r.globals && r.globals[key] == g[key]
    decreases |ns.enumeration| - i
  {
    if i == |ns.enumeration| then Installation(g, None)
    else
      var k := ns.enumeration[i];
      if k !in ns.own then
        var r := InstallFrom(g, ns, i + 1);
        SkipStep(g, ns, i);
        r
      else
        match Btoa(k)
        case None =>
          assert Exported(ns, i);
          Installation(g, Some(k))
        case Some(key) =>
          if Bound(g, key) then
            assert Exported(ns, i);
            Installation(g, Some(k))
          else
            var r := InstallFrom(g[key := ns.own[k]], ns, i + 1);
            InstallableStep(g, ns, i, key);
            InstallStep(g, ns, i, key, r);
            r
  }

  /** A name that is enumerated but not owned changes nothing. */
  lemma SkipStep(g: Globals, ns: Namespace, i: nat)
    requires i < |ns.enumeration| && !Exported(ns, i)
    ensures Installable(g, ns, i) <==> Installable(g, ns, i + 1)
    ensures forall key :: WritesKey(ns, i, key) <==> WritesKey(ns, i + 1, key)
  {
  }

  /** Binding the export at `i` moves the install condition one position on. */
  lemma InstallableStep(g: Globals, ns: Namespace, i: nat, key: string)
    requires i < |ns.enumeration| && Exported(ns, i) && Btoa(ns.enumeration[i]) == Some(key) && !Bound(g, key)
    ensures Installable(g, ns, i) <==> Installable(g[key := ns.own[ns.enumeration[i]]], ns, i + 1)
  {
    var k := ns.enumeration[i];
    var g' := g[key := ns.own[k]];
    if Installable(g, ns, i) {
      forall j | i + 1 <= j && Exported(ns, j)
        ensures IsLatin1(ns.enumeration[j]) && !Bound(g', Btoa(ns.enumeration[j]).value)
      {
        assert k != ns.enumeration[j];
        if Btoa(ns.enumeration[j]).value == key {
          BtoaInjective(k, ns.enumeration[j]);
        }
      }
    }
    if Installable(g', ns, i + 1) {
      forall j | i <= j && Exported(ns, j)
        ensures IsLatin1(ns.enumeration[j]) && !Bound(g, Btoa(ns.enumeration[j]).value)
        ensures forall l :: i <= l < j && Exported(ns, l) ==> ns.enumeration[l] != ns.enumeration[j]
      {
        if j > i {
          assert Btoa(ns.enumeration[j]).value != key;
        }
      }
    }
  }

  lemma InstallStep(g: Globals, ns: Namespace, i: nat, key: string, r: Installation)
    requires i < |ns.enumeration| && Exported(ns, i) && Btoa(ns.enumeration[i]) == Some(key) && !Bound(g, key)
    requires Installable(g, ns, i) <==> Installable(g[key := ns.own[ns.enumeration[i]]], ns, i + 1)
    requires var g' := g[key := ns.own[ns.enumeration[i]]];
      && (r.thrownAt.None? <==> Installable(g', ns, i + 1))
      && (r.thrownAt.None? ==> forall j :: i + 1 <= j && Exported(ns, j) ==>
           var key := Btoa(ns.enumeration[j]).value;
           key in r.globals && r.globals[key] == ns.own[ns.enumeration[j]])
      && (r.thrownAt.None? ==> forall key :: key in r.globals <==> key in g' || WritesKey(ns, i + 1, key))
      && (forall key :: key in g' ==> key in r.globals && r.globals[key] == g'[key])
    ensures r.thrownAt.None? <==> Installable(g, ns, i)
    ensures r.thrownAt.None? ==> forall j :: i <= j && Exported(ns, j) ==>
              var key := Btoa(ns.enumeration[j]).value;
              key in r.globals && r.globals[key] == ns.own[ns.enumeration[j]]
    ensures r.thrownAt.None? ==> forall key :: key in r.globals <==> key in g || WritesKey(ns, i, key)
    ensures forall key :: key in g ==> key in r.globals && r.globals[key] == g[key]
  {
    var k := ns.enumeration[i];
    forall key' | WritesKey(ns, i, key')
      ensures key' == key || WritesKey(ns, i + 1, key')
    {
      var j :| i <= j < |ns.enumeration| && Exported(ns, j) && Btoa(ns.enumeration[j]) == Some(key');
      if j > i {
        assert WritesKey(ns, i + 1, key');
      }
    }
    assert WritesKey(ns, i, key);
  }

  /** exposed.ts: install every own export `k` under `btoa(k)`. */
  function Install(g: Globals, ns: Namespace): Installation {
    InstallFrom(g, ns, 0)
  }
}

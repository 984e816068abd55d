/**
 * The renderer side of the bridge: `attachElectronAPIFromGlobal` in
 * utils/electronAdapter.ts and its inline twin in main.tsx. Both re-derive
 * the seven export names, look each up under `btoa(name)` on `globalThis`,
 * and build the `ElectronAPI` object from the keys that are defined.
 */
module RendererBridge {
  import opened Wrappers
  import opened Js
  import opened Base64
  import Preload

  /** The name list of electronAdapter.ts. */
  const AdapterNames: seq<string> :=
    ["getAppInfo", "getLogPath", "logError", "send", "sha256sum", "showMessage", "versions"]

  /** The name list of the inline routine in main.tsx. */
  const InlineNames: seq<string> :=
    ["getAppInfo", "getLogPath", "logError", "send", "sha256sum", "showMessage", "versions"]

  /** The capability object handed to the UI: name to installed value. */
  type Api = map<string, Value>

  /** `g[key] !== undefined`. */
  predicate Defined(g: Preload.Globals, key: string) {
    key in g && g[key] != Undefined
  }

  /** Name `n` has an encodable key and something defined is installed under it. */
  predicate Exposed(g: Preload.Globals, n: string) {
    Btoa(n).Some? && Defined(g, Btoa(n).value)
  }

  /**
   * The lookup loop shared by both routines: for each name, compute
   * `btoa(name)` (which throws for a non-Latin-1 name, yielding `None`) and
   * keep the name when its key is defined.
   */
  function Collect(g: Preload.Globals, names: seq<string>): (r: Option<Api>)
    ensures r.None? <==> exists i :: 0 <= i < |names| && !IsLatin1(names[i])
    ensures r.Some? ==> forall n :: n in r.value <==> n in names && Exposed(g, n)
    ensures r.Some? ==> forall n :: n in r.value ==> Exposed(g, n) && r.value[n] == g[Btoa(n).value]
  {
    if |names| == 0 then Some(map[])
    else
      match Btoa(names[0])
      case None => None
      case Some(key) =>
        match Collect(g, names[1..])
        case None =>
          assert forall i :: 0 <= i < |names[1..]| ==> names[1..][i] == names[i + 1];
          None
        case Some(rest) =>
          assert forall i :: 1 <= i < |names| ==> names[i] == names[1..][i - 1];
          assert forall n :: n in names <==> n == names[0] || n in names[1..];
          if Defined(g, key) then Some(rest[names[0] := g[key]]) else Some(rest)
  }

  /**
   * electronAdapter.ts: the assembled API, or `None` (JavaScript `null`) when
   * no expected key is present or when the lookup threw.
   */
  function Assemble(g: Preload.Globals): (r: Option<Api>)
    ensures r.Some? <==> exists n :: n in AdapterNames && Exposed(g, n)
    ensures r.Some? ==> forall n :: n in r.value <==> n in AdapterNames && Exposed(g, n)
    ensures r.Some? ==> forall n :: n in r.value ==> Exposed(g, n) && r.value[n] == g[Btoa(n).value]
  {
    NamesAreLatin1();
    match Collect(g, AdapterNames)
    case None => None
    case Some(api) =>
      if |api| == 0 then None
      else
        var n :| n in api;
        Some(api)
  }

  /**
   * main.tsx: the value of `window.electronAPI` after the inline routine,
   * given its value `current` before. It is assigned only when some key was
   * found; a throw leaves it untouched.
   */
  function AttachInline(g: Preload.Globals, current: Option<Api>): (r: Option<Api>)
    ensures (exists n :: n in InlineNames && Exposed(g, n)) ==>
              r.Some? && forall n :: n in r.value <==> n in InlineNames && Exposed(g, n)
    ensures (exists n :: n in InlineNames && Exposed(g, n)) ==>
              forall n :: n in r.value ==> Exposed(g, n) && r.value[n] == g[Btoa(n).value]
    ensures !(exists n :: n in InlineNames && Exposed(g, n)) ==> r == current
  {
    NamesAreLatin1();
    match Collect(g, InlineNames)
    case None => current
    case Some(api) =>
      var found := exists n :: n in InlineNames && Exposed(g, n);
      if found then
        var n :| n in InlineNames && Exposed(g, n);
        assert n in api;
        Some(api)
      else current
  }

  lemma NamesAreLatin1()
    ensures forall i :: 0 <= i < |AdapterNames| ==> IsLatin1(AdapterNames[i])
    ensures forall i :: 0 <= i < |InlineNames| ==> IsLatin1(InlineNames[i])
  {
    assert IsLatin1("getAppInfo") && IsLatin1("getLogPath") && IsLatin1("logError");
    assert IsLatin1("send") && IsLatin1("sha256sum") && IsLatin1("showMessage");
    assert IsLatin1("versions");
  }

  /** Both routines use the same seven names, exactly the preload's export list. */
  lemma NameListsAgree()
    ensures AdapterNames == InlineNames == Preload.EnumerationOrder
    ensures (set n | n in AdapterNames) == (set n | n in Preload.ExportNames)
    ensures |set n | n in AdapterNames| == 7
  {
    var s := set n | n in AdapterNames;
    assert s == {"getAppInfo", "getLogPath", "logError", "send", "sha256sum", "showMessage", "versions"};
  }

  /** When the inline routine assigns, it assigns what the adapter returns; otherwise nothing changes. */
  lemma AttachAgreesWithAdapter(g: Preload.Globals, current: Option<Api>)
    ensures Assemble(g).Some? ==> AttachInline(g, current) == Assemble(g)
    ensures Assemble(g).None? ==> AttachInline(g, current) == current
  {
    NameListsAgree();
    var a := Assemble(g);
    var b := AttachInline(g, current);
    if a.Some? {
      assert b.Some?;
      assert a.value.Keys == b.value.Keys;
      assert forall n :: n in a.value ==> a.value[n] == b.value[n];
      assert a.value == b.value;
    }
  }

  /** The exports whose value is not `undefined`. */
  function DefinedExports(ns: Preload.Namespace): (api: Api)
    ensures forall n :: n in api <==> n in ns.own && ns.own[n] != Undefined
  {
    map n | n in ns.own && ns.own[n] != Undefined :: ns.own[n]
  }

  /**
   * Every own export ends up installed under its key, when the names are
   * enumerated once each, are Latin-1, and their keys are still free.
   */
  lemma InstalledExports(g: Preload.Globals, ns: Preload.Namespace)
    requires forall k :: k in ns.own ==> k in ns.enumeration && IsLatin1(k)
    requires forall j, l :: 0 <= l < j < |ns.enumeration| ==> ns.enumeration[l] != ns.enumeration[j]
    requires forall k :: k in ns.own ==> !Preload.Bound(g, Btoa(k).value)
    ensures Preload.Install(g, ns).thrownAt.None?
    ensures var h := Preload.Install(g, ns).globals;
            forall n :: n in ns.own ==> Btoa(n).Some? && Btoa(n).value in h && h[Btoa(n).value] == ns.own[n]
  {
    var inst := Preload.Install(g, ns);
    assert Preload.Installable(g, ns, 0);
    forall n | n in ns.own
      ensures Btoa(n).Some? && Btoa(n).value in inst.globals && inst.globals[Btoa(n).value] == ns.own[n]
    {
      var j :| 0 <= j < |ns.enumeration| && ns.enumeration[j] == n;
      assert Preload.Exported(ns, j);
    }
  }

  /** The preload's export names are distinct, Latin-1, and enumerated once each. */
  lemma PreloadNamesInstallable(g: Preload.Globals, sha256sum: Value, versions: Value)
    requires Preload.KeysFree(g, Preload.ExportNames)
    ensures var ns := Preload.PreloadNamespace(sha256sum, versions);
            && (forall k :: k in ns.own ==> k in ns.enumeration && IsLatin1(k))
            && (forall j, l :: 0 <= l < j < |ns.enumeration| ==> ns.enumeration[l] != ns.enumeration[j])
            && (forall k :: k in ns.own ==> !Preload.Bound(g, Btoa(k).value))
  {
    var ns := Preload.PreloadNamespace(sha256sum, versions);
    PreloadNamesLatin1(sha256sum, versions);
    EnumerationDistinct();
    FreeKeysOfOwn(g, ns, Preload.ExportNames);
  }

  lemma PreloadNamesLatin1(sha256sum: Value, versions: Value)
    ensures var ns := Preload.PreloadNamespace(sha256sum, versions);
            forall k :: k in ns.own ==> k in ns.enumeration && k in Preload.ExportNames && IsLatin1(k)
  {
    var ns := Preload.PreloadNamespace(sha256sum, versions);
    NamesAreLatin1();
    NameListsAgree();
    assert forall k :: k in ns.own ==> k in AdapterNames;
  }

  lemma EnumerationDistinct()
    ensures forall j, l :: 0 <= l < j < |Preload.EnumerationOrder| ==> Preload.EnumerationOrder[l] != Preload.EnumerationOrder[j]
  {
  }

  lemma FreeKeysOfOwn(g: Preload.Globals, ns: Preload.Namespace, names: seq<string>)
    requires forall k :: k in ns.own ==> k in names && IsLatin1(k)
    requires Preload.KeysFree(g, names)
    ensures forall k :: k in ns.own ==> !Preload.Bound(g, Btoa(k).value)
  {
  }

  /**
   * `exposeInMainWorld` refuses to bind over an existing global, so the
   * preload installs without a throw exactly when none of the seven keys is
   * already bound.
   */
  lemma InstallSucceedsIffKeysFree(g: Preload.Globals, sha256sum: Value, versions: Value)
    ensures Preload.Install(g, Preload.PreloadNamespace(sha256sum, versions)).thrownAt.None?
            <==> Preload.KeysFree(g, Preload.ExportNames)
  {
    var ns := Preload.PreloadNamespace(sha256sum, versions);
    if Preload.KeysFree(g, Preload.ExportNames) {
      PreloadNamesInstallable(g, sha256sum, versions);
      InstalledExports(g, ns);
    }
    if Preload.Install(g, ns).thrownAt.None? {
      assert Preload.Installable(g, ns, 0);
      PreloadNamesLatin1(sha256sum, versions);
      assert forall n :: n in Preload.ExportNames ==> n in ns.own;
      InstallableFreesOwn(g, ns);
    }
  }

  lemma InstallableFreesOwn(g: Preload.Globals, ns: Preload.Namespace)
    requires Preload.Installable(g, ns, 0)
    requires forall k :: k in ns.own ==> k in ns.enumeration
    ensures forall k :: k in ns.own && IsLatin1(k) ==> !Preload.Bound(g, Btoa(k).value)
  {
    forall k | k in ns.own && IsLatin1(k)
      ensures !Preload.Bound(g, Btoa(k).value)
    {
      var j :| 0 <= j < |ns.enumeration| && ns.enumeration[j] == k;
      assert Preload.Exported(ns, j);
    }
  }

  /** The `btoa` keys of a list of Latin-1 names. */
  function KeySet(names: seq<string>): (keys: set<string>)
    requires forall i :: 0 <= i < |names| ==> IsLatin1(names[i])
    ensures forall i :: 0 <= i < |names| ==> Btoa(names[i]).value in keys
    ensures forall key :: key in keys ==> exists i :: 0 <= i < |names| && Btoa(names[i]) == Some(key)
    decreases |names|
  {
    if |names| == 0 then {}
    else
      var init := names[..|names| - 1];
      assert forall i :: 0 <= i < |init| ==> init[i] == names[i];
      KeySet(init) + {Btoa(names[|names| - 1]).value}
  }

  /** Distinct Latin-1 names have as many keys as names: `btoa` never merges two. */
  lemma {:induction false} KeySetSize(names: seq<string>)
    requires forall i :: 0 <= i < |names| ==> IsLatin1(names[i])
    requires forall i, j :: 0 <= i < j < |names| ==> names[i] != names[j]
    ensures |KeySet(names)| == |names|
    decreases |names|
  {
    if |names| > 0 {
      var init := names[..|names| - 1];
      var last := names[|names| - 1];
      assert forall i :: 0 <= i < |init| ==> init[i] == names[i];
      KeySetSize(init);
      if Btoa(last).value in KeySet(init) {
        var i :| 0 <= i < |init| && Btoa(init[i]) == Some(Btoa(last).value);
        BtoaInjective(last, init[i]);
        assert false;
      }
    }
  }

  /**
   * Globals bound by nothing but an installation's writes have one key per
   * enumerated name, when the names are distinct.
   */
  lemma WrittenKeyCount(ns: Preload.Namespace, h: Preload.Globals)
    requires forall j :: 0 <= j < |ns.enumeration| ==> ns.enumeration[j] in ns.own && IsLatin1(ns.enumeration[j])
    requires forall i, j :: 0 <= i < j < |ns.enumeration| ==> ns.enumeration[i] != ns.enumeration[j]
    requires forall key :: key in h <==> Preload.WritesKey(ns, 0, key)
    ensures |h.Keys| == |ns.enumeration|
  {
    var names := ns.enumeration;
    assert h.Keys == KeySet(names) by {
      forall key | key in h
        ensures key in KeySet(names)
      {
        assert Preload.WritesKey(ns, 0, key);
      }
      forall key | key in KeySet(names)
        ensures key in h
      {
        var i :| 0 <= i < |names| && Btoa(names[i]) == Some(key);
        assert Preload.Exported(ns, i);
      }
    }
    KeySetSize(names);
  }

  /** Installed into empty globals, the preload adds exactly seven keys, one per export: no two names share a key. */
  lemma InstalledKeyCount(sha256sum: Value, versions: Value)
    ensures |Preload.Install(map[], Preload.PreloadNamespace(sha256sum, versions)).globals.Keys| == 7
  {
    var ns := Preload.PreloadNamespace(sha256sum, versions);
    var names := ns.enumeration;
    var h := Preload.Install(map[], ns).globals;
    assert forall key :: key in h <==> Preload.WritesKey(ns, 0, key) by {
      assert Preload.KeysFree(map[], Preload.ExportNames);
      InstallSucceedsIffKeysFree(map[], sha256sum, versions);
    }
    assert forall j :: 0 <= j < |names| ==> names[j] in ns.own && IsLatin1(names[j]) by {
      PreloadNamesLatin1(sha256sum, versions);
      assert forall j :: 0 <= j < |names| ==> names[j] in ns.own;
    }
    assert forall i, j :: 0 <= i < j < |names| ==> names[i] != names[j] by {
      EnumerationDistinct();
    }
    WrittenKeyCount(ns, h);
  }

  /** Assembling globals that hold every expected export gives back the defined ones. */
  lemma AssembleInstalled(h: Preload.Globals, ns: Preload.Namespace)
    requires forall n :: n in ns.own <==> n in AdapterNames
    requires forall n :: n in ns.own ==> Btoa(n).Some? && Btoa(n).value in h && h[Btoa(n).value] == ns.own[n]
    requires exists n :: n in ns.own && ns.own[n] != Undefined
    ensures Assemble(h) == Some(DefinedExports(ns))
  {
    var n0 :| n0 in ns.own && ns.own[n0] != Undefined;
    assert Exposed(h, n0);
    var a := Assemble(h);
    assert a.Some?;
    ExposedIffDefined(h, ns);
    AssembledKeys(h, ns, a.value);
    AssembledValues(h, ns, a.value);
  }

  lemma ExposedIffDefined(h: Preload.Globals, ns: Preload.Namespace)
    requires forall n :: n in ns.own ==> Btoa(n).Some? && Btoa(n).value in h && h[Btoa(n).value] == ns.own[n]
    ensures forall n :: n in ns.own ==> (Exposed(h, n) <==> ns.own[n] != Undefined)
  {
  }

  lemma AssembledKeys(h: Preload.Globals, ns: Preload.Namespace, a: Api)
    requires forall n :: n in ns.own <==> n in AdapterNames
    requires forall n :: n in ns.own ==> (Exposed(h, n) <==> ns.own[n] != Undefined)
    requires forall n :: n in a <==> n in AdapterNames && Exposed(h, n)
    ensures forall n :: n in a <==> n in ns.own && ns.own[n] != Undefined
  {
  }

  lemma AssembledValues(h: Preload.Globals, ns: Preload.Namespace, a: Api)
    requires forall n :: n in ns.own ==> Btoa(n).Some? && Btoa(n).value in h && ns.own[n] == h[Btoa(n).value]
    requires forall n :: n in a <==> n in ns.own && ns.own[n] != Undefined
    requires forall n :: n in a ==> Exposed(h, n) && a[n] == h[Btoa(n).value]
    ensures a == DefinedExports(ns)
  {
  }

  /**
   * Installing the preload's exports and then assembling on the renderer side
   * gives back every export whose value is defined, each with its own value,
   * whatever else the globals held, as long as none of the seven keys was
   * bound already.
   */
  lemma InstallThenAssemble(g: Preload.Globals, sha256sum: Value, versions: Value)
    requires Preload.KeysFree(g, Preload.ExportNames)
    ensures Preload.Install(g, Preload.PreloadNamespace(sha256sum, versions)).thrownAt.None?
    ensures var ns := Preload.PreloadNamespace(sha256sum, versions);
            Assemble(Preload.Install(g, ns).globals) == Some(DefinedExports(ns))
  {
    var ns := Preload.PreloadNamespace(sha256sum, versions);
    var h := Preload.Install(g, ns).globals;
    assert Preload.Install(g, ns).thrownAt.None?
        && forall n :: n in ns.own ==> Btoa(n).Some? && Btoa(n).value in h && h[Btoa(n).value] == ns.own[n] by {
      PreloadNamesInstallable(g, sha256sum, versions);
      InstalledExports(g, ns);
    }
    assert forall n :: n in ns.own <==> n in AdapterNames by {
      NameListsAgree();
    }
    SomeExportDefined(sha256sum, versions);
    AssembleInstalled(h, ns);
  }

  /** The five function exports are never `undefined`. */
  lemma SomeExportDefined(sha256sum: Value, versions: Value)
    ensures var ns := Preload.PreloadNamespace(sha256sum, versions);
            exists n :: n in ns.own && ns.own[n] != Undefined
  {
    var ns := Preload.PreloadNamespace(sha256sum, versions);
    assert ns.own["send"] != Undefined;
  }

  /** The inline routine, run after installation, assigns exactly the defined exports. */
  lemma AttachInstalled(g: Preload.Globals, sha256sum: Value, versions: Value, current: Option<Api>)
    requires Preload.KeysFree(g, Preload.ExportNames)
    ensures var ns := Preload.PreloadNamespace(sha256sum, versions);
            AttachInline(Preload.Install(g, ns).globals, current) == Some(DefinedExports(ns))
  {
    var ns := Preload.PreloadNamespace(sha256sum, versions);
    InstallThenAssemble(g, sha256sum, versions);
    AttachAgreesWithAdapter(Preload.Install(g, ns).globals, current);
  }

  /** After installation, the global under `btoa(n)` holds the preload's export `n` (`versions`, `sha256sum`, ...). */
  lemma ExportInstalled(g: Preload.Globals, sha256sum: Value, versions: Value, n: string)
    requires n in Preload.ExportNames
    requires Preload.KeysFree(g, Preload.ExportNames)
    ensures var ns := Preload.PreloadNamespace(sha256sum, versions);
            var h := Preload.Install(g, ns).globals;
            n in ns.own && Btoa(n).Some? && Btoa(n).value in h && h[Btoa(n).value] == ns.own[n]
  {
    var ns := Preload.PreloadNamespace(sha256sum, versions);
    PreloadNamesInstallable(g, sha256sum, versions);
    InstalledExports(g, ns);
  }
}

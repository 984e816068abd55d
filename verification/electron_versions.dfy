/**
 * The Electron version helpers (packages/electron-versions/index.js): ask an
 * Electron binary for `process.versions`, trying two commands in order,
 * keep the answer in a per-loader cache, and read major versions out of
 * version strings.
 *
 * Running a command and parsing its output is a foreign call: `Runner`
 * gives, for each command line, the parsed JSON or `None` when either the
 * command or `JSON.parse` throws.
 */
module ElectronVersions {
  import opened Wrappers
  import opened Js
  import Strings
  import Search

  /** The command lines, in the order they are tried: the workspace's `pnpm exec` first, then `npx`. */
  const Commands: seq<string> := [
    "pnpm exec electron -p \"JSON.stringify(process.versions)\"",
    "npx electron -p \"JSON.stringify(process.versions)\""
  ]

  const AllCommandsFailed: string := "Failed to get Electron versions with all available methods"

  type Runner = string -> Option<Json>

  function Succeeds(run: Runner): string -> bool {
    c => run(c).Some?
  }

  /** What `getElectronEnv` returns or throws, and the commands it ran. */
  datatype EnvResult = EnvResult(value: Result<Json, string>, ran: seq<string>)

  /** `getElectronEnv`: the parsed output of the first command that works. */
  function GetElectronEnv(run: Runner): (r: EnvResult)
    ensures r.value.Success? <==> exists i :: 0 <= i < |Commands| && run(Commands[i]).Some?
    ensures r.value.Success? ==>
              exists i :: && Search.IsFirst(Commands, Succeeds(run), i)
                          && run(Commands[i]) == Some(r.value.value)
                          && r.ran == Commands[..i + 1]
    ensures r.value.Failure? ==> r.value.error == AllCommandsFailed && r.ran == Commands
  {
    var a := Search.TryInOrder(Commands, Succeeds(run));
    match a.found
    case None => EnvResult(Failure(AllCommandsFailed), a.tried)
    case Some(c) => EnvResult(Success(run(c).value), a.tried)
  }

  /** When `pnpm exec` works, its answer is used and `npx` is never run. */
  lemma PnpmExecPreferred(run: Runner)
    requires run(Commands[0]).Some?
    ensures GetElectronEnv(run) == EnvResult(Success(run(Commands[0]).value), [Commands[0]])
  {
    var r := GetElectronEnv(run);
    var i :| Search.IsFirst(Commands, Succeeds(run), i) && run(Commands[i]) == Some(r.value.value) && r.ran == Commands[..i + 1];
    assert i == 0;
  }

  /** When `pnpm exec` fails, `npx` is tried next, and its failure is the end. */
  lemma NpxFallback(run: Runner)
    requires run(Commands[0]).None?
    ensures var r := GetElectronEnv(run);
            && r.ran == Commands
            && (r.value.Success? <==> run(Commands[1]).Some?)
            && (r.value.Success? ==> Some(r.value.value) == run(Commands[1]))
  {
    var r := GetElectronEnv(run);
    if r.value.Success? {
      var i :| Search.IsFirst(Commands, Succeeds(run), i) && run(Commands[i]) == Some(r.value.value) && r.ran == Commands[..i + 1];
      assert i == 1;
    }
  }

  /** The loader's `inMemoryCache`: `null` until a load succeeds. */
  datatype Loader = Loader(cache: Json)

  /** `createElectronEnvLoader()`. */
  const NewLoader: Loader := Loader(JNull)

  /** One call of the loader: the loader afterwards, what the call returns or throws, the commands it ran. */
  datatype Loaded = Loaded(loader: Loader, value: Result<Json, string>, ran: seq<string>)

  /** The loader's closure: a truthy cache is returned as is, otherwise the versions are fetched and stored. */
  function Load(l: Loader, run: Runner): (r: Loaded)
    ensures JsonTruthy(l.cache) ==> r == Loaded(l, Success(l.cache), [])
    ensures !JsonTruthy(l.cache) ==> |r.ran| > 0 && r.ran[0] == Commands[0]
    ensures r.value.Success? ==> r.loader == Loader(r.value.value)
    ensures r.value.Failure? ==> r.loader == l && r.value.error == AllCommandsFailed
  {
    if JsonTruthy(l.cache) then Loaded(l, Success(l.cache), [])
    else
      var e := GetElectronEnv(run);
      match e.value
      case Failure(err) => Loaded(l, Failure(err), e.ran)
      case Success(v) => Loaded(Loader(v), Success(v), e.ran)
  }

  /** Once a truthy answer is cached, later calls return it without running anything, whatever the commands would now do. */
  lemma CachedAnswerIsKept(l: Loader, run: Runner, later: Runner)
    requires Load(l, run).value.Success? && JsonTruthy(Load(l, run).value.value)
    ensures var first := Load(l, run);
            Load(first.loader, later) == Loaded(first.loader, first.value, [])
  {
  }

  /** A failed load leaves no trace: the next call starts again from the first command. */
  lemma FailedLoadRetries(l: Loader, run: Runner, later: Runner)
    requires Load(l, run).value.Failure?
    ensures Load(Load(l, run).loader, later) == Load(l, later)
  {
  }

  /** The cache test is truthiness: a falsy answer (such as `0`) is stored but fetched again on the next call. */
  lemma FalsyAnswerIsRefetched(run: Runner, later: Runner)
    requires run(Commands[0]) == Some(JNum(0))
    ensures var first := Load(NewLoader, run);
            first.value == Success(JNum(0)) && |Load(first.loader, later).ran| > 0
  {
    PnpmExecPreferred(run);
  }

  /** `getElectronVersions().<name>`: `None` is `undefined`; reading a property of `null` throws. */
  function Property(j: Json, name: string): (r: Result<Option<Json>, string>)
    ensures r.Failure? <==> j == JNull
    ensures j.JObj? ==> r == Success(if name in j.fields then Some(j.fields[name]) else None)
  {
    match j
    case JNull => Failure("TypeError: Cannot read properties of null (reading '" + name + "')")
    case JObj(fields) => Success(if name in fields then Some(fields[name]) else None)
    case _ => Success(None)
  }

  /** `getChromeVersion` / `getNodeVersion`: one field of the loaded versions. */
  function VersionField(l: Loader, run: Runner, name: string): (r: (Loader, Result<Option<Json>, string>))
    ensures r.0 == Load(l, run).loader
    ensures Load(l, run).value.Failure? ==> r.1.Failure?
    ensures Load(l, run).value.Success? ==> r.1 == Property(Load(l, run).value.value, name)
  {
    var loaded := Load(l, run);
    match loaded.value
    case Failure(e) => (loaded.loader, Failure(e))
    case Success(v) => (loaded.loader, Property(v, name))
  }

  function GetChromeVersion(l: Loader, run: Runner): (Loader, Result<Option<Json>, string>) {
    VersionField(l, run, "chrome")
  }

  function GetNodeVersion(l: Loader, run: Runner): (Loader, Result<Option<Json>, string>) {
    VersionField(l, run, "node")
  }

  /** `parseInt(version.split('.')[0], 10)` on a string; `None` is `NaN`. */
  function MajorVersion(version: string): Option<int> {
    Strings.ParseInt(Strings.Split(version, '.')[0])
  }

  /**
   * `getMajorVersion` on a field value: anything but a string throws. Reading
   * `split` off `undefined` or `null` is itself the error; any other value
   * has no `split` method to call.
   */
  function MajorOf(v: Option<Json>): (r: Result<Option<int>, string>)
    ensures r.Success? <==> v.Some? && v.value.JStr?
    ensures r.Success? ==> r.value == MajorVersion(v.value.s)
    ensures v.None? ==> r == Failure("TypeError: Cannot read properties of undefined (reading 'split')")
    ensures v == Some(JNull) ==> r == Failure("TypeError: Cannot read properties of null (reading 'split')")
    ensures v.Some? && !v.value.JStr? && !v.value.JNull? ==> r == Failure("TypeError: version.split is not a function")
  {
    match v
    case Some(JStr(s)) => Success(MajorVersion(s))
    case None => Failure("TypeError: Cannot read properties of undefined (reading 'split')")
    case Some(JNull) => Failure("TypeError: Cannot read properties of null (reading 'split')")
    case _ => Failure("TypeError: version.split is not a function")
  }

  /** `getChromeMajorVersion` / `getNodeMajorVersion`. */
  function MajorVersionField(l: Loader, run: Runner, name: string): (r: (Loader, Result<Option<int>, string>))
    ensures r.0 == Load(l, run).loader
  {
    var (l2, field) := VersionField(l, run, name);
    match field
    case Failure(e) => (l2, Failure(e))
    case Success(v) => (l2, MajorOf(v))
  }

  /** The major version is the number before the first dot: `"37.3.1"` gives 37. */
  lemma MajorVersionOfDotted(major: nat, rest: string)
    ensures MajorVersion(Strings.DecimalString(major) + "." + rest) == Some(major)
  {
    var d := Strings.DecimalString(major);
    assert '.' !in d by {
      assert forall k :: 0 <= k < |d| ==> Strings.IsDigit(d[k]);
    }
    Strings.SplitHead(d, '.', rest);
    assert d + "." + rest == d + ['.'] + rest;
    Strings.ParseIntOfDecimal(major, "");
    assert d + "" == d;
  }

  /** A version with no dot is read whole. */
  lemma MajorVersionOfPlain(major: nat)
    ensures MajorVersion(Strings.DecimalString(major)) == Some(major)
  {
    var d := Strings.DecimalString(major);
    assert '.' !in d by {
      assert forall k :: 0 <= k < |d| ==> Strings.IsDigit(d[k]);
    }
    Strings.SplitNoSeparator(d, '.');
    Strings.ParseIntOfDecimal(major, "");
    assert d + "" == d;
  }

  /** A loaded versions object whose `chrome` field is a dotted version gives that major version. */
  lemma ChromeMajorOfLoaded(l: Loader, run: Runner, fields: map<string, Json>, major: nat, rest: string)
    requires Load(l, run).value == Success(JObj(fields))
    requires "chrome" in fields && fields["chrome"] == JStr(Strings.DecimalString(major) + "." + rest)
    ensures MajorVersionField(l, run, "chrome").1 == Success(Some(major))
  {
    MajorVersionOfDotted(major, rest);
  }
}

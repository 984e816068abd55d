/**
 * The startup module runner of the main process (ModuleRunner.ts): an
 * append-only promise chain. `init` calls a module's `enable` at once and,
 * when it returns a promise, appends "then wait for that promise" to the
 * chain; `run` and `then` expose the chain's settlement.
 *
 * Promises are modelled by how they end up, not by when: the chain's
 * settlement is determined by registration order alone.
 */
module ModuleRunner {
  import opened Wrappers
  import opened Js
  import Search

  /** How a promise ends up; `Pending` is one that never settles. */
  datatype Settlement = Fulfilled | Rejected(reason: Value) | Pending

  /** The settlement of `p.then(onFulfilled, onRejected)`. */
  function Reaction(p: Settlement, onFulfilled: Settlement, onRejected: Value -> Settlement): Settlement {
    match p
    case Fulfilled => onFulfilled
    case Rejected(e) => onRejected(e)
    case Pending => Pending
  }

  /** The default rejection handler: pass the reason on. */
  function Rethrow(e: Value): Settlement {
    Rejected(e)
  }

  /** `p.then(() => q)`: wait for `p`, then adopt `q`. */
  function Then(p: Settlement, q: Settlement): Settlement {
    Reaction(p, q, Rethrow)
  }

  /** Appending twice is appending the combination: the chain can be read left or right. */
  lemma ThenAssociative(a: Settlement, b: Settlement, c: Settlement)
    ensures Then(Then(a, b), c) == Then(a, Then(b, c))
  {
  }

  /** The electron `app` singleton. */
  datatype App = ElectronApp

  /** What every `enable` call receives: an object whose only field is the `app` singleton. */
  datatype ModuleContext = ModuleContext(app: App)

  function CreateModuleContext(): ModuleContext {
    ModuleContext(ElectronApp)
  }

  /**
   * What `module.enable(context)` does: return something that is not a
   * promise, throw synchronously, or return a promise that settles as given.
   */
  datatype EnableResult = Returned | Threw(error: Value) | Promised(settlement: Settlement)

  datatype AppModule = AppModule(name: string, enable: ModuleContext -> EnableResult)

  /** One `enable` call: which module, with which context. */
  datatype Call = Call(moduleName: string, context: ModuleContext)

  /** The runner's state: its promise chain and the `enable` calls made so far. */
  datatype Runner = Runner(chain: Settlement, calls: seq<Call>)

  /** `createModuleRunner()`: the chain starts as `Promise.resolve()`. */
  function Create(): Runner {
    Runner(Fulfilled, [])
  }

  /**
   * Outcome of `init`: the runner it returns (the same runner, so chained
   * calls thread it through) or, when `enable` threw, the error escaping
   * `init`; the runner then holds the call but an untouched chain.
   */
  datatype Step = Step(runner: Runner, escaped: Option<Value>)

  function Init(r: Runner, m: AppModule): (s: Step)
    ensures s.runner.calls == r.calls + [Call(m.name, ModuleContext(ElectronApp))]
    ensures s.escaped.Some? <==> m.enable(ModuleContext(ElectronApp)).Threw?
    ensures s.escaped.Some? ==> s.escaped.value == m.enable(ModuleContext(ElectronApp)).error && s.runner.chain == r.chain
    ensures !m.enable(CreateModuleContext()).Promised? ==> s.runner.chain == r.chain
  {
    var context := CreateModuleContext();
    var called := r.(calls := r.calls + [Call(m.name, context)]);
    match m.enable(context)
    case Returned => Step(called, None)
    case Threw(e) => Step(called, Some(e))
    case Promised(p) => Step(called.(chain := Then(r.chain, p)), None)
  }

  /** `runner.init(ms[0]).init(ms[1])...`, stopping at the first synchronous throw. */
  function InitAll(r: Runner, ms: seq<AppModule>): Step
    decreases |ms|
  {
    if |ms| == 0 then Step(r, None)
    else
      var s := Init(r, ms[0]);
      if s.escaped.Some? then s else InitAll(s.runner, ms[1..])
  }

  /** `run()`: an async function returning the chain, so it settles as the chain does. */
  function Run(r: Runner): Settlement {
    Reaction(r.chain, Fulfilled, Rethrow)
  }

  /** `runner.then(onFulfilled, onRejected)`: delegated to the chain. */
  function Await(r: Runner, onFulfilled: Settlement, onRejected: Value -> Settlement): Settlement {
    Reaction(r.chain, onFulfilled, onRejected)
  }

  /** Awaiting the runner itself is awaiting `run()`. */
  lemma AwaitIsRun(r: Runner, onFulfilled: Settlement, onRejected: Value -> Settlement)
    ensures Await(r, onFulfilled, onRejected) == Reaction(Run(r), onFulfilled, onRejected)
  {
  }

  // ----- The reference: the earliest-registered module that does not fulfil -----

  predicate Throws(m: AppModule) {
    m.enable(CreateModuleContext()).Threw?
  }

  /** A module whose promise rejects or never settles holds up the chain. */
  predicate Blocks(m: AppModule) {
    var e := m.enable(CreateModuleContext());
    e.Promised? && !e.settlement.Fulfilled?
  }

  /** The settlement of the earliest-registered blocking module, or fulfilment when none blocks. */
  function Expected(ms: seq<AppModule>): Settlement {
    match Search.FirstIndex(ms, Blocks)
    case None => Fulfilled
    case Some(i) => ms[i].enable(CreateModuleContext()).settlement
  }

  /** What a module adds to the chain: its promise's settlement, or nothing. */
  function Contribution(m: AppModule): Settlement {
    var e := m.enable(CreateModuleContext());
    if e.Promised? then e.settlement else Fulfilled
  }

  lemma ExpectedCons(ms: seq<AppModule>)
    requires |ms| > 0
    ensures Expected(ms) == Then(Contribution(ms[0]), Expected(ms[1..]))
  {
  }

  /** The enable calls of `ms`, in order, each with the module context. */
  function Calls(ms: seq<AppModule>): (cs: seq<Call>)
    ensures |cs| == |ms|
    ensures forall i :: 0 <= i < |ms| ==> cs[i] == Call(ms[i].name, ModuleContext(ElectronApp))
  {
    seq(|ms|, i requires 0 <= i < |ms| => Call(ms[i].name, CreateModuleContext()))
  }

  lemma CallsCons(ms: seq<AppModule>)
    requires |ms| > 0
    ensures Calls(ms) == [Call(ms[0].name, CreateModuleContext())] + Calls(ms[1..])
  {
  }

  /** A module that does not throw lets `init` go on to the next one. */
  lemma InitAllStep(r: Runner, ms: seq<AppModule>)
    requires |ms| > 0 && !Throws(ms[0])
    ensures InitAll(r, ms) == InitAll(Init(r, ms[0]).runner, ms[1..])
    ensures Init(r, ms[0]).runner.chain == Then(r.chain, Contribution(ms[0]))
  {
  }

  /**
   * When no module throws, every module is enabled once, in registration
   * order, and the chain ends as the old chain followed by the earliest
   * blocking module.
   */
  lemma InitAllNoThrow(r: Runner, ms: seq<AppModule>)
    requires forall i :: 0 <= i < |ms| ==> !Throws(ms[i])
    ensures InitAll(r, ms).escaped.None?
    ensures InitAll(r, ms).runner.calls == r.calls + Calls(ms)
    ensures InitAll(r, ms).runner.chain == Then(r.chain, Expected(ms))
  {
    InitAllNoThrowCalls(r, ms);
    InitAllNoThrowChain(r, ms);
  }

  lemma {:induction false} InitAllNoThrowCalls(r: Runner, ms: seq<AppModule>)
    requires forall i :: 0 <= i < |ms| ==> !Throws(ms[i])
    ensures InitAll(r, ms).escaped.None?
    ensures InitAll(r, ms).runner.calls == r.calls + Calls(ms)
    decreases |ms|
  {
    if |ms| == 0 {
      assert Calls(ms) == [];
    } else {
      var s := Init(r, ms[0]).runner;
      InitAllStep(r, ms);
      NoThrowTail(ms);
      InitAllNoThrowCalls(s, ms[1..]);
      CallsCons(ms);
      assert s.calls == r.calls + [Call(ms[0].name, CreateModuleContext())];
    }
  }

  lemma {:induction false} InitAllNoThrowChain(r: Runner, ms: seq<AppModule>)
    requires forall i :: 0 <= i < |ms| ==> !Throws(ms[i])
    ensures InitAll(r, ms).runner.chain == Then(r.chain, Expected(ms))
    decreases |ms|
  {
    if |ms| > 0 {
      var s := Init(r, ms[0]).runner;
      InitAllStep(r, ms);
      NoThrowTail(ms);
      InitAllNoThrowChain(s, ms[1..]);
      ExpectedCons(ms);
      ThenAssociative(r.chain, Contribution(ms[0]), Expected(ms[1..]));
    }
  }

  lemma NoThrowTail(ms: seq<AppModule>)
    requires |ms| > 0 && forall i :: 0 <= i < |ms| ==> !Throws(ms[i])
    ensures forall i :: 0 <= i < |ms[1..]| ==> !Throws(ms[1..][i])
  {
    assert forall i :: 0 <= i < |ms[1..]| ==> ms[1..][i] == ms[i + 1];
  }

  /**
   * When module `k` is the first to throw, modules `0..k` are enabled in
   * order, the later ones never are, and `k`'s error escapes.
   */
  lemma {:induction false} InitAllThrow(r: Runner, ms: seq<AppModule>, k: nat)
    requires Search.IsFirst(ms, Throws, k)
    ensures InitAll(r, ms).escaped == Some(ms[k].enable(CreateModuleContext()).error)
    ensures InitAll(r, ms).runner.calls == r.calls + Calls(ms[..k + 1])
    decreases |ms|
  {
    if k == 0 {
      assert Calls(ms[..1]) == [Call(ms[0].name, CreateModuleContext())];
    } else {
      var s := Init(r, ms[0]).runner;
      assert InitAll(r, ms) == InitAll(s, ms[1..]) by {
        InitAllStep(r, ms);
      }
      assert Search.IsFirst(ms[1..], Throws, k - 1) by {
        FirstThrowInTail(ms, k);
      }
      InitAllThrow(s, ms[1..], k - 1);
      assert Calls(ms[..k + 1]) == [Call(ms[0].name, CreateModuleContext())] + Calls(ms[1..][..k]) by {
        assert ms[1..][..k] == ms[..k + 1][1..];
        CallsCons(ms[..k + 1]);
      }
      assert s.calls == r.calls + [Call(ms[0].name, CreateModuleContext())];
    }
  }

  lemma FirstThrowInTail(ms: seq<AppModule>, k: nat)
    requires k > 0 && Search.IsFirst(ms, Throws, k)
    ensures Search.IsFirst(ms[1..], Throws, k - 1)
  {
    assert forall j :: 0 <= j < |ms[1..]| ==> ms[1..][j] == ms[j + 1];
  }

  /**
   * The runner's verdict: with no synchronous throw, `run()` settles as the
   * earliest-registered module that does not fulfil (not the earliest in
   * time), and fulfils exactly when every returned promise fulfils.
   */
  lemma RunIsEarliestRegistered(ms: seq<AppModule>)
    requires forall i :: 0 <= i < |ms| ==> !Throws(ms[i])
    ensures Run(InitAll(Create(), ms).runner) == Expected(ms)
    ensures Run(InitAll(Create(), ms).runner) == Fulfilled <==> forall i :: 0 <= i < |ms| ==> !Blocks(ms[i])
    ensures Run(InitAll(Create(), ms).runner).Rejected? ==>
              exists i :: Search.IsFirst(ms, Blocks, i) &&
                Rejected(Run(InitAll(Create(), ms).runner).reason) == ms[i].enable(CreateModuleContext()).settlement
  {
    InitAllNoThrow(Create(), ms);
    var e := Expected(ms);
    assert Reaction(e, Fulfilled, Rethrow) == e;
  }

  /** A fresh runner has nothing to wait for. */
  lemma EmptyRunnerFulfils()
    ensures Run(InitAll(Create(), []).runner) == Fulfilled
  {
  }
}

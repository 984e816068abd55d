/**
 * The IPC channel table that links the preload functions to the main
 * process: the four handlers `Logger.registerIpcHandlers` installs with
 * `ipcMain.handle`, and how an `ipcRenderer.invoke` reaches them.
 */
module Ipc {
  import opened Wrappers
  import opened Js
  import Preload

  /** One `ipcMain.handle(channel, handler)`: the channel and how many arguments the handler reads after the event. */
  datatype Handler = Handler(channel: string, arity: nat)

  /** The registrations of Logger.ts, in order. */
  const Registrations: seq<Handler> := [
    Handler("log-error", 2),
    Handler("get-log-path", 0),
    Handler("show-message", 1),
    Handler("get-app-info", 0)
  ]

  /** Some handler of `hs` is for channel `c`. */
  predicate HasChannel(hs: seq<Handler>, c: string) {
    exists i :: 0 <= i < |hs| && hs[i].channel == c
  }

  /** Channel to handler arity, as `ipcMain` keeps it. */
  type Table = map<string, nat>

  /**
   * Registers the handlers in order. `ipcMain.handle` refuses a second
   * handler for a channel, so a repeated channel is an error naming it.
   */
  function Register(table: Table, hs: seq<Handler>): (r: Result<Table, string>)
    ensures r.Success? <==>
              && (forall i :: 0 <= i < |hs| ==> hs[i].channel !in table)
              && (forall i, j :: 0 <= i < j < |hs| ==> hs[i].channel != hs[j].channel)
    ensures r.Success? ==> forall c :: c in r.value <==> c in table || HasChannel(hs, c)
    ensures r.Success? ==> forall i :: 0 <= i < |hs| ==> hs[i].channel in r.value && r.value[hs[i].channel] == hs[i].arity
    ensures r.Success? ==> forall c :: c in table ==> c in r.value && r.value[c] == table[c]
    decreases |hs|
  {
    if |hs| == 0 then Success(table)
    else if hs[0].channel in table then
      Failure("Attempted to register a second handler for '" + hs[0].channel + "'")
    else
      var rest := Register(table[hs[0].channel := hs[0].arity], hs[1..]);
      assert forall i :: 1 <= i < |hs| ==> hs[i] == hs[1..][i - 1];
      assert forall c :: HasChannel(hs, c) <==> c == hs[0].channel || HasChannel(hs[1..], c);
      rest
  }

  /**
   * The parameters a handler of the given arity sees for the invocation's
   * arguments: surplus arguments are ignored, missing ones read as `undefined`.
   */
  function Bind(arity: nat, args: seq<Value>): (params: seq<Value>)
    ensures |params| == arity
    ensures forall k :: 0 <= k < arity && k < |args| ==> params[k] == args[k]
    ensures forall k :: |args| <= k < arity ==> params[k] == Undefined
  {
    seq(arity, k requires 0 <= k < arity => if k < |args| then args[k] else Undefined)
  }

  /**
   * `ipcRenderer.invoke(channel, ...args)` as the main process receives it:
   * the handler's parameters, or the rejection for a channel with no handler.
   */
  function Dispatch(table: Table, inv: Preload.Invocation): (r: Result<seq<Value>, string>)
    ensures r.Success? <==> inv.channel in table
    ensures r.Success? ==> |r.value| == table[inv.channel]
  {
    if inv.channel in table then Success(Bind(table[inv.channel], inv.args))
    else Failure("No handler registered for '" + inv.channel + "'")
  }

  /** The table the main process holds once the Logger has registered its handlers. */
  function MainTable(): (t: Table)
    ensures t.Keys == {"log-error", "get-log-path", "show-message", "get-app-info"}
  {
    match Register(map[], Registrations)
    case Success(t) =>
      assert Registrations[0].channel == "log-error" && Registrations[1].channel == "get-log-path";
      assert Registrations[2].channel == "show-message" && Registrations[3].channel == "get-app-info";
      t
    case Failure(_) => assert false; map[]
  }

  /** The registrations succeed: the four channels are distinct. */
  lemma RegistrationsSucceed()
    ensures Register(map[], Registrations).Success?
    ensures var t := MainTable();
            t["log-error"] == 2 && t["get-log-path"] == 0 && t["show-message"] == 1 && t["get-app-info"] == 0
  {
    var t := MainTable();
    assert Registrations[0].channel == "log-error" && Registrations[1].channel == "get-log-path";
    assert Registrations[2].channel == "show-message" && Registrations[3].channel == "get-app-info";
  }

  /** Every channel the preload functions invoke on their own has a handler of the arity they pass. */
  lemma FixedChannelsHandled()
    ensures forall i :: 0 <= i < |Preload.FixedInvocations| ==>
              var (channel, argc) := Preload.FixedInvocations[i];
              channel in MainTable() && MainTable()[channel] == argc
  {
    RegistrationsSucceed();
  }

  /**
   * Each preload function's arguments reach its handler unchanged and in
   * order: `logError(type, data)` binds the handler's `type` and `errorData`,
   * `showMessage(m)` its `message`, and the two queries pass nothing.
   */
  lemma PreloadCallsReachHandlers(kind: string, errorData: Value, message: string)
    ensures Dispatch(MainTable(), Preload.LogError(kind, errorData)) == Success([Str(kind), errorData])
    ensures Dispatch(MainTable(), Preload.GetLogPath()) == Success([])
    ensures Dispatch(MainTable(), Preload.ShowMessage(message)) == Success([Str(message)])
    ensures Dispatch(MainTable(), Preload.GetAppInfo()) == Success([])
  {
    RegistrationsSucceed();
    assert Bind(2, [Str(kind), errorData]) == [Str(kind), errorData];
    assert Bind(1, [Str(message)]) == [Str(message)];
  }

  /**
   * `send(channel, message)` forwards the caller's channel and message: it
   * reaches a handler exactly when that channel is registered, and the
   * handler's first parameter is the message.
   */
  lemma SendForwards(table: Table, channel: string, message: string)
    ensures Dispatch(table, Preload.Send(channel, message)).Success? <==> channel in table
    ensures channel in table && table[channel] >= 1 ==>
              Dispatch(table, Preload.Send(channel, message)).value[0] == Str(message)
  {
  }
}

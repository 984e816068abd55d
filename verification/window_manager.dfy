/**
 * The window manager module (packages/main/src/modules/WindowManager.ts):
 * restore-or-create over the application's window list, the options of a
 * new window, and what `enable` registers.
 *
 * `BrowserWindow.getAllWindows()` is the window list; a window is a record
 * of the state the module reads and changes.
 */
module WindowManager {
  import opened Wrappers
  import Search
  import AppInit

  datatype WebPreferences = WebPreferences(
    nodeIntegration: bool,
    contextIsolation: bool,
    sandbox: bool,
    webviewTag: bool,
    preload: string
  )

  /** The constructor options of a `BrowserWindow`. */
  datatype WindowOptions = WindowOptions(show: bool, webPreferences: WebPreferences)

  /** What a window was told to load. */
  datatype Content = LoadedUrl(href: string) | LoadedFile(path: string)

  datatype Window = Window(
    options: WindowOptions,
    content: Content,
    destroyed: bool,
    minimized: bool,
    visible: bool,
    focused: bool,
    devToolsOpen: bool
  )

  /** The module as `createWindowManagerModule` builds it. */
  datatype Manager = Manager(config: AppInit.InitConfig, openDevTools: bool)

  /** `createWindowManagerModule({initConfig, openDevTools})`: the flag defaults to false. */
  function CreateModule(config: AppInit.InitConfig, openDevTools: Option<bool>): (m: Manager)
    ensures m.openDevTools <==> openDevTools == Some(true)
  {
    Manager(config, openDevTools.GetOr(false))
  }

  /** The options `createWindow` passes for a preload script. */
  function NewWindowOptions(preload: string): WindowOptions {
    WindowOptions(false, WebPreferences(false, true, false, false, preload))
  }

  /**
   * `createWindow`: the window `new BrowserWindow` adds, hidden, with the
   * configured preload, and what it is then told to load. Whether the
   * awaited `loadURL`/`loadFile` fulfils is not decided here: the window is
   * in the application's list either way.
   */
  function CreateWindow(m: Manager): (w: Window)
    ensures !w.options.show && !w.visible && !w.destroyed
    ensures var p := w.options.webPreferences;
            !p.nodeIntegration && p.contextIsolation && !p.sandbox && !p.webviewTag
    ensures w.options.webPreferences.preload == m.config.preloadPath
    ensures m.config.renderer.DevServer? <==> w.content.LoadedUrl?
    ensures m.config.renderer.DevServer? ==> w.content.href == m.config.renderer.url.href
    ensures m.config.renderer.File? ==> w.content.path == m.config.renderer.path
  {
    var content :=
      match m.config.renderer
      case DevServer(url) => LoadedUrl(url.href)
      case File(path) => LoadedFile(path);
    Window(NewWindowOptions(m.config.preloadPath), content, false, false, false, false, false)
  }

  /** The calls `restoreOrCreateWindow` makes on the window, in order. */
  datatype Action = Created | Restore | Show | OpenDevTools | Focus

  /**
   * How `restoreOrCreateWindow` settles: fulfilled with the returned
   * window's index and the calls made, or rejected because the new
   * window's load rejected; either way, the window list afterwards.
   */
  datatype Restoration =
    | Restored(windows: seq<Window>, index: nat, actions: seq<Action>)
    | LoadRejected(windows: seq<Window>)

  predicate Alive(w: Window) {
    !w.destroyed
  }

  /** Bring a window forward: restore it if minimized, show it, open DevTools when asked, focus it. */
  function Present(w: Window, openDevTools: bool): (r: (Window, seq<Action>))
    ensures !r.0.minimized && r.0.visible && r.0.focused
    ensures r.0.devToolsOpen <==> w.devToolsOpen || openDevTools
    ensures r.0.options == w.options && r.0.content == w.content && r.0.destroyed == w.destroyed
    ensures r.1 == (if w.minimized then [Restore] else []) + [Show] + (if openDevTools then [OpenDevTools] else []) + [Focus]
  {
    var restored := if w.minimized then w.(minimized := false) else w;
    var shown := restored.(visible := true);
    var tools := if openDevTools then shown.(devToolsOpen := true) else shown;
    (tools.(focused := true),
     (if w.minimized then [Restore] else []) + [Show] + (if openDevTools then [OpenDevTools] else []) + [Focus])
  }

  /**
   * `restoreOrCreateWindow(show)`; `loads` is whether a new window's load
   * would fulfil (a refused dev-server connection or a missing file
   * rejects it).
   */
  function RestoreOrCreate(m: Manager, ws: seq<Window>, show: bool, loads: bool): (r: Restoration)
    ensures r.LoadRejected? <==> Search.FirstIndex(ws, Alive).None? && !loads
    ensures r.LoadRejected? ==> r.windows == ws + [CreateWindow(m)]
    ensures r.Restored? ==> r.index < |r.windows|
    ensures r.Restored? && Search.FirstIndex(ws, Alive).Some? ==>
              && |r.windows| == |ws| && r.index == Search.FirstIndex(ws, Alive).value
              && Created !in r.actions
    ensures r.Restored? && Search.FirstIndex(ws, Alive).None? ==>
              && |r.windows| == |ws| + 1 && r.index == |ws|
              && |r.actions| > 0 && r.actions[0] == Created
    ensures r.Restored? ==> forall i :: 0 <= i < |ws| && i != r.index ==> r.windows[i] == ws[i]
    ensures r.Restored? && !show ==>
              r.windows[r.index] == (if r.index < |ws| then ws[r.index] else CreateWindow(m))
    ensures r.Restored? && !show ==> r.actions == (if Search.FirstIndex(ws, Alive).None? then [Created] else [])
    ensures r.Restored? && show ==> var w := r.windows[r.index];
              !w.minimized && w.visible && w.focused && (m.openDevTools ==> w.devToolsOpen)
    ensures r.Restored? && show ==> && |r.actions| > 0 && r.actions[|r.actions| - 1] == Focus && Show in r.actions
                                    && (OpenDevTools in r.actions <==> m.openDevTools)
  {
    var found := Search.FirstIndex(ws, Alive);
    if found.None? && !loads then LoadRejected(ws + [CreateWindow(m)])
    else
      var (all, index, created) :=
        match found
        case Some(i) => (ws, i, [])
        case None => (ws + [CreateWindow(m)], |ws|, [Created]);
      if !show then Restored(all, index, created)
      else
        var (w, acts) := Present(all[index], m.openDevTools);
        Restored(all[index := w], index, created + acts)
  }

  /** The window a settled restore-or-create leaves at the end of the list or at its index is alive. */
  lemma RestoredAlive(m: Manager, ws: seq<Window>, show: bool, loads: bool)
    ensures var r := RestoreOrCreate(m, ws, show, loads);
            r.Restored? ==> Alive(r.windows[r.index])
  {
    if Search.FirstIndex(ws, Alive).None? {
      assert CreateWindow(m).destroyed == false;
    }
  }

  /**
   * Restoring again finds the same window and creates nothing. After a
   * successful call nothing more changes; after a rejected load the hidden
   * window left behind is the one reused, without loading it again.
   */
  lemma RestoreOrCreateIdempotent(m: Manager, ws: seq<Window>, loads1: bool, loads2: bool)
    ensures var r1 := RestoreOrCreate(m, ws, true, loads1);
            var r2 := RestoreOrCreate(m, r1.windows, true, loads2);
            && r2.Restored? && Created !in r2.actions
            && (r1.Restored? ==> r2.windows == r1.windows && r2.index == r1.index)
            && (r1.LoadRejected? ==> r2.index == |ws| && r2.windows[|ws|].visible)
  {
    var r1 := RestoreOrCreate(m, ws, true, loads1);
    var k := Search.FirstIndex(ws, Alive);
    var at: nat := if r1.Restored? then r1.index else |ws|;
    assert at < |r1.windows| && Alive(r1.windows[at]) by {
      RestoredAlive(m, ws, true, loads1);
      if r1.LoadRejected? {
        assert r1.windows[|ws|] == CreateWindow(m);
      }
    }
    var j := Search.FirstIndex(r1.windows, Alive);
    assert j == Some(at) by {
      assert forall i :: 0 <= i < at ==> r1.windows[i] == ws[i];
      assert Search.IsFirst(r1.windows, Alive, at);
      Search.FirstIndexFinds(r1.windows, Alive, at);
    }
  }

  /**
   * What `enable` leaves behind: the window list, the app events it listens
   * to, and whether its promise fulfils.
   */
  datatype Enabled = Enabled(windows: seq<Window>, listeners: seq<string>, fulfilled: bool)

  /**
   * `enable`: once the app is ready, show a window, then listen for a second
   * instance and for activation. A rejected load rejects `enable` before any
   * listener is added, leaving the new window hidden.
   */
  function Enable(m: Manager, ws: seq<Window>, loads: bool): (e: Enabled)
    ensures e.fulfilled <==> Search.FirstIndex(ws, Alive).Some? || loads
    ensures e.fulfilled ==> e.listeners == ["second-instance", "activate"]
    ensures e.fulfilled ==>
              exists i :: 0 <= i < |e.windows| && Alive(e.windows[i]) && e.windows[i].visible && e.windows[i].focused
    ensures !e.fulfilled ==> e.listeners == [] && e.windows == ws + [CreateWindow(m)] && !e.windows[|ws|].visible
  {
    var r := RestoreOrCreate(m, ws, true, loads);
    RestoredAlive(m, ws, true, loads);
    match r
    case LoadRejected(windows) => Enabled(windows, [], false)
    case Restored(windows, index, _) => Enabled(windows, ["second-instance", "activate"], true)
  }

  /**
   * An app event: a listened-for one runs restore-or-create with `show`,
   * whose rejection nobody handles, so the hidden window stays; any other
   * event changes nothing.
   */
  function OnEvent(m: Manager, e: Enabled, event: string, loads: bool): (r: Enabled)
    ensures event !in e.listeners ==> r == e
    ensures r.listeners == e.listeners && r.fulfilled == e.fulfilled
    ensures event in e.listeners && (Search.FirstIndex(e.windows, Alive).Some? || loads) ==>
              exists i :: 0 <= i < |r.windows| && Alive(r.windows[i]) && r.windows[i].visible && r.windows[i].focused
    ensures event in e.listeners && Search.FirstIndex(e.windows, Alive).None? && !loads ==>
              r.windows == e.windows + [CreateWindow(m)] && !r.windows[|e.windows|].visible
  {
    if event in e.listeners then
      var rc := RestoreOrCreate(m, e.windows, true, loads);
      RestoredAlive(m, e.windows, true, loads);
      e.(windows := rc.windows)
    else e
  }
}

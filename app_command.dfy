/** app-command.py: find a window by title and focus it, relocating it or the view between
    virtual desktops, or launch the program when no window is found. */
module AppCommand {
  import opened Common
  import opened Text
  import opened Desktops
  import opened Windows
  import opened Effects

  /** What the window-system libraries report during one invocation. */
  datatype Env = Env(
    desktopNames: seq<string>,             // get_virtual_desktops(): desktop k + 1 is named desktopNames[k]
    current: Desktop,                      // VirtualDesktop.current()
    apps: seq<App>,                        // get_apps_by_z_order(switcher_windows=True), front-most first
    windowsWithTitle: string -> seq<Hwnd>) // handles of gw.getWindowsWithTitle(title)

  /** How `main` ends. */
  datatype Outcome =
    | Returned
    | ValueError(operation: string) // raise ValueError(f"Invalid operation: {operation}")
    | AttributeError                // d.go() with d None: no desktop has the requested name

  const Find := "find"
  const Launch := "launch"
  const Operations := [Find, Launch]

  const GoToken := "go"
  const Bring := "bring"
  const OnlyCurrent := "only_current"
  const DesktopOperations := [GoToken, Bring, OnlyCurrent]

  /** `launch_app(path)`: run the path when it is truthy, otherwise print the notice. */
  function LaunchApp(path: Option<string>): (e: Effect)
    ensures e.Run? <==> Truthy(path)
    ensures e.Run? ==> e.path == path.value
    ensures !e.Run? ==> e == Print(WindowNotFoundNoPath)
  {
    if Truthy(path) then Run(path.value) else Print(WindowNotFoundNoPath)
  }

  /** The search of `main` for the lower-cased desktop token `desktop`: restricted to the
      current desktop exactly when the token is "only_current". */
  function FoundApp(env: Env, windowName: string, desktop: string): (r: Option<App>)
    ensures r.Some? ==> r.value in env.apps && r.value.hwnd in env.windowsWithTitle(windowName)
    ensures r.Some? && desktop == OnlyCurrent ==> r.value.desktop == env.current
    ensures r.None? <==> forall a :: a in env.apps && (desktop == OnlyCurrent ==> a.desktop == env.current)
                                     ==> a.hwnd !in env.windowsWithTitle(windowName)
  {
    var apps := AppsByZOrder(env.apps, env.current, desktop == OnlyCurrent);
    FindAppByNameSubstr(apps, env.windowsWithTitle(windowName))
  }

  /** The search covers every listed view unless the token is "only_current"; with it, the
      front-most view on the current desktop whose title matches wins. */
  lemma SearchScopeFollowsToken(env: Env, windowName: string, desktop: string)
    ensures desktop != OnlyCurrent ==>
              FoundApp(env, windowName, desktop) == FindAppByNameSubstr(env.apps, env.windowsWithTitle(windowName))
    ensures forall k :: desktop == OnlyCurrent && FirstJoinedOnDesktopAt(env.apps, env.current, env.windowsWithTitle(windowName), k) ==>
              FoundApp(env, windowName, desktop) == Some(env.apps[k])
  {
    UnrestrictedListIsAllApps(env.apps, env.current);
    forall k | desktop == OnlyCurrent && FirstJoinedOnDesktopAt(env.apps, env.current, env.windowsWithTitle(windowName), k)
      ensures FoundApp(env, windowName, desktop) == Some(env.apps[k])
    {
      CurrentOnlyFindsFrontMostOnCurrent(env.apps, env.current, env.windowsWithTitle(windowName), k);
    }
  }

  /** The launch step runs: the operation is "launch", or it is "find" and nothing was found. */
  predicate LaunchRequested(env: Env, op: string, windowName: string, desktop: string) {
    op == Launch || (op == Find && FoundApp(env, windowName, desktop).None?)
  }

  /** The log ends in the launch step (a run or the no-path notice). */
  predicate Launched(log: seq<Effect>) {
    |log| > 0 && (log[|log| - 1].Run? || log[|log| - 1] == Print(WindowNotFoundNoPath))
  }

  /** `main(operation, window_name, desktop, path)`: the effects it performs, in order, and
      how it ends. */
  method Invoke(env: Env, operation: string, windowName: string, desktop: string, path: Option<string>)
    returns (log: seq<Effect>, outcome: Outcome)
    // An unknown operation raises ValueError having done nothing.
    ensures Lower(operation) !in Operations ==> log == [] && outcome == ValueError(Lower(operation))
    // A window was found: one relocation chosen by the desktop token, then focus.
    ensures Lower(operation) == Find && FoundApp(env, windowName, Lower(desktop)).Some? ==>
              var app := FoundApp(env, windowName, Lower(desktop)).value;
              && outcome == Returned
              && |log| == 2 && log[1] == SwitchTo(app)
              && (Lower(desktop) == GoToken ==> log[0] == Go(app.desktop))
              && (Lower(desktop) == Bring ==> log[0] == Move(app, Some(env.current)))
              && (Lower(desktop) !in [GoToken, Bring] ==>
                    log[0] == Move(app, FindDesktopByName(env.desktopNames, Lower(desktop), false)))
    // Launch with a desktop-operation token: launch on the current desktop.
    ensures LaunchRequested(env, Lower(operation), windowName, Lower(desktop)) && Lower(desktop) in DesktopOperations ==>
              log == [LaunchApp(path)] && outcome == Returned
    // Launch with a desktop name: switch to the first desktop whose name contains it, then
    // launch; when none does, `d.go()` fails before anything happens.
    ensures LaunchRequested(env, Lower(operation), windowName, Lower(desktop)) && Lower(desktop) !in DesktopOperations ==>
              match FindDesktopByName(env.desktopNames, Lower(desktop), false)
              case Some(d) => log == [Go(d), LaunchApp(path)] && outcome == Returned
              case None => log == [] && outcome == AttributeError
    // Focus comes last, and a launch never follows a focus.
    ensures forall i :: 0 <= i < |log| && log[i].SwitchTo? ==> i == |log| - 1
    ensures Launched(log) ==> forall i :: 0 <= i < |log| ==> !log[i].SwitchTo?
    ensures AtMostOneGo(log)
    // The launch step is reached exactly when it is requested and the target desktop, if
    // any, resolves.
    ensures Launched(log) <==> LaunchRequested(env, Lower(operation), windowName, Lower(desktop)) && outcome == Returned
  {
    var op := Lower(operation);
    var dt := Lower(desktop);
    var searchCurrentDesktopOnly := dt == OnlyCurrent;
    var launch := false;
    log, outcome := [], Returned;

    if op == Find {
      var apps := AppsByZOrder(env.apps, env.current, searchCurrentDesktopOnly);
      var app := FindAppByNameSubstr(apps, env.windowsWithTitle(windowName));
      if app.Some? {
        if dt == GoToken {
          log := log + [Go(app.value.desktop)];
        } else if dt == Bring {
          log := log + [Move(app.value, Some(env.current))];
        } else {
          var d := FindDesktopByName(env.desktopNames, dt, false);
          log := log + [Move(app.value, d)];
        }
        log := log + [SwitchTo(app.value)];
      } else {
        launch := true;
      }
    }

    if op == Launch || launch {
      if dt !in DesktopOperations {
        var d := FindDesktopByName(env.desktopNames, dt, false);
        if d.None? {
          outcome := AttributeError;
          return;
        }
        log := log + [Go(d.value)];
      }
      log := log + [LaunchApp(path)];
    }

    if op !in Operations {
      outcome := ValueError(op);
    }
  }
}

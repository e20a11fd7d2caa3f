/** What the two tools do to the outside world, as entries of an ordered log. */
module Effects {
  import opened Common
  import opened Desktops
  import opened Windows

  /** The notices the tools print. */
  datatype Notice =
    | WindowNotFoundNoPath              // print_not_found_and_no_path()
    | DesktopNameNotFound(name: string) // "Desktop {name} not found."
    | DesktopNumberNotFound(number: int) // "Desktop {number} not found."

  datatype Effect =
    | Go(desktop: Desktop)                    // desktop.go(): switch the active view
    | Move(app: App, target: Option<Desktop>) // app.move(target); target may be None
    | SwitchTo(app: App)                      // app.switch_to(): focus the window
    | Run(path: string)                       // subprocess.run(path)
    | Print(notice: Notice)

  /** The log holds at most one desktop switch. */
  predicate AtMostOneGo(log: seq<Effect>) {
    forall i, j :: 0 <= i < |log| && 0 <= j < |log| && log[i].Go? && log[j].Go? ==> i == j
  }
}

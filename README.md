# app-command and go-to-desktop, modelled in Dafny

Two small Windows command-line tools for virtual desktops:

- **app-command** (`main` in `app-command.py`) finds a running application window by
  title and focuses it. The desktop token decides what happens before the focus. With
  `go`, the view switches to the window's desktop. With `bring`, the window moves to the
  current desktop. Any other token moves the window to the first desktop whose name
  contains the token. That includes `only_current`, which also restricts the search to
  the current desktop; it moves the window to the desktop named like "only_current",
  usually none. When no window is found, or the operation is `launch`, it runs the
  program given by `--path`. When the token is a desktop name, it first switches to that
  desktop.
- **go-to-desktop** (`main` in `go-to-desktop.py`) switches to a desktop chosen by name
  (exact or partial, case-insensitive) or by number.

The model keeps the tools' decision logic and abstracts the operating system:

- The window-system libraries become inputs. `AppCommand.Env` holds the desktop names in
  enumeration order, the current desktop, the z-ordered application views (pyvda
  `AppView`s, as `hwnd` plus desktop) and the title-matching function of pygetwindow
  (handles only).
- Everything the tools do becomes an ordered log of `Effects.Effect` values: `Go` (switch
  the view), `Move`, `SwitchTo` (focus), `Run` (start a process) and `Print` (a notice).
- A pyvda desktop is `Desktops.Desktop(number)`. Desktop `k + 1` of a snapshot is named
  `names[k]`.

Modules:

| module | file | models |
|---|---|---|
| `Common` | common.dfy | `Option`, and Python truthiness of optional strings |
| `Text` | text.dfy | `str.lower()` (ASCII) and `in` on strings |
| `Desktops` | desktops.dfy | `find_desktop_by_name`, `find_desktop_by_number` |
| `Windows` | windows.dfy | `get_apps_by_z_order` scoping, `find_app_by_name_substr` |
| `Effects` | effects.dfy | the effect log entries and printed notices |
| `AppCommand` | app_command.dfy | `launch_app` and `main` of app-command.py |
| `GoToDesktop` | go_to_desktop.dfy | `main` of go-to-desktop.py |

go-to-desktop.py repeats the lookup logic of app-command.py inline. The model defines the
lookups once, in `Desktops`, and `GoToDesktop.Invoke` (its `main`) uses them.

`AppCommand.Invoke` models `main` as a method. Like the source, it keeps a local `launch` flag and
appends effects to the log in program order. Its postcondition fixes the whole log and
the outcome for every combination of operation token, desktop token and search result.
It also states the ordering guarantees on their own: focus comes last, a launch never
follows a focus, there is at most one desktop switch, and the launch step is reached
exactly when it was requested and its target desktop resolved.

## Behaviour of the code the model keeps

- The number lookup succeeds iff `number <= len(desktops)`. There is no lower bound, so
  0 and negative numbers give a desktop object.
- The operation tokens are `find` and `launch`. The desktop token is `go`, `bring`,
  `only_current` or a desktop name.
- An invalid operation is only rejected at the end of `main`. No other branch runs for
  such a token, so the `ValueError` comes with no effect before it.
- A desktop name that matches no desktop gives `None`. When a window was found, the code
  calls `app.move(None)`. On the launch path, `d.go()` on `None` raises `AttributeError`
  before anything is launched.
- The `desktop` argument is always a string: click's default `'go'` makes it one and
  `.lower()` keeps it one. The `type(desktop) == int` branches (app-command.py:123-125,
  136-138) can never run, so a token such as `"2"` is looked up as a desktop *name*. The
  docstring (app-command.py:93-94) promises that a number token brings the window to
  the desktop with that number, which the code never does. The model has no number branch
  there.

## Model

| member | source | states |
|---|---|---|
| `Text.Lower` | app-command.py:103-104 | `s.lower()`: same length, each upper-case ASCII letter replaced by its lower-case form, every other character kept in place |
| `Text.LowerChar` | app-command.py:21 | the lower-cased character is never an upper-case ASCII letter; other characters are unchanged |
| `Text.Contains` | app-command.py:25 | `pat in text` holds iff `pat` occurs at some position of `text` |
| `Text.ContainsEmpty` | app-command.py:25 | the empty query is contained in every name |
| `Desktops.FindDesktopByName` | app-command.py:15-27 | returns the first desktop in enumeration order whose name matches (case-insensitive equality if `exact`, case-insensitive substring otherwise); `None` iff no desktop matches |
| `Desktops.SearchFrom` | app-command.py:18-26 | the for-loop with early return: given that no earlier name matched, the result is the first match from `from` on, or `None` iff none matches |
| `Desktops.FindDesktopByNumber` | app-command.py:29-35 | returns a desktop iff `number <= len(desktops)`, and that desktop has the requested number |
| `Desktops.ByNumberHasNoLowerBound` | app-command.py:32-33 | 0 and negative numbers still yield a desktop, one that is not in the snapshot |
| `Desktops.ByNumberFindsExactlyTheSnapshot` | app-command.py:32-35 | for positive numbers, a desktop is returned iff it is one of the snapshot's desktops |
| `Desktops.ByNameFindsSnapshotDesktop` | app-command.py:18-26 | a desktop found by name is a desktop of the snapshot |
| `Desktops.ExactMatchIsSubstringMatch` | app-command.py:19-25 | a name that matches exactly also matches as a substring |
| `Desktops.SubstringFindsNoLaterThanExact` | app-command.py:18-27 | whenever the exact lookup finds a desktop, the substring lookup finds one at or before it |
| `Desktops.EmptyQueryFindsFirstDesktop` | app-command.py:23-26 | an empty partial query returns desktop 1 whenever a desktop exists |
| `Desktops.LaterMatchNeverWins` | app-command.py:18-26 | when desktop i matches, a desktop is found and it is desktop i or an earlier one |
| `Desktops.ByNameIgnoresQueryCase` | app-command.py:21-25 | lower-casing the query first never changes the result |
| `Desktops.FirstPartialMatchWins` | app-command.py:23-26 | with desktops "Work", "Chat", "Work2", a partial "work" selects desktop 1, not 3 |
| `Windows.AppsByZOrder` | app-command.py:41 | the view list holds exactly the listed views, restricted to the current desktop when asked |
| `Windows.AnyWindowHas` | app-command.py:45-46 | the inner loop finds a matching window iff the handle is among the matched handles |
| `Windows.FindAppByNameSubstr` | app-command.py:37-49 | returns the first view in z-order whose handle is among the title-matched handles; `None` iff no view's handle is |
| `Windows.JoinFrom` | app-command.py:44-49 | the outer loop: given that no earlier view joined, returns the first joined view from `from` on, or `None` iff none joins |
| `Windows.FoundAppIsListedAndMatched` | app-command.py:44-48 | the result is a member of the view list and its handle is title-matched |
| `Windows.FrontMostMatchWins` | app-command.py:44-48 | when view i joins, a view at or before i is returned |
| `Windows.FirstJoinDeterminesResult` | app-command.py:44-48 | the result is the view at the first joined position |
| `Windows.UnmatchedHeadIsSkipped` | app-command.py:44-47 | a front view without a matched handle does not affect the result |
| `Windows.CurrentOnlyFindsFrontMostOnCurrent` | app-command.py:41-48 | restricted to the current desktop, the search returns the front-most view on that desktop whose handle matches |
| `Windows.UnrestrictedListIsAllApps` | app-command.py:41 | unrestricted, the view list is the whole z-ordered list, in order |
| `AppCommand.LaunchApp` | app-command.py:54-59 | runs the path iff it is non-empty, and otherwise prints the not-found notice |
| `AppCommand.FoundApp` | app-command.py:104-112 | a found view is listed and title-matched, and lies on the current desktop when the token is "only_current"; nothing is found iff no view in scope matches |
| `AppCommand.SearchScopeFollowsToken` | app-command.py:106-112 | the search is over all views unless the token is "only_current", where the front-most matching view on the current desktop wins |
| `AppCommand.Invoke` | app-command.py:100-142 | an unknown operation raises ValueError with an empty log. A found window gets exactly one relocation chosen by the token (`go`: switch to its desktop; `bring`: move to the current desktop; otherwise: move to the first desktop whose name contains the token, possibly None), then focus as the last effect. Launch happens iff the operation is `launch` or a find missed; a desktop-name token switches to that desktop first, or raises AttributeError with nothing launched when no name contains it. Also: at most one desktop switch, and focus and launch exclude each other |
| `GoToDesktop.Invoke` | go-to-desktop.py:9-31 | exactly one effect. With a non-empty name: a switch iff some desktop matches, to the first match in enumeration order, else the "not found" notice for the name. Without one: a switch to desktop `number` iff `number <= len(desktops)`, else the notice for the number |
| `GoToDesktop.NameOverridesNumber` | go-to-desktop.py:12-31 | with a non-empty name, the number has no effect on the result |
| `GoToDesktop.EmptyNameFallsBackToNumber` | go-to-desktop.py:12-31 | an empty name behaves as no name |
| `GoToDesktop.NoArgumentsGoesToFirstDesktop` | go-to-desktop.py:6-29 | with the default number 1 and no name, the tool switches to desktop 1 whenever one exists |
| `GoToDesktop.NonPositiveNumberIsNotRejected` | go-to-desktop.py:27-29 | a number of 0 or less switches to a desktop that is not in the snapshot |
| `GoToDesktop.PartialNameGoesNoLaterThanExact` | go-to-desktop.py:13-21 | when an exact name finds a desktop, the same name matched partially switches to that desktop or an earlier one |

## Left out

- pyvda calls (`get_virtual_desktops`, `get_apps_by_z_order`, `VirtualDesktop.current`,
  `go`, `move`, `switch_to`) are foreign code. Their results are the inputs in
  `AppCommand.Env`, and their actions are entries of the effect log. What pyvda does with
  `app.move(None)` or with a `VirtualDesktop(n)` for which no desktop exists is not
  modelled. The log records the call, and the model continues as if it returned.
- Windows.AppsByZOrder: `get_apps_by_z_order(current_desktop=True)` is assumed to yield
  the z-ordered views on the current desktop in their original order. This is how the
  library is used here; its real implementation is not part of this model.
- pygetwindow's `getWindowsWithTitle` title-matching rule, including case sensitivity, is
  an input function from title to the matched handles.
- `subprocess.run` is recorded as a `Run(path)` effect. Process spawning and its failures
  are not modelled.
- Exceptions raised inside foreign calls are not modelled. `AppView` objects are taken to
  be truthy, as `if app:` expects.
- click argument parsing is not modelled. Its defaults appear as `GoToDesktop.DefaultNumber`
  (1) and as `None` for an omitted `--name` or `--path`. The text of printed messages
  appears only as `Effects.Notice` values carrying the name or number.
- Text.LowerChar: models `str.lower()` on ASCII letters only, not full Unicode case
  mapping.
- Text.Lower: lowers ASCII letters only, character by character through `LowerChar`.
- The commented-out code and the use-case comments of app-command.py (lines 9-13, 66,
  144-154) and the `__main__` entry points are not modelled.

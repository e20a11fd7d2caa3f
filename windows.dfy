/** Window lookup of app-command.py: `find_app_by_name_substr`, the join of pyvda's
    z-ordered application views with pygetwindow's title-matched windows on the OS window
    handle. */
module Windows {
  import opened Common
  import opened Desktops

  /** An OS window handle (`AppView.hwnd`, `Window._hWnd`). */
  type Hwnd = int

  /** A pyvda `AppView`: a window handle and the desktop that holds the window. */
  datatype App = App(hwnd: Hwnd, desktop: Desktop)

  /** `get_apps_by_z_order(switcher_windows=True, current_desktop=currentOnly)` over the
      full z-ordered list `apps` (front-most first): with `currentOnly`, the views on the
      current desktop, in the same order. */
  function AppsByZOrder(apps: seq<App>, current: Desktop, currentOnly: bool): (r: seq<App>)
    ensures |r| <= |apps|
    ensures forall a :: a in r ==> a in apps
    ensures forall a :: a in apps ==> (a in r <==> !currentOnly || a.desktop == current)
  {
    if apps == [] then
      []
    else if !currentOnly || apps[0].desktop == current then
      [apps[0]] + AppsByZOrder(apps[1..], current, currentOnly)
    else
      AppsByZOrder(apps[1..], current, currentOnly)
  }

  /** The inner loop over the title-matched windows: does one of them have handle `hwnd`? */
  function AnyWindowHas(windows: seq<Hwnd>, hwnd: Hwnd): (r: bool)
    ensures r <==> hwnd in windows
  {
    if windows == [] then false
    else if windows[0] == hwnd then true
    else AnyWindowHas(windows[1..], hwnd)
  }

  /** `apps[k]` has a title-matched handle and no view before it in z-order has one. */
  ghost predicate FirstJoinedAt(apps: seq<App>, windows: seq<Hwnd>, k: int) {
    && 0 <= k < |apps|
    && apps[k].hwnd in windows
    && forall j :: 0 <= j < k ==> apps[j].hwnd !in windows
  }

  /** `find_app_by_name_substr`, given the view list and the handles of the windows whose
      titles match: the first view, in z-order, whose handle is among them, or `None`. */
  function FindAppByNameSubstr(apps: seq<App>, windows: seq<Hwnd>): (r: Option<App>)
    ensures r.Some? ==> exists k :: FirstJoinedAt(apps, windows, k) && apps[k] == r.value
    ensures r.None? <==> forall a :: a in apps ==> a.hwnd !in windows
  {
    JoinFrom(apps, windows, 0)
  }

  /** The outer loop of `FindAppByNameSubstr` from view `from` on; no earlier view joined. */
  function JoinFrom(apps: seq<App>, windows: seq<Hwnd>, from: nat): (r: Option<App>)
    requires from <= |apps|
    requires forall j :: 0 <= j < from ==> apps[j].hwnd !in windows
    decreases |apps| - from
    ensures r.Some? ==> exists k :: FirstJoinedAt(apps, windows, k) && apps[k] == r.value
    ensures r.None? <==> forall k :: from <= k < |apps| ==> apps[k].hwnd !in windows
  {
    if from == |apps| then
      None
    else if AnyWindowHas(windows, apps[from].hwnd) then
      assert FirstJoinedAt(apps, windows, from);
      Some(apps[from])
    else
      JoinFrom(apps, windows, from + 1)
  }

  /** A found view is one of the listed views and its handle is among the matched ones. */
  lemma FoundAppIsListedAndMatched(apps: seq<App>, windows: seq<Hwnd>)
    requires FindAppByNameSubstr(apps, windows).Some?
    ensures FindAppByNameSubstr(apps, windows).value in apps
    ensures FindAppByNameSubstr(apps, windows).value.hwnd in windows
  {
  }

  /** When several views match, the one nearest the front of the z-order wins. */
  lemma FrontMostMatchWins(apps: seq<App>, windows: seq<Hwnd>, i: int)
    requires 0 <= i < |apps| && apps[i].hwnd in windows
    ensures FindAppByNameSubstr(apps, windows).Some?
    ensures exists k :: 0 <= k <= i && FirstJoinedAt(apps, windows, k)
                        && apps[k] == FindAppByNameSubstr(apps, windows).value
  {
    assert apps[i] in apps;
  }

  /** The join result is fixed by the first joined position. */
  lemma FirstJoinDeterminesResult(apps: seq<App>, windows: seq<Hwnd>, k: int)
    requires FirstJoinedAt(apps, windows, k)
    ensures FindAppByNameSubstr(apps, windows) == Some(apps[k])
  {
    assert apps[k] in apps;
    var r := FindAppByNameSubstr(apps, windows);
    var k' :| FirstJoinedAt(apps, windows, k') && apps[k'] == r.value;
    assert !(k' < k) && !(k < k');
  }

  /** A view whose handle is not matched does not change the result of the join. */
  lemma UnmatchedHeadIsSkipped(a: App, rest: seq<App>, windows: seq<Hwnd>)
    requires a.hwnd !in windows
    ensures FindAppByNameSubstr([a] + rest, windows) == FindAppByNameSubstr(rest, windows)
  {
    var r := FindAppByNameSubstr(rest, windows);
    if r.Some? {
      var k :| FirstJoinedAt(rest, windows, k) && rest[k] == r.value;
      assert FirstJoinedAt([a] + rest, windows, k + 1);
      FirstJoinDeterminesResult([a] + rest, windows, k + 1);
    } else {
      assert forall x :: x in [a] + rest ==> x == a || x in rest;
    }
  }

  /** `apps[k]` is the front-most view on `current` whose handle is matched. */
  ghost predicate FirstJoinedOnDesktopAt(apps: seq<App>, current: Desktop, windows: seq<Hwnd>, k: int) {
    && 0 <= k < |apps|
    && apps[k].desktop == current && apps[k].hwnd in windows
    && forall j :: 0 <= j < k && apps[j].desktop == current ==> apps[j].hwnd !in windows
  }

  /** The search restricted to the current desktop keeps z-order precedence: it returns the
      front-most view on that desktop whose handle is matched. */
  lemma {:induction false} CurrentOnlyFindsFrontMostOnCurrent(apps: seq<App>, current: Desktop, windows: seq<Hwnd>, k: int)
    requires FirstJoinedOnDesktopAt(apps, current, windows, k)
    ensures FindAppByNameSubstr(AppsByZOrder(apps, current, true), windows) == Some(apps[k])
  {
    var rest := AppsByZOrder(apps[1..], current, true);
    if k == 0 {
      assert AppsByZOrder(apps, current, true) == [apps[0]] + rest;
      assert FirstJoinedAt([apps[0]] + rest, windows, 0);
      FirstJoinDeterminesResult([apps[0]] + rest, windows, 0);
    } else {
      assert FirstJoinedOnDesktopAt(apps[1..], current, windows, k - 1);
      CurrentOnlyFindsFrontMostOnCurrent(apps[1..], current, windows, k - 1);
      if apps[0].desktop == current {
        assert AppsByZOrder(apps, current, true) == [apps[0]] + rest;
        UnmatchedHeadIsSkipped(apps[0], rest, windows);
      }
    }
  }

  /** Without the restriction the search runs over every listed view, in order. */
  lemma {:induction false} UnrestrictedListIsAllApps(apps: seq<App>, current: Desktop)
    ensures AppsByZOrder(apps, current, false) == apps
  {
    if apps != [] {
      UnrestrictedListIsAllApps(apps[1..], current);
      assert [apps[0]] + apps[1..] == apps;
    }
  }
}

/** Desktop lookup of app-command.py (`find_desktop_by_name`, `find_desktop_by_number`),
    whose logic go-to-desktop.py repeats inline.

    A snapshot of `get_virtual_desktops()` is the sequence of desktop names in
    enumeration order: desktop number k + 1 is named `names[k]`. */
module Desktops {
  import opened Common
  import opened Text

  /** A pyvda `VirtualDesktop`, identified by its 1-based number. `VirtualDesktop(n)` can
      be built for any integer `n`, whether or not such a desktop exists. */
  datatype Desktop = Desktop(number: int)

  /** The desktop names of a snapshot, listed by number. */
  predicate IsDesktopOf(names: seq<string>, d: Desktop) {
    1 <= d.number <= |names|
  }

  /** The match test of the lookup by name: case-insensitive equality when `exact`,
      otherwise the lower-cased query is a substring of the lower-cased desktop name. */
  predicate NameMatches(query: string, name: string, exact: bool) {
    if exact then Lower(query) == Lower(name) else Contains(Lower(name), Lower(query))
  }

  /** No desktop of the snapshot matches. */
  ghost predicate NoneMatches(names: seq<string>, query: string, exact: bool) {
    forall k :: 0 <= k < |names| ==> !NameMatches(query, names[k], exact)
  }

  /** `names[k]` matches and no earlier name does: the first match in enumeration order. */
  ghost predicate FirstMatchAt(names: seq<string>, query: string, exact: bool, k: int) {
    && 0 <= k < |names|
    && NameMatches(query, names[k], exact)
    && forall j :: 0 <= j < k ==> !NameMatches(query, names[j], exact)
  }

  /** `find_desktop_by_name(query, exact)`: the for-loop over the desktops with an early
      return on the first match, or `None`. */
  function FindDesktopByName(names: seq<string>, query: string, exact: bool): (r: Option<Desktop>)
    ensures r.Some? ==> FirstMatchAt(names, query, exact, r.value.number - 1)
    ensures r.None? <==> NoneMatches(names, query, exact)
  {
    SearchFrom(names, query, exact, 0)
  }

  /** The loop of `FindDesktopByName` from position `from` on; every earlier name has
      already failed to match. */
  function SearchFrom(names: seq<string>, query: string, exact: bool, from: nat): (r: Option<Desktop>)
    requires from <= |names|
    requires forall j :: 0 <= j < from ==> !NameMatches(query, names[j], exact)
    decreases |names| - from
    ensures r.Some? ==> FirstMatchAt(names, query, exact, r.value.number - 1)
    ensures r.None? <==> forall k :: from <= k < |names| ==> !NameMatches(query, names[k], exact)
  {
    if from == |names| then
      None
    else if NameMatches(query, names[from], exact) then
      Some(Desktop(from + 1))
    else
      SearchFrom(names, query, exact, from + 1)
  }

  /** `find_desktop_by_number(number)`: only the upper bound is tested. */
  function FindDesktopByNumber(names: seq<string>, number: int): (r: Option<Desktop>)
    ensures r.Some? <==> number <= |names|
    ensures r.Some? ==> r.value.number == number
  {
    if number <= |names| then Some(Desktop(number)) else None
  }

  /** The lookup by number has no lower bound: 0 and every negative number yield a desktop
      object that is not one of the snapshot's desktops. */
  lemma ByNumberHasNoLowerBound(names: seq<string>, number: int)
    requires number <= 0
    ensures FindDesktopByNumber(names, number) == Some(Desktop(number))
    ensures !IsDesktopOf(names, Desktop(number))
  {
  }

  /** Within the bounds the lookup by number returns exactly the desktops of the snapshot. */
  lemma ByNumberFindsExactlyTheSnapshot(names: seq<string>, number: int)
    requires 1 <= number
    ensures FindDesktopByNumber(names, number).Some? <==> IsDesktopOf(names, Desktop(number))
  {
  }

  /** A desktop found by name is one of the snapshot's desktops. */
  lemma ByNameFindsSnapshotDesktop(names: seq<string>, query: string, exact: bool)
    requires FindDesktopByName(names, query, exact).Some?
    ensures IsDesktopOf(names, FindDesktopByName(names, query, exact).value)
  {
  }

  /** A name that matches exactly also matches as a substring. */
  lemma ExactMatchIsSubstringMatch(query: string, name: string)
    requires NameMatches(query, name, true)
    ensures NameMatches(query, name, false)
  {
    ContainsSelf(Lower(name));
  }

  /** Substring lookup never lands later than exact lookup: whenever an exact match exists,
      the substring search finds a desktop at or before it. */
  lemma SubstringFindsNoLaterThanExact(names: seq<string>, query: string)
    requires FindDesktopByName(names, query, true).Some?
    ensures FindDesktopByName(names, query, false).Some?
    ensures FindDesktopByName(names, query, false).value.number
            <= FindDesktopByName(names, query, true).value.number
  {
    var k := FindDesktopByName(names, query, true).value.number - 1;
    ExactMatchIsSubstringMatch(query, names[k]);
  }

  /** An empty query is a substring of every name, so the substring search returns the
      first desktop whenever there is one. */
  lemma EmptyQueryFindsFirstDesktop(names: seq<string>)
    requires |names| > 0
    ensures FindDesktopByName(names, "", false) == Some(Desktop(1))
  {
    assert Lower("") == "";
    ContainsEmpty(Lower(names[0]));
  }

  /** Any matching desktop bounds the result: no later desktop is ever returned. */
  lemma LaterMatchNeverWins(names: seq<string>, query: string, exact: bool, i: int)
    requires 0 <= i < |names|
    requires NameMatches(query, names[i], exact)
    ensures FindDesktopByName(names, query, exact).Some?
    ensures FindDesktopByName(names, query, exact).value.number <= i + 1
  {
    assert !NoneMatches(names, query, exact);
  }

  /** The query's case does not matter: lower-casing it first changes no result. */
  lemma {:induction false} ByNameIgnoresQueryCase(names: seq<string>, query: string, exact: bool)
    ensures FindDesktopByName(names, Lower(query), exact) == FindDesktopByName(names, query, exact)
  {
    LowerIdempotent(query);
    assert forall k :: 0 <= k < |names| ==>
      NameMatches(Lower(query), names[k], exact) == NameMatches(query, names[k], exact);
  }

  /** Three desktops named "Work", "Chat" and "Work2": a partial, lower-case "work" selects
      desktop 1, not desktop 3. */
  lemma FirstPartialMatchWins()
    ensures FindDesktopByName(["Work", "Chat", "Work2"], "work", false) == Some(Desktop(1))
  {
    assert Lower("work") == "work";
    assert Lower("Work") == "work";
    ContainsSelf("work");
  }
}

/** go-to-desktop.py: switch to a virtual desktop chosen by name or by number. */
module GoToDesktop {
  import opened Common
  import opened Desktops
  import opened Effects

  /** The value of the NUMBER argument when it is omitted. */
  const DefaultNumber := 1

  /** `main(number, name, exact)` over the snapshot `names`; the result is what it does:
      one desktop switch or one printed notice. */
  function Invoke(names: seq<string>, number: int, name: Option<string>, exact: bool): (log: seq<Effect>)
    ensures |log| == 1 && AtMostOneGo(log)
    ensures Truthy(name) ==>
              (log[0].Go? <==> exists k :: 0 <= k < |names| && NameMatches(name.value, names[k], exact))
    ensures Truthy(name) && log[0].Go? ==> FirstMatchAt(names, name.value, exact, log[0].desktop.number - 1)
    ensures Truthy(name) && !log[0].Go? ==> log[0] == Print(DesktopNameNotFound(name.value))
    ensures !Truthy(name) ==> (log[0].Go? <==> number <= |names|)
    ensures !Truthy(name) && log[0].Go? ==> log[0].desktop == Desktop(number)
    ensures !Truthy(name) && !log[0].Go? ==> log[0] == Print(DesktopNumberNotFound(number))
  {
    if Truthy(name) then
      match FindDesktopByName(names, name.value, exact)
      case Some(d) => [Go(d)]
      case None => [Print(DesktopNameNotFound(name.value))]
    else
      match FindDesktopByNumber(names, number)
      case Some(d) => [Go(d)]
      case None => [Print(DesktopNumberNotFound(number))]
  }

  /** A non-empty name takes precedence: the number is then ignored. */
  lemma NameOverridesNumber(names: seq<string>, n1: int, n2: int, name: Option<string>, exact: bool)
    requires Truthy(name)
    ensures Invoke(names, n1, name, exact) == Invoke(names, n2, name, exact)
  {
  }

  /** An empty name counts as no name: the number decides. */
  lemma EmptyNameFallsBackToNumber(names: seq<string>, number: int, exact: bool)
    ensures Invoke(names, number, Some(""), exact) == Invoke(names, number, None, exact)
  {
  }

  /** With neither argument, the tool switches to desktop 1 whenever a desktop exists. */
  lemma NoArgumentsGoesToFirstDesktop(names: seq<string>, exact: bool)
    requires |names| > 0
    ensures Invoke(names, DefaultNumber, None, exact) == [Go(Desktop(1))]
  {
  }

  /** The number is not checked from below: 0 or a negative number switches to a desktop
      that is not in the snapshot. */
  lemma NonPositiveNumberIsNotRejected(names: seq<string>, number: int, exact: bool)
    requires number <= 0
    ensures Invoke(names, number, None, exact) == [Go(Desktop(number))]
    ensures !IsDesktopOf(names, Invoke(names, number, None, exact)[0].desktop)
  {
  }

  /** Exact and partial name matching agree with the lookup of app-command.py, and a
      partial match never switches to a later desktop than an exact one would. */
  lemma PartialNameGoesNoLaterThanExact(names: seq<string>, name: string)
    requires name != ""
    requires Invoke(names, DefaultNumber, Some(name), true)[0].Go?
    ensures Invoke(names, DefaultNumber, Some(name), false)[0].Go?
    ensures Invoke(names, DefaultNumber, Some(name), false)[0].desktop.number
            <= Invoke(names, DefaultNumber, Some(name), true)[0].desktop.number
  {
    SubstringFindsNoLaterThanExact(names, name);
  }
}

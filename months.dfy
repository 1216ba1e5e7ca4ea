/** The month the ledger view shows: a month name, looked up in a table of
    the twelve English month names, and moved back and forth inside the
    three-month window September to November. */
module Months {
  import opened Options
  import opened Seqs

  const MonthNames: seq<string> :=
    ["January", "February", "March", "April", "May", "June",
     "July", "August", "September", "October", "November", "December"]

  /** `monthMap`: each month name with its month index. */
  const MonthMap: map<string, nat> :=
    map["January" := 0, "February" := 1, "March" := 2, "April" := 3, "May" := 4, "June" := 5,
        "July" := 6, "August" := 7, "September" := 8, "October" := 9, "November" := 10, "December" := 11]

  /** `monthMap[name]`: the month index of a name, or None for a string that
      is not a month name (the lookup gives `undefined`). The index is the
      name's position in the list of month names. */
  function MonthIndex(name: string): (r: Option<nat>)
    ensures r.Some? <==> name in MonthNames
    ensures r.Some? ==> r.value < 12 && MonthNames[r.value] == name
  {
    if name in MonthMap then Some(MonthMap[name]) else None
  }

  /** The table maps each month name to its own position. */
  lemma MonthIndexOfName(i: nat)
    requires i < 12
    ensures MonthIndex(MonthNames[i]) == Some(i)
  {
  }

  /** The months the navigation can show. */
  predicate InWindow(name: string)
  {
    name == "September" || name == "October" || name == "November"
  }

  /** `handlePreviousMonth`: one month back, except at the window's start. */
  function PreviousMonth(name: string): (r: string)
    ensures InWindow(name) ==> InWindow(r)
    ensures r == name <==> name != "November" && name != "October"
  {
    if name == "November" then "October"
    else if name == "October" then "September"
    else name
  }

  /** `handleNextMonth`: one month forward, except at the window's end. */
  function NextMonth(name: string): (r: string)
    ensures InWindow(name) ==> InWindow(r)
    ensures r == name <==> name != "October" && name != "September"
  {
    if name == "October" then "November"
    else if name == "September" then "October"
    else name
  }

  /** A step that moves goes exactly one calendar month: back lowers the
      month index by one, forward raises it by one. */
  lemma StepsAreOneMonth(name: string)
    ensures PreviousMonth(name) != name ==>
              MonthIndex(PreviousMonth(name)).Some? && MonthIndex(name).Some?
              && MonthIndex(PreviousMonth(name)).value + 1 == MonthIndex(name).value
    ensures NextMonth(name) != name ==>
              MonthIndex(NextMonth(name)).Some? && MonthIndex(name).Some?
              && MonthIndex(NextMonth(name)).value == MonthIndex(name).value + 1
  {
    assert MonthNames[8] == "September" && MonthNames[9] == "October" && MonthNames[10] == "November";
    if name == "September" {
      MonthIndexOfName(8);
      MonthIndexOfName(9);
    } else if name == "October" {
      MonthIndexOfName(8);
      MonthIndexOfName(9);
      MonthIndexOfName(10);
    } else if name == "November" {
      MonthIndexOfName(9);
      MonthIndexOfName(10);
    }
  }

  /** Inside the window, stepping back and then forward (or forward and then
      back) returns to the starting month wherever the first step moved. */
  lemma NavigationInverse(name: string)
    ensures name != PreviousMonth(name) ==> NextMonth(PreviousMonth(name)) == name
    ensures name != NextMonth(name) ==> PreviousMonth(NextMonth(name)) == name
  {
  }

  /** Two steps back from anywhere in the window reach September, and two
      steps forward reach November: the window has exactly three months. */
  lemma WindowEnds(name: string)
    requires InWindow(name)
    ensures PreviousMonth(PreviousMonth(name)) == "September"
    ensures NextMonth(NextMonth(name)) == "November"
  {
  }
}

/** Sessions: grouping the loaded solves by session name, and switching the
    current session (the displayed table, the date-ordered copy the record
    history uses, and its running bests). */
module Sessions {
  import opened Common
  import opened Solves
  import opened Averages
  import opened Table

  // ---------------------------------------------------------------------------
  // extractSessions

  /** `solve.session || 'Default'`: a missing or empty name means
      "Default". */
  function GroupName(s: Solve): (r: string)
    ensures r != ""
  {
    if s.session.Some? && s.session.value != "" then s.session.value else "Default"
  }

  /** The grouping loop: each solve is appended to its group's list. */
  function Groups(solves: seq<Solve>): map<string, seq<Solve>>
  {
    if |solves| == 0 then map[]
    else
      var m := Groups(solves[..|solves| - 1]);
      var s := solves[|solves| - 1];
      var g := GroupName(s);
      m[g := (if g in m then m[g] else []) + [s]]
  }

  /** The properties every plain object inherits from `Object.prototype`.
      Looking one up in a fresh `{}` finds a function (or, for
      `__proto__`, the prototype itself), never a list. */
  const InheritedNames: set<string> := {
    "constructor", "hasOwnProperty", "isPrototypeOf", "propertyIsEnumerable",
    "toLocaleString", "toString", "valueOf", "__proto__",
    "__defineGetter__", "__defineSetter__", "__lookupGetter__", "__lookupSetter__"}

  /** Some solve's group name is an inherited property: `!sessionMap[name]`
      is false there, so no list is created and `push` throws. */
  predicate HitsInheritedName(solves: seq<Solve>)
  {
    exists k :: 0 <= k < |solves| && GroupName(solves[k]) in InheritedNames
  }

  /** `extractSessions`: no solves give no sessions; a first record without
      a session field puts everything in "All"; otherwise the solves are
      grouped by name, and the grouping throws (`None`) when a name is an
      inherited property of the session object. The load handler then
      clears the solves and the sessions. */
  function ExtractSessions(solves: seq<Solve>): (r: Option<map<string, seq<Solve>>>)
    ensures |solves| == 0 ==> r == Some(map[])
    ensures |solves| > 0 && solves[0].session.None? ==> r == Some(map["All" := solves])
    ensures |solves| > 0 && solves[0].session.Some? ==>
              (r.None? <==> exists k :: 0 <= k < |solves| && GroupName(solves[k]) in InheritedNames)
  {
    if |solves| == 0 then Some(map[])
    else if solves[0].session.None? then Some(map["All" := solves])
    else if HitsInheritedName(solves) then None
    else Some(Groups(solves))
  }

  /** A session named after an inherited property makes the load fail. */
  lemma InheritedSessionNameFails(s: Solve, solves: seq<Solve>)
    requires s.session == Some("constructor")
    ensures ExtractSessions([s] + solves).None?
  {
    assert ([s] + solves)[0] == s;
  }

  predicate InGroup(g: string, s: Solve)
  {
    GroupName(s) == g
  }

  /** Each group is, in input order, exactly the solves with that name, and
      a group exists exactly for the names that occur. */
  lemma {:induction false} GroupsAreFilters(solves: seq<Solve>, g: string)
    ensures g in Groups(solves) <==> exists k :: 0 <= k < |solves| && GroupName(solves[k]) == g
    ensures g in Groups(solves) ==> Groups(solves)[g] == Filter(solves, (s: Solve) => InGroup(g, s))
    ensures g !in Groups(solves) ==> Filter(solves, (s: Solve) => InGroup(g, s)) == []
  {
    if |solves| > 0 {
      var prev := solves[..|solves| - 1];
      var s := solves[|solves| - 1];
      GroupsAreFilters(prev, g);
      assert forall k :: 0 <= k < |prev| ==> prev[k] == solves[k];
      if GroupName(s) == g {
        assert solves[|solves| - 1] == s;
      }
    }
  }

  /** When the grouping succeeds, the groups partition the input: a group
      exists exactly for each name that occurs, a solve lies in the group of
      its own name and in no other, and each group keeps the input order. */
  lemma ExtractSessionsPartition(solves: seq<Solve>, g: string, s: Solve)
    requires |solves| > 0 && solves[0].session.Some?
    ensures ExtractSessions(solves).Some? ==>
              (g in ExtractSessions(solves).value <==> exists k :: 0 <= k < |solves| && GroupName(solves[k]) == g)
    ensures ExtractSessions(solves).Some? && g in ExtractSessions(solves).value ==>
              (s in ExtractSessions(solves).value[g] <==> s in solves && GroupName(s) == g)
    ensures ExtractSessions(solves).Some? && s in solves ==> GroupName(s) in ExtractSessions(solves).value
    ensures ExtractSessions(solves).Some? && g in ExtractSessions(solves).value ==>
              ExtractSessions(solves).value[g] == Filter(solves, (x: Solve) => InGroup(g, x))
    ensures ExtractSessions(solves).Some? ==> forall name :: name in ExtractSessions(solves).value ==> name !in InheritedNames
  {
    GroupsAreFilters(solves, g);
    GroupsAreFilters(solves, GroupName(s));
    FilterMembers(solves, (x: Solve) => InGroup(g, x), s);
    if ExtractSessions(solves).Some? {
      forall name | name in ExtractSessions(solves).value ensures name !in InheritedNames {
        GroupsAreFilters(solves, name);
      }
    }
  }

  // ---------------------------------------------------------------------------
  // setSession

  /** The application state `setSession` reads and writes. */
  datatype View = View(
    sessionMap: map<string, seq<Solve>>,
    currentSession: Option<string>,
    displayed: seq<Solve>,
    sort: SortState,
    recordFilter: string,
    history: seq<Solve>,
    bests: Rolling)

  /** `sortData(State.currentSort.column)`: no column means no sort. */
  function ResortCurrent(displayed: seq<Solve>, sort: SortState): Sorted
  {
    SortData(displayed, sort, if sort.column.Some? then sort.column.value else "")
  }

  /** `(a, b) => a.date - b.date`: oldest first. */
  function DateKey(): Key<Solve>
  {
    SolveKey("date", true)
  }

  /** Under the date key two solves tie exactly when they share a date. */
  lemma DateTiesAreSameDate(a: Solve, b: Solve)
    ensures Compare(a, b, DateKey()) == 0 <==> a.date == b.date
  {
  }

  predicate ValidSession(map_: map<string, seq<Solve>>, name: Option<string>)
  {
    name.Some? && name.value != "" && name.value in map_
  }

  /** The copy of the named session's solves, or nothing for a missing or
      unknown name. */
  function SessionList(sessionMap: map<string, seq<Solve>>, name: Option<string>): seq<Solve>
  {
    if ValidSession(sessionMap, name) then sessionMap[name.value] else []
  }

  /** `setSession`: a missing or unknown name clears the table and the
      history; a known one shows a copy of its solves. Either way the table
      is re-sorted through `sortData` with the current column, the record
      filter goes back to "single", and the record history gets a copy
      sorted by date with its rolling bests. */
  method SetSession(v: View, name: Option<string>) returns (r: View)
    ensures r.sessionMap == v.sessionMap
    ensures r.currentSession == name && r.recordFilter == "single"
    ensures !ValidSession(v.sessionMap, name) ==> r.displayed == [] && r.history == []
    ensures ValidSession(v.sessionMap, name) ==>
              multiset(r.displayed) == multiset(v.sessionMap[name.value])
              && multiset(r.history) == multiset(v.sessionMap[name.value])
    ensures v.sort.column.None? || v.sort.column.value == "" ==> r.sort == v.sort
    ensures v.sort.column.Some? && v.sort.column.value != "" ==>
              r.sort == SortState(v.sort.column, !v.sort.ascending)
              && SortedBy(r.displayed, SolveKey(v.sort.column.value, r.sort.ascending))
              && forall y :: Ties(r.displayed, y, SolveKey(v.sort.column.value, r.sort.ascending))
                             == Ties(SessionList(v.sessionMap, name), y, SolveKey(v.sort.column.value, r.sort.ascending))
    ensures SortedBy(r.history, DateKey())
    ensures forall y :: Ties(r.history, y, DateKey()) == Ties(r.displayed, y, DateKey())
    ensures |r.bests.ao5| == |r.bests.ao12| == |r.bests.ao100| == |r.history|
    ensures |r.bests.bestSingle| == |r.bests.bestAo5| == |r.bests.bestAo12| == |r.bests.bestAo100| == |r.history|
    ensures IsRunningMin(r.bests.bestSingle, Singles(Times(r.history)))
    ensures IsRunningMin(r.bests.bestAo5, r.bests.ao5) && IsWindowSeries(r.bests.ao5, Times(r.history), 5)
    ensures IsRunningMin(r.bests.bestAo12, r.bests.ao12) && IsWindowSeries(r.bests.ao12, Times(r.history), 12)
    ensures IsRunningMin(r.bests.bestAo100, r.bests.ao100) && IsWindowSeries(r.bests.ao100, Times(r.history), 100)
  {
    var sessionSolves := SessionList(v.sessionMap, name);
    var sorted := ResortCurrent(sessionSolves, v.sort);
    SolveKeyUniform("date", true);
    var chrono := SortBy(sorted.solves, DateKey());
    var rolling := CalculateRollingAverages(chrono);
    r := View(v.sessionMap, name, sorted.solves, sorted.sort, "single", chrono, rolling);
  }

  /** Re-sorting through `sortData` with the column already sorted by counts
      as a second click on it, so every session switch flips the table's
      direction; after loading a file the date column, configured newest
      first, shows oldest first. */
  lemma SetSessionFlipsDirection(v: View, name: Option<string>)
    requires v.sort == SortState(Some(DefaultSortColumn), DefaultSortAscending)
    ensures ResortCurrent(if ValidSession(v.sessionMap, name) then v.sessionMap[name.value] else [], v.sort).sort
            == SortState(Some("date"), true)
  {
  }

  /** The evident intent: re-apply the current column and direction. */
  function ResortKeepingDirection(displayed: seq<Solve>, sort: SortState): (r: Sorted)
    ensures r.sort == sort
    ensures multiset(r.solves) == multiset(displayed)
    ensures sort.column.Some? && sort.column.value != "" ==>
              SortedBy(r.solves, SolveKey(sort.column.value, sort.ascending))
    ensures sort.column.None? || sort.column.value == "" ==> r.solves == displayed
    ensures sort.column.Some? && sort.column.value != "" ==>
              forall y :: Ties(r.solves, y, SolveKey(sort.column.value, sort.ascending))
                          == Ties(displayed, y, SolveKey(sort.column.value, sort.ascending))
  {
    if sort.column.Some? && sort.column.value != "" then
      SolveKeyUniform(sort.column.value, sort.ascending);
      Sorted(SortBy(displayed, SolveKey(sort.column.value, sort.ascending)), sort)
    else Sorted(displayed, sort)
  }

  /** `setSession` with the direction kept. */
  method SetSessionKeepingSort(v: View, name: Option<string>) returns (r: View)
    ensures r.sessionMap == v.sessionMap
    ensures r.currentSession == name && r.recordFilter == "single"
    ensures r.sort == v.sort
    ensures !ValidSession(v.sessionMap, name) ==> r.displayed == [] && r.history == []
    ensures ValidSession(v.sessionMap, name) ==>
              multiset(r.displayed) == multiset(v.sessionMap[name.value])
              && multiset(r.history) == multiset(v.sessionMap[name.value])
    ensures v.sort.column.Some? && v.sort.column.value != "" ==>
              SortedBy(r.displayed, SolveKey(v.sort.column.value, v.sort.ascending))
              && forall y :: Ties(r.displayed, y, SolveKey(v.sort.column.value, v.sort.ascending))
                             == Ties(SessionList(v.sessionMap, name), y, SolveKey(v.sort.column.value, v.sort.ascending))
    ensures SortedBy(r.history, DateKey())
    ensures forall y :: Ties(r.history, y, DateKey()) == Ties(r.displayed, y, DateKey())
    ensures |r.bests.ao5| == |r.bests.ao12| == |r.bests.ao100| == |r.history|
    ensures |r.bests.bestSingle| == |r.bests.bestAo5| == |r.bests.bestAo12| == |r.bests.bestAo100| == |r.history|
    ensures IsRunningMin(r.bests.bestSingle, Singles(Times(r.history)))
    ensures IsRunningMin(r.bests.bestAo5, r.bests.ao5) && IsWindowSeries(r.bests.ao5, Times(r.history), 5)
    ensures IsRunningMin(r.bests.bestAo12, r.bests.ao12) && IsWindowSeries(r.bests.ao12, Times(r.history), 12)
    ensures IsRunningMin(r.bests.bestAo100, r.bests.ao100) && IsWindowSeries(r.bests.ao100, Times(r.history), 100)
  {
    var sessionSolves := SessionList(v.sessionMap, name);
    var sorted := ResortKeepingDirection(sessionSolves, v.sort);
    SolveKeyUniform("date", true);
    var chrono := SortBy(sorted.solves, DateKey());
    var rolling := CalculateRollingAverages(chrono);
    r := View(v.sessionMap, name, sorted.solves, sorted.sort, "single", chrono, rolling);
  }
}

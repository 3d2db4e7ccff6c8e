/** Sorting of the solve table and of the average-detail table: the cell
    comparator (with DNF solves pinned last on the time column), the sort
    direction rules, and a stable sort that uses the comparator. */
module Table {
  import opened Common
  import opened Solves

  /** A cell as the comparator sees it: `null`/`undefined`, a number (dates
      are compared by their timestamp), a string or a boolean. */
  datatype Value = Missing | Num(n: int) | Text(s: string) | Flag(b: bool)

  /** `a[column]` for the fields of a solve record; any other name reads
      `undefined`. */
  function SolveColumn(s: Solve, column: string): Value
  {
    match column
    case "id" => Text(s.id)
    case "date" => Num(s.date)
    case "time" => Num(s.time)
    case "face_turns" => if s.faceTurns.Some? then Num(s.faceTurns.value) else Missing
    case "scramble" => Text(s.scramble)
    case "dnf" => Flag(s.dnf)
    case "totalRecognitionTime" => Num(s.totalRecognitionTime)
    case "totalExecutionTime" => if s.totalExecutionTime.Some? then Num(s.totalExecutionTime.value) else Missing
    case "session" => if s.session.Some? then Text(s.session.value) else Missing
    case _ => Missing
  }

  /** JavaScript's `<` on two cells of the same kind (`false < true`);
      cells of different kinds are never below each other. */
  predicate Below(a: Value, b: Value)
  {
    match (a, b)
    case (Num(x), Num(y)) => x < y
    case (Text(x), Text(y)) => StrLess(x, y)
    case (Flag(x), Flag(y)) => !x && y
    case _ => false
  }

  /** Two cells one column can hold together: the same kind, or a missing
      one. */
  predicate SameKind(a: Value, b: Value)
  {
    a.Missing? || b.Missing? || (a.Num? && b.Num?) || (a.Text? && b.Text?) || (a.Flag? && b.Flag?)
  }

  /** Every field of a solve has one kind, possibly missing. */
  lemma SolveColumnKinds(a: Solve, b: Solve, column: string)
    ensures SameKind(SolveColumn(a, column), SolveColumn(b, column))
  {
  }

  /** How a column is sorted: the cell reader, whether it is the time column
      (DNF solves pinned last) and the direction. */
  datatype Key<-R> = Key(cell: R -> Value, dnf: R -> bool, isTime: bool, ascending: bool)

  /** The comparator of `sortData` and `sortAverageTable` as written: a
      missing left cell answers "left first" (ascending) before the right
      cell is looked at, so two missing cells each claim to come first. */
  function CompareAsWritten<R>(a: R, b: R, key: Key<R>): int
  {
    if key.isTime && (key.dnf(a) || key.dnf(b)) then
      if key.dnf(a) && key.dnf(b) then 0 else if key.dnf(a) then 1 else -1
    else
      var factor := if key.ascending then 1 else -1;
      var va := key.cell(a);
      var vb := key.cell(b);
      if va.Missing? then -1 * factor
      else if vb.Missing? then 1 * factor
      else if Below(va, vb) then -1 * factor
      else if Below(vb, va) then 1 * factor
      else 0
  }

  /** The comparator with two missing cells treated as equal, which is what
      "missing is the lowest value" means. */
  function Compare<R>(a: R, b: R, key: Key<R>): (r: int)
    ensures -1 <= r <= 1
    ensures key.cell(a).Missing? && key.cell(b).Missing? && !(key.isTime && (key.dnf(a) || key.dnf(b))) ==> r == 0
    ensures !key.cell(a).Missing? || !key.cell(b).Missing? || (key.isTime && (key.dnf(a) || key.dnf(b))) ==>
              r == CompareAsWritten(a, b, key)
  {
    if !(key.isTime && (key.dnf(a) || key.dnf(b))) && key.cell(a).Missing? && key.cell(b).Missing? then 0
    else CompareAsWritten(a, b, key)
  }

  /** Two rows whose cells are both missing: the comparator as written puts
      each before the other, so `Array.prototype.sort` receives an
      inconsistent comparator and the order of such rows is left to the
      engine. */
  lemma AsWrittenNotAntisymmetric<R>(a: R, b: R, key: Key<R>)
    requires key.cell(a).Missing? && key.cell(b).Missing? && !key.isTime
    ensures CompareAsWritten(a, b, key) == CompareAsWritten(b, a, key) != 0
    ensures Compare(a, b, key) == 0 == Compare(b, a, key)
  {
  }

  /** Two solves without a face-turn count: the main table's comparator on
      the `face_turns` column claims each comes first. */
  lemma FaceTurnsCounterexample(a: Solve, b: Solve)
    requires a.faceTurns.None? && b.faceTurns.None?
    ensures var key := Key((s: Solve) => SolveColumn(s, "face_turns"), (s: Solve) => s.dnf, false, true);
            CompareAsWritten(a, b, key) < 0 && CompareAsWritten(b, a, key) < 0
  {
  }

  /** Swapping the rows flips the answer. */
  lemma CompareAntisymmetric<R>(a: R, b: R, key: Key<R>)
    ensures Compare(a, b, key) == -Compare(b, a, key)
  {
    var va := key.cell(a);
    var vb := key.cell(b);
    if va.Text? && vb.Text? {
      StrLessAsymmetric(va.s, vb.s);
    }
  }

  /** "Not after", for cells of one kind, ascending. */
  predicate NotAfter(a: Value, b: Value)
  {
    a.Missing? || (!b.Missing? && !Below(b, a))
  }

  /** Outside the DNF rule, the comparator orders by `NotAfter`, reversed
      when descending. */
  lemma CompareIsNotAfter<R>(a: R, b: R, key: Key<R>)
    requires !(key.isTime && (key.dnf(a) || key.dnf(b)))
    ensures key.ascending ==> (Compare(a, b, key) <= 0 <==> NotAfter(key.cell(a), key.cell(b)))
    ensures !key.ascending ==> (Compare(a, b, key) <= 0 <==> NotAfter(key.cell(b), key.cell(a)))
  {
    var va := key.cell(a);
    var vb := key.cell(b);
    if va.Text? && vb.Text? {
      StrLessAsymmetric(va.s, vb.s);
    }
  }

  lemma NotAfterTransitive(a: Value, b: Value, c: Value)
    requires SameKind(a, b) && SameKind(b, c) && SameKind(a, c)
    requires NotAfter(a, b) && NotAfter(b, c)
    ensures NotAfter(a, c)
  {
    if a.Text? && b.Text? && c.Text? {
      StrLessTotal(a.s, b.s);
      StrLessTotal(b.s, c.s);
      if StrLess(c.s, a.s) {
        if a.s != b.s {
          StrLessTransitive(c.s, a.s, b.s);
        }
      }
    }
  }

  /** The cells a key reads from a list of rows are of one kind. */
  predicate OneKind<R>(rows: seq<R>, key: Key<R>)
  {
    forall i, j :: 0 <= i < |rows| && 0 <= j < |rows| ==> SameKind(key.cell(rows[i]), key.cell(rows[j]))
  }

  /** On rows whose cells are of one kind, "not after" is transitive, in
      either direction and with the DNF rule. */
  lemma CompareTransitive<R>(a: R, b: R, c: R, key: Key<R>)
    requires SameKind(key.cell(a), key.cell(b)) && SameKind(key.cell(b), key.cell(c))
    requires SameKind(key.cell(a), key.cell(c))
    requires Compare(a, b, key) <= 0 && Compare(b, c, key) <= 0
    ensures Compare(a, c, key) <= 0
  {
    var t := key.isTime;
    if t && (key.dnf(a) || key.dnf(b) || key.dnf(c)) {
      // a DNF row is never before a finished one
    } else {
      CompareIsNotAfter(a, b, key);
      CompareIsNotAfter(b, c, key);
      CompareIsNotAfter(a, c, key);
      if key.ascending {
        NotAfterTransitive(key.cell(a), key.cell(b), key.cell(c));
      } else {
        NotAfterTransitive(key.cell(c), key.cell(b), key.cell(a));
      }
    }
  }

  /** Turning the direction around reverses every comparison outside the
      DNF rule. */
  lemma DescendingIsReversed<R>(a: R, b: R, key: Key<R>)
    requires !(key.isTime && (key.dnf(a) || key.dnf(b)))
    ensures Compare(a, b, key.(ascending := false)) == Compare(b, a, key.(ascending := true))
  {
    var va := key.cell(a);
    var vb := key.cell(b);
    if va.Text? && vb.Text? {
      StrLessAsymmetric(va.s, vb.s);
    }
  }

  /** On the time column a DNF solve is after every finished one whatever
      the direction. */
  lemma DnfLast<R>(a: R, b: R, key: Key<R>)
    requires key.isTime && key.dnf(a) && !key.dnf(b)
    ensures Compare(a, b, key) > 0 && Compare(b, a, key) < 0
  {
  }

  // ---------------------------------------------------------------------------
  // Sorting

  /** Each row is not after the next. */
  predicate SortedBy<R>(rows: seq<R>, key: Key<R>)
  {
    forall i :: 0 <= i < |rows| - 1 ==> Compare(rows[i], rows[i + 1], key) <= 0
  }

  /** Puts `x` before the first row it is not after. */
  function InsertBy<R>(x: R, rows: seq<R>, key: Key<R>): (r: seq<R>)
    requires SortedBy(rows, key)
    ensures SortedBy(r, key)
    ensures multiset(r) == multiset(rows) + multiset{x}
    ensures |r| == |rows| + 1
    ensures r[0] == x || (|rows| > 0 && r[0] == rows[0])
  {
    if |rows| == 0 then [x]
    else if Compare(x, rows[0], key) <= 0 then [x] + rows
    else
      var tail := InsertBy(x, rows[1..], key);
      CompareAntisymmetric(x, rows[0], key);
      assert rows == [rows[0]] + rows[1..];
      [rows[0]] + tail
  }

  /** The rows that tie with `x` under the key, in their order. */
  function Ties<R>(rows: seq<R>, x: R, key: Key<R>): seq<R>
  {
    if |rows| == 0 then []
    else (if Compare(rows[0], x, key) == 0 then [rows[0]] else []) + Ties(rows[1..], x, key)
  }

  lemma {:induction false} TiesConcat<R>(a: seq<R>, b: seq<R>, x: R, key: Key<R>)
    ensures Ties(a + b, x, key) == Ties(a, x, key) + Ties(b, x, key)
  {
    if |a| == 0 {
      assert a + b == b;
    } else {
      assert (a + b)[1..] == a[1..] + b;
      TiesConcat(a[1..], b, x, key);
    }
  }

  /** Every cell the key reads is of one kind, possibly missing; true of
      every column of a solve. */
  ghost predicate Uniform<R(!new)>(key: Key<R>)
  {
    forall a: R, b: R :: SameKind(key.cell(a), key.cell(b))
  }

  /** With cells of one kind, tying is transitive: two rows that tie with a
      third tie with each other. */
  lemma TieTransitive<R(!new)>(a: R, b: R, x: R, key: Key<R>)
    requires Uniform(key)
    ensures Compare(a, x, key) == 0 && Compare(b, x, key) == 0 ==> Compare(a, b, key) == 0
  {
    CompareAntisymmetric(a, x, key);
    CompareAntisymmetric(b, x, key);
    CompareAntisymmetric(a, b, key);
    if Compare(a, x, key) == 0 && Compare(b, x, key) == 0 {
      CompareTransitive(a, x, b, key);
      CompareTransitive(b, x, a, key);
    }
  }

  lemma TiesSingle<R>(z: R, y: R, key: Key<R>)
    ensures Ties([z], y, key) == if Compare(z, y, key) == 0 then [z] else []
  {
    assert [z][1..] == [];
  }

  /** Two rows that do not tie cannot both tie with `y`. */
  lemma TiesCommute<R(!new)>(x: R, head: R, y: R, key: Key<R>)
    requires Uniform(key) && Compare(x, head, key) != 0
    ensures Ties([head], y, key) + Ties([x], y, key) == Ties([x], y, key) + Ties([head], y, key)
  {
    TieTransitive(x, head, y, key);
    TiesSingle(x, y, key);
    TiesSingle(head, y, key);
  }

  /** A row that `x` passes over does not tie with `y` when `x` does, so
      passing it leaves the tied rows in order. */
  lemma InsertPastHead<R(!new)>(x: R, head: R, tail: seq<R>, inserted: seq<R>, y: R, key: Key<R>)
    requires Uniform(key) && Compare(x, head, key) > 0
    requires Ties(inserted, y, key) == Ties([x] + tail, y, key)
    ensures Ties([head] + inserted, y, key) == Ties([x] + ([head] + tail), y, key)
  {
    var tx, th, tt := Ties([x], y, key), Ties([head], y, key), Ties(tail, y, key);
    assert Ties([head] + inserted, y, key) == th + (tx + tt) by {
      TiesConcat([head], inserted, y, key);
      TiesConcat([x], tail, y, key);
    }
    assert Ties([x] + ([head] + tail), y, key) == tx + (th + tt) by {
      TiesConcat([x], [head] + tail, y, key);
      TiesConcat([head], tail, y, key);
    }
    TiesCommute(x, head, y, key);
    SwapFront(tx, th, tt);
  }

  lemma SwapFront<T>(a: seq<T>, b: seq<T>, c: seq<T>)
    requires b + a == a + b
    ensures b + (a + c) == a + (b + c)
  {
    assert b + (a + c) == (b + a) + c;
    assert a + (b + c) == (a + b) + c;
  }

  /** Inserting puts `x` before every row it ties with, so the tied rows keep
      the order of `[x] + rows`. */
  lemma {:induction false} InsertByStable<R(!new)>(x: R, rows: seq<R>, y: R, key: Key<R>)
    requires SortedBy(rows, key) && Uniform(key)
    ensures Ties(InsertBy(x, rows, key), y, key) == Ties([x] + rows, y, key)
  {
    if |rows| > 0 && Compare(x, rows[0], key) > 0 {
      var head, tail := rows[0], rows[1..];
      assert rows == [head] + tail;
      assert SortedBy(tail, key) by {
        assert forall i :: 0 <= i < |tail| ==> tail[i] == rows[i + 1];
      }
      InsertByStable(x, tail, y, key);
      assert InsertBy(x, rows, key) == [head] + InsertBy(x, tail, key);
      InsertPastHead(x, head, tail, InsertBy(x, tail, key), y, key);
    } else {
      assert InsertBy(x, rows, key) == [x] + rows;
    }
  }

  lemma InsertKeepsTies<R(!new)>(x: R, tail: seq<R>, sorted: seq<R>, key: Key<R>)
    requires SortedBy(sorted, key)
    ensures Uniform(key) && (forall y :: Ties(sorted, y, key) == Ties(tail, y, key)) ==>
              forall y :: Ties(InsertBy(x, sorted, key), y, key) == Ties([x] + tail, y, key)
  {
    if Uniform(key) && (forall y :: Ties(sorted, y, key) == Ties(tail, y, key)) {
      forall y ensures Ties(InsertBy(x, sorted, key), y, key) == Ties([x] + tail, y, key) {
        InsertByStable(x, sorted, y, key);
        TiesConcat([x], sorted, y, key);
        TiesConcat([x], tail, y, key);
      }
    }
  }

  /** The sort used by both tables: a stable insertion sort. Rows that tie
      keep their input order, as `Array.prototype.sort` guarantees. */
  function SortBy<R(!new)>(rows: seq<R>, key: Key<R>): (r: seq<R>)
    ensures SortedBy(r, key)
    ensures multiset(r) == multiset(rows)
    ensures |r| == |rows|
    ensures Uniform(key) ==> forall y :: Ties(r, y, key) == Ties(rows, y, key)
  {
    if |rows| == 0 then []
    else
      assert rows == [rows[0]] + rows[1..];
      var sorted := SortBy(rows[1..], key);
      InsertKeepsTies(rows[0], rows[1..], sorted, key);
      InsertBy(rows[0], sorted, key)
  }

  /** With a transitive comparison, a list whose neighbours are in order is
      in order everywhere. */
  lemma {:induction false} SortedEverywhere<R>(rows: seq<R>, key: Key<R>, i: nat, j: nat)
    requires SortedBy(rows, key) && OneKind(rows, key)
    requires i <= j < |rows|
    ensures Compare(rows[i], rows[j], key) <= 0
    decreases j - i
  {
    if i == j {
      CompareAntisymmetric(rows[i], rows[i], key);
    } else {
      SortedEverywhere(rows, key, i + 1, j);
      CompareTransitive(rows[i], rows[i + 1], rows[j], key);
    }
  }

  // ---------------------------------------------------------------------------
  // Main table (sortData)

  /** `currentSort`: the column last sorted by (`None` before any) and its
      direction. */
  datatype SortState = SortState(column: Option<string>, ascending: bool)

  const DefaultSortColumn: string := "date"
  const DefaultSortAscending: bool := false

  /** The direction of a click: the same column flips, a new column starts
      ascending except the date, which starts newest first. */
  function NextDirection(current: SortState, column: string): (r: bool)
    ensures current.column == Some(column) ==> r == !current.ascending
    ensures current.column != Some(column) ==> (r <==> column != DefaultSortColumn)
  {
    if current.column == Some(column) then !current.ascending
    else if column == "date" then DefaultSortAscending else true
  }

  function SolveKey(column: string, ascending: bool): Key<Solve>
  {
    Key((s: Solve) => SolveColumn(s, column), (s: Solve) => s.dnf, column == "time", ascending)
  }

  /** Every column of a solve holds one kind of value. */
  lemma SolveKeyUniform(column: string, ascending: bool)
    ensures Uniform(SolveKey(column, ascending))
  {
    forall a: Solve, b: Solve
      ensures SameKind(SolveKey(column, ascending).cell(a), SolveKey(column, ascending).cell(b))
    {
      SolveColumnKinds(a, b, column);
    }
  }

  datatype Sorted = Sorted(solves: seq<Solve>, sort: SortState)

  /** `sortData`: an empty column name changes nothing; otherwise the
      displayed solves are reordered by the column and the new direction is
      remembered. */
  function SortData(displayed: seq<Solve>, current: SortState, column: string): (r: Sorted)
    ensures column == "" ==> r == Sorted(displayed, current)
    ensures column != "" ==> r.sort == SortState(Some(column), NextDirection(current, column))
    ensures multiset(r.solves) == multiset(displayed)
    ensures column != "" ==> SortedBy(r.solves, SolveKey(column, r.sort.ascending))
    ensures column != "" ==>
              forall y :: Ties(r.solves, y, SolveKey(column, r.sort.ascending))
                          == Ties(displayed, y, SolveKey(column, r.sort.ascending))
  {
    if column == "" then Sorted(displayed, current)
    else
      var ascending := NextDirection(current, column);
      SolveKeyUniform(column, ascending);
      Sorted(SortBy(displayed, SolveKey(column, ascending)), SortState(Some(column), ascending))
  }

  /** Sorting by a column leaves every pair of solves in order, not only
      neighbours. */
  lemma SortDataOrdersAllPairs(displayed: seq<Solve>, current: SortState, column: string, i: nat, j: nat)
    requires column != ""
    requires i <= j < |displayed|
    ensures var r := SortData(displayed, current, column);
            Compare(r.solves[i], r.solves[j], SolveKey(column, r.sort.ascending)) <= 0
  {
    var r := SortData(displayed, current, column);
    var key := SolveKey(column, r.sort.ascending);
    forall a, b | 0 <= a < |r.solves| && 0 <= b < |r.solves|
      ensures SameKind(key.cell(r.solves[a]), key.cell(r.solves[b]))
    {
      SolveColumnKinds(r.solves[a], r.solves[b], column);
    }
    SortedEverywhere(r.solves, key, i, j);
  }

  /** Clicking the same column twice restores the direction. */
  lemma ClickTwiceRestores(displayed: seq<Solve>, current: SortState, column: string)
    requires column != "" && current.column == Some(column)
    ensures var once := SortData(displayed, current, column);
            SortData(once.solves, once.sort, column).sort == current
  {
  }

  /** On the time column every finished solve comes before every DNF solve,
      in both directions. */
  lemma SortByTimeDnfLast(displayed: seq<Solve>, current: SortState, i: nat, j: nat)
    requires i < j < |displayed|
    ensures var r := SortData(displayed, current, "time");
            !(r.solves[i].dnf && !r.solves[j].dnf)
  {
    var r := SortData(displayed, current, "time");
    SortDataOrdersAllPairs(displayed, current, "time", i, j);
  }
}

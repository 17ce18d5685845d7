/** The mark table of plot_semestr_data: a table whose rows are marks and
    whose columns are departments is turned into, for each department, the
    map from mark to the number of students who got it. */
module SemestrMarks {
  import opened Base
  import opened Text

  /** The column that holds a row's mark. */
  const MARK := "Оценка"

  /** One parsed line of the table: column name to cell text. */
  type Row = map<string, string>
  /** d[department][mark] */
  type Pivot = map<string, map<string, int>>

  /** Why process_data raises: data[0] of an empty table (IndexError), a row
      without the mark column (KeyError), or a cell of a row that names no
      department of the first row or is not a number (KeyError or
      ValueError, whichever cell the dict order reaches first). */
  datatype PivotError = NoRows | MissingMark(row: nat) | BadCell(row: nat)

  /** The departments: the first row's columns other than MARK. */
  function Departments(first: Row): (ds: set<string>)
    ensures MARK !in ds
    ensures forall c :: c in ds <==> c in first && c != MARK
  {
    first.Keys - {MARK}
  }

  /** The row has a cell the inner loop fails on. */
  predicate HasBadCell(keys: set<string>, r: Row) {
    exists c :: c in r && c != MARK && (c !in keys || ParseInt(r[c]).Err?)
  }

  /** int(count) where the cell is known to be a number. */
  function CellValue(count: string): int {
    match ParseInt(count)
    case Ok(v) => v
    case Err(_) => 0
  }

  /** d after every cell of r outside `pending` has been stored under `mark`. */
  function Stored(d: Pivot, r: Row, mark: string, pending: set<string>): Pivot {
    map dep | dep in d :: StoredAt(d, r, mark, pending, dep)
  }

  function StoredAt(d: Pivot, r: Row, mark: string, pending: set<string>, dep: string): map<string, int>
    requires dep in d
  {
    if dep in r && dep !in pending && dep != MARK then d[dep][mark := CellValue(r[dep])] else d[dep]
  }

  /** One pass of the outer loop over row i. */
  function RowUpdate(d: Pivot, r: Row, i: nat): Result<Pivot, PivotError> {
    if MARK !in r then Err(MissingMark(i))
    else if HasBadCell(d.Keys, r) then Err(BadCell(i))
    else Ok(Stored(d, r, r[MARK], {}))
  }

  /** The state after the rows 1 .. k - 1 (the first row only names the columns). */
  function PivotUpTo(data: seq<Row>, k: nat): Result<Pivot, PivotError>
    requires 1 <= k <= |data|
  {
    if k == 1 then Ok(map dep | dep in Departments(data[0]) :: map[])
    else
      var d :- PivotUpTo(data, k - 1);
      RowUpdate(d, data[k - 1], k - 1)
  }

  /** process_data(csv_path) on the parsed rows, as a function. */
  function ProcessSpec(data: seq<Row>): Result<Pivot, PivotError> {
    if data == [] then Err(NoRows) else PivotUpTo(data, |data|)
  }

  /** process_data without the file reading: the comprehension over the
      first row's columns, then the loop over the remaining rows. */
  method ProcessData(data: seq<Row>) returns (res: Result<Pivot, PivotError>)
    ensures res == ProcessSpec(data)
  {
    if |data| == 0 {
      return Err(NoRows);
    }
    var d: Pivot := map dep | dep in data[0].Keys && dep != MARK :: map[];
    assert d == map dep | dep in Departments(data[0]) :: map[];
    var i := 1;
    while i < |data|
      invariant 1 <= i <= |data|
      invariant PivotUpTo(data, i) == Ok(d)
    {
      var next := ApplyRow(d, data[i], i);
      if next.Err? {
        PivotErrPersists(data, i + 1, |data|);
        return next;
      }
      d := next.value;
      i := i + 1;
    }
    res := Ok(d);
  }

  /** The body of the outer loop: read the row's mark, then store every
      other cell under its department and that mark. */
  method ApplyRow(d0: Pivot, r: Row, i: nat) returns (res: Result<Pivot, PivotError>)
    ensures res == RowUpdate(d0, r, i)
  {
    if MARK !in r {
      return Err(MissingMark(i));
    }
    var d := StoreCells(d0, r, r[MARK]);
    if d.None? {
      return Err(BadCell(i));
    }
    NoBadCell(d0.Keys, r);
    res := Ok(d.value);
  }

  /** The inner loop over the cells of a row whose mark is mark: None when
      it raises, else the pivot with every cell stored. */
  method StoreCells(d0: Pivot, r: Row, mark: string) returns (res: Option<Pivot>)
    ensures res.None? ==> HasBadCell(d0.Keys, r)
    ensures res.Some? ==> res.value == Stored(d0, r, mark, {})
                          && forall c :: c in r ==> GoodCell(d0.Keys, r, c)
  {
    var d := d0;
    var todo := r.Keys;
    while todo != {}
      invariant todo <= r.Keys
      invariant forall c :: c in r && c !in todo ==> GoodCell(d0.Keys, r, c)
      invariant d.Keys == d0.Keys
      invariant forall dep :: dep in d ==> d[dep] == StoredAt(d0, r, mark, todo, dep)
      decreases |todo|
    {
      var department :| department in todo;
      if department != MARK {
        if department !in d {
          return None;
        }
        var count := ParseInt(r[department]);
        if count.Err? {
          return None;
        }
        d := d[department := d[department][mark := count.value]];
      }
      todo := todo - {department};
    }
    assert d == Stored(d0, r, mark, {});
    res := Some(d);
  }

  /** The cell of column c passes the inner loop. */
  predicate GoodCell(keys: set<string>, r: Row, c: string)
    requires c in r
  {
    c != MARK ==> c in keys && ParseInt(r[c]).Ok?
  }

  lemma NoBadCell(keys: set<string>, r: Row)
    requires forall c :: c in r ==> GoodCell(keys, r, c)
    ensures !HasBadCell(keys, r)
  {
  }

  /** An exception stops the loop: once the state after k rows is an error,
      so is the state after any later row, with the same error. */
  lemma {:induction false} PivotErrPersists(data: seq<Row>, k: nat, m: nat)
    requires 1 <= k <= m <= |data| && PivotUpTo(data, k).Err?
    ensures PivotUpTo(data, m) == PivotUpTo(data, k)
    decreases m
  {
    if m > k {
      PivotErrPersists(data, k, m - 1);
    }
  }

  /** The departments never change: MARK is never one of them. */
  lemma {:induction false} PivotKeys(data: seq<Row>, k: nat)
    requires 1 <= k <= |data| && PivotUpTo(data, k).Ok?
    ensures PivotUpTo(data, k).value.Keys == Departments(data[0])
    decreases k
  {
    if k > 1 {
      PivotKeys(data, k - 1);
    }
  }

  /** Row j counts for (dep, mark): it has that mark and a cell for dep. */
  ghost predicate Names(r: Row, dep: string, mark: string) {
    MARK in r && r[MARK] == mark && dep in r
  }

  /** The last row before k, after the first, that names (dep, mark). */
  ghost function LastWith(data: seq<Row>, k: nat, dep: string, mark: string): (j: Option<nat>)
    requires k <= |data|
    ensures j.Some? ==> 1 <= j.value < k && Names(data[j.value], dep, mark)
                        && forall i :: j.value < i < k ==> !Names(data[i], dep, mark)
    ensures j.None? ==> forall i :: 1 <= i < k ==> !Names(data[i], dep, mark)
    decreases k
  {
    if k <= 1 then None
    else if Names(data[k - 1], dep, mark) then Some(k - 1)
    else LastWith(data, k - 1, dep, mark)
  }

  /** d[dep] holds exactly the marks of the contributing rows that have a
      cell for dep, and each value is the number in the last such row: a
      later row with the same mark overwrites an earlier one. */
  lemma {:induction false} PivotCells(data: seq<Row>, k: nat)
    requires 1 <= k <= |data| && PivotUpTo(data, k).Ok?
    ensures var d := PivotUpTo(data, k).value;
      forall dep, mark :: dep in d ==>
        && (mark in d[dep] <==> LastWith(data, k, dep, mark).Some?)
        && (mark in d[dep] ==> Ok(d[dep][mark]) == ParseInt(data[LastWith(data, k, dep, mark).value][dep]))
    decreases k
  {
    if k > 1 {
      PivotCells(data, k - 1);
      PivotKeys(data, k - 1);
    }
  }

  /** The table is accepted exactly when it has a row and every later row
      has a mark and only number cells under departments of the first row. */
  lemma {:induction false} PivotOkIff(data: seq<Row>, k: nat)
    requires 1 <= k <= |data|
    ensures PivotUpTo(data, k).Ok? <==>
              forall i :: 1 <= i < k ==> MARK in data[i] && !HasBadCell(Departments(data[0]), data[i])
    decreases k
  {
    if k > 1 {
      PivotOkIff(data, k - 1);
      if PivotUpTo(data, k - 1).Ok? {
        PivotKeys(data, k - 1);
      }
    }
  }

  /** Only the column names of the first row matter; its cells are never read. */
  lemma {:induction false} FirstRowCellsIgnored(data: seq<Row>, first: Row, k: nat)
    requires 1 <= k <= |data| && first.Keys == data[0].Keys
    ensures PivotUpTo([first] + data[1..], k) == PivotUpTo(data, k)
    decreases k
  {
    var other := [first] + data[1..];
    assert Departments(first) == Departments(data[0]);
    if k > 1 {
      FirstRowCellsIgnored(data, first, k - 1);
      assert other[k - 1] == data[k - 1];
    }
  }
}

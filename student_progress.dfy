/** The per-login progress count of ej_student_progress: for every login of
    a configured range, how many distinct listed tasks it has solved, and a
    second, group-wise filter of the same run dump. */
module StudentProgress {
  import opened Base
  import opened ContestData

  /** r['User_Login'], r['Prob'], r['Stat_Short'], read in that order. */
  function RunFields(r: Row): (f: Result<(string, string, string), PyError>)
    ensures f.Ok? <==> LOGIN in r && PROB in r && STATUS in r
    ensures f.Ok? ==> f.value == (r[LOGIN], r[PROB], r[STATUS])
    ensures f.Err? ==> f.error == KeyError(if LOGIN !in r then LOGIN else if PROB !in r then PROB else STATUS)
  {
    var login :- Field(r, LOGIN);
    var prob :- Field(r, PROB);
    var status :- Field(r, STATUS);
    Ok((login, prob, status))
  }

  // ---- fiter_data ----

  /** fiter_data as the file has it: the loop reads the three fields of the
      first run and then calls extract_group, a name the file neither defines
      nor imports (nor prefix, group_name_len, enroll and count). */
  function FilterAsWritten(runs: seq<Row>): (r: Result<(Matrix, map<string, nat>), PyError>)
    ensures r.Ok? <==> runs == []
  {
    if runs == [] then Ok((map[], map[]))
    else
      var _ :- RunFields(runs[0]);
      Err(NameError("extract_group"))
  }

  /** Any dump whose first run has its fields makes the function raise. */
  lemma AsWrittenRaisesNameError(r: Row, rest: seq<Row>)
    requires LOGIN in r && PROB in r && STATUS in r
    ensures FilterAsWritten([r] + rest) == Err(NameError("extract_group"))
  {
  }

  /** The loop state after the runs, with the login prefix and group length
      that the function evidently means to pass to extract_group. */
  function ProgressFold(prefix: string, groupLen: nat, counted: string, runs: seq<Row>): Result<(Matrix, Enrolment), PyError>
    decreases |runs|
  {
    if runs == [] then Ok((map[], map[]))
    else
      var st :- ProgressFold(prefix, groupLen, counted, runs[..|runs| - 1]);
      var f :- RunFields(runs[|runs| - 1]);
      var g := ExtractGroup(prefix, groupLen, f.0);
      if g.None? then Ok(st)
      else
        var d1 := if f.2 == counted then Count(st.0, g.value, f.1) else st.0;
        Ok((d1, Enroll(st.1, f.0, g.value)))
  }

  function ProgressSpec(prefix: string, groupLen: nat, counted: string, runs: seq<Row>): Result<(Matrix, map<string, nat>), PyError> {
    var st :- ProgressFold(prefix, groupLen, counted, runs);
    Ok((st.0, map g | g in st.1 :: |st.1[g]|))
  }

  /** fiter_data(runs, ..., counted_status) with the group extraction made
      explicit: every run whose login carries a group is enrolled, and it is
      counted when its status is the counted one. */
  method FilterProgress(prefix: string, groupLen: nat, runs: seq<Row>, counted: string)
    returns (res: Result<(Matrix, map<string, nat>), PyError>)
    ensures res == ProgressSpec(prefix, groupLen, counted, runs)
  {
    var d1: Matrix := map[];
    var total: Enrolment := map[];
    var i := 0;
    while i < |runs|
      invariant 0 <= i <= |runs|
      invariant ProgressFold(prefix, groupLen, counted, runs[..i]) == Ok((d1, total))
    {
      assert runs[..i + 1][..i] == runs[..i];
      var f := RunFields(runs[i]);
      if f.Err? {
        ProgressErrPersists(prefix, groupLen, counted, runs, i + 1);
        return Err(f.error);
      }
      var (login, prob, result) := f.value;
      var group := ExtractGroup(prefix, groupLen, login);
      if group.Some? {
        total := Enroll(total, login, group.value);
        if result == counted {
          d1 := Count(d1, group.value, prob);
        }
      }
      i := i + 1;
    }
    assert runs[..|runs|] == runs;
    res := Ok((d1, map g | g in total :: |total[g]|));
  }

  lemma {:induction false} ProgressErrPersists(prefix: string, groupLen: nat, counted: string, runs: seq<Row>, k: nat)
    requires k <= |runs| && ProgressFold(prefix, groupLen, counted, runs[..k]).Err?
    ensures ProgressFold(prefix, groupLen, counted, runs) == ProgressFold(prefix, groupLen, counted, runs[..k])
    decreases |runs|
  {
    if k == |runs| {
      assert runs[..k] == runs;
    } else {
      var prefixRuns := runs[..|runs| - 1];
      assert prefixRuns[..k] == runs[..k];
      ProgressErrPersists(prefix, groupLen, counted, prefixRuns, k);
    }
  }

  /** The group a run's login carries, if it has the fields to read. */
  ghost function GroupOf(prefix: string, groupLen: nat, r: Row): Option<string> {
    if LOGIN in r then ExtractGroup(prefix, groupLen, r[LOGIN]) else None
  }

  /** The logins of the runs whose login carries group g, whatever the status. */
  ghost function Members(prefix: string, groupLen: nat, runs: seq<Row>, g: string): set<string>
    decreases |runs|
  {
    if runs == [] then {}
    else
      var r := runs[|runs| - 1];
      Members(prefix, groupLen, runs[..|runs| - 1], g)
      + (if GroupOf(prefix, groupLen, r) == Some(g) then {r[LOGIN]} else {})
  }

  /** The runs for problem p whose login carries group g and whose status is the counted one. */
  ghost function GroupSolves(prefix: string, groupLen: nat, counted: string, runs: seq<Row>, g: string, p: string): nat
    decreases |runs|
  {
    if runs == [] then 0
    else
      var r := runs[|runs| - 1];
      GroupSolves(prefix, groupLen, counted, runs[..|runs| - 1], g, p)
      + (if GroupOf(prefix, groupLen, r) == Some(g) && PROB in r && STATUS in r
            && r[PROB] == p && r[STATUS] == counted then 1 else 0)
  }

  /** The filter raises exactly when some run lacks one of its three fields. */
  lemma {:induction false} ProgressOkIff(prefix: string, groupLen: nat, counted: string, runs: seq<Row>)
    ensures ProgressFold(prefix, groupLen, counted, runs).Ok?
            <==> forall i :: 0 <= i < |runs| ==> LOGIN in runs[i] && PROB in runs[i] && STATUS in runs[i]
    decreases |runs|
  {
    if runs != [] {
      var prefixRuns := runs[..|runs| - 1];
      ProgressOkIff(prefix, groupLen, counted, prefixRuns);
      assert forall i :: 0 <= i < |prefixRuns| ==> prefixRuns[i] == runs[i];
    }
  }

  /** The group sizes count every distinct login whose login carries the
      group, whatever its status; d1[g][p] counts the runs for p in g with
      the counted status, and no zero cell is stored. */
  lemma {:induction false} ProgressMeaning(prefix: string, groupLen: nat, counted: string, runs: seq<Row>)
    requires ProgressFold(prefix, groupLen, counted, runs).Ok?
    ensures var (d1, total) := ProgressFold(prefix, groupLen, counted, runs).value;
      && NoZeros(d1)
      && (forall g, p :: Cell(d1, g, p) == GroupSolves(prefix, groupLen, counted, runs, g, p))
      && (forall g :: g in total <==> Members(prefix, groupLen, runs, g) != {})
      && (forall g :: g in total ==> total[g] == Members(prefix, groupLen, runs, g))
    decreases |runs|
  {
    if runs != [] {
      var prefixRuns := runs[..|runs| - 1];
      assert ProgressFold(prefix, groupLen, counted, prefixRuns).Ok?;
      ProgressMeaning(prefix, groupLen, counted, prefixRuns);
    }
  }

  /** The returned group sizes, in terms of the runs alone. */
  lemma GroupNumbers(prefix: string, groupLen: nat, counted: string, runs: seq<Row>)
    requires ProgressSpec(prefix, groupLen, counted, runs).Ok?
    ensures var sizes := ProgressSpec(prefix, groupLen, counted, runs).value.1;
      forall g :: (g in sizes <==> Members(prefix, groupLen, runs, g) != {})
                  && (g in sizes ==> sizes[g] == |Members(prefix, groupLen, runs, g)|)
  {
    ProgressMeaning(prefix, groupLen, counted, runs);
  }

  // ---- parse_config: the login list ----

  /** [login_format.format(x) for x in range(login_first, login_last + 1)],
      with the formatting as a given function of the integer. */
  function LoginList(format: int -> string, first: int, last: int): (r: seq<string>)
    ensures |r| == if last < first then 0 else last - first + 1
    ensures forall i :: 0 <= i < |r| ==> r[i] == format(first + i)
  {
    seq(if last < first then 0 else last - first + 1, i => format(first + i))
  }

  ghost predicate Injective(format: int -> string) {
    forall x, y :: x != y ==> format(x) != format(y)
  }

  /** A login is in the list exactly when it is the format of an integer of
      the inclusive range, and an injective format gives distinct logins. */
  lemma LoginListMembers(format: int -> string, first: int, last: int)
    ensures forall l :: l in LoginList(format, first, last) <==> exists x :: first <= x <= last && format(x) == l
    ensures Injective(format) ==>
              forall i, j :: 0 <= i < j < |LoginList(format, first, last)| ==>
                LoginList(format, first, last)[i] != LoginList(format, first, last)[j]
  {
    var r := LoginList(format, first, last);
    forall l | exists x :: first <= x <= last && format(x) == l
      ensures l in r
    {
      var x :| first <= x <= last && format(x) == l;
      assert r[x - first] == l;
    }
  }

  // ---- get_data_from_runs ----

  /** A cell of the output table. */
  datatype TableCell = Text(text: string) | Num(n: nat)

  /** A two-cell row of the output table; `last` is the cell row[-1] names. */
  datatype TableRow = TableRow(first: TableCell, last: TableCell)

  /** The run holds an OK result for a listed task. */
  ghost predicate IsCounted(r: Row, tasks: seq<string>) {
    LOGIN in r && PROB in r && STATUS in r && r[STATUS] == "OK" && r[PROB] in tasks
  }

  /** The distinct listed tasks the login has an OK run for. */
  ghost function SolvedBy(runs: seq<Row>, tasks: seq<string>, login: string): set<string>
    decreases |runs|
  {
    if runs == [] then {}
    else
      var r := runs[|runs| - 1];
      SolvedBy(runs[..|runs| - 1], tasks, login)
      + (if IsCounted(r, tasks) && r[LOGIN] == login then {r[PROB]} else {})
  }

  /** i is the first run that lacks a field. */
  ghost predicate FirstBadRun(runs: seq<Row>, i: int) {
    0 <= i < |runs| && RunFields(runs[i]).Err?
    && forall j :: 0 <= j < i ==> RunFields(runs[j]).Ok?
  }

  /** d.get(login, {}) */
  function Get(d: map<string, set<string>>, login: string): set<string> {
    if login in d then d[login] else {}
  }

  lemma SolvedStep(runs: seq<Row>, tasks: seq<string>, i: nat)
    requires i < |runs|
    ensures forall l :: SolvedBy(runs[..i + 1], tasks, l)
                        == SolvedBy(runs[..i], tasks, l)
                           + (if IsCounted(runs[i], tasks) && runs[i][LOGIN] == l then {runs[i][PROB]} else {})
  {
    assert runs[..i + 1][..i] == runs[..i];
  }

  /** The loop of get_data_from_runs over the runs: d[login] is the set of
      listed tasks the login has an OK run for; a run without one of its
      three fields raises KeyError. */
  method CollectSolved(runs: seq<Row>, taskList: seq<string>) returns (res: Result<map<string, set<string>>, PyError>)
    ensures res.Err? <==> exists i :: 0 <= i < |runs| && RunFields(runs[i]).Err?
    ensures res.Err? ==> exists i :: FirstBadRun(runs, i) && res.error == RunFields(runs[i]).error
    ensures res.Ok? ==> forall l :: Get(res.value, l) == SolvedBy(runs, taskList, l)
  {
    var d: map<string, set<string>> := map[];
    var i := 0;
    while i < |runs|
      invariant 0 <= i <= |runs|
      invariant forall j :: 0 <= j < i ==> RunFields(runs[j]).Ok?
      invariant forall l :: Get(d, l) == SolvedBy(runs[..i], taskList, l)
    {
      SolvedStep(runs, taskList, i);
      var f := RunFields(runs[i]);
      if f.Err? {
        assert FirstBadRun(runs, i);
        return Err(f.error);
      }
      var (login, prob, result) := f.value;
      ghost var d0 := d;
      if result == "OK" && prob in taskList {
        if login in d {
          d := d[login := d[login] + {prob}];
        } else {
          d := d[login := {prob}];
        }
      }
      forall l
        ensures Get(d, l) == SolvedBy(runs[..i + 1], taskList, l)
      {
        if result == "OK" && prob in taskList && l == login {
          assert Get(d, l) == Get(d0, l) + {prob};
        } else {
          assert Get(d, l) == Get(d0, l);
        }
      }
      i := i + 1;
    }
    assert runs[..|runs|] == runs;
    res := Ok(d);
  }

  /** get_data_from_runs without the file output: a header row, then one row
      per listed login, in list order, holding the number of distinct listed
      tasks it has an OK run for; logins that are not listed get no row. */
  method GetDataFromRuns(timestamp: string, runs: seq<Row>, loginList: seq<string>, taskList: seq<string>)
    returns (res: Result<seq<TableRow>, PyError>)
    ensures res.Err? <==> exists i :: 0 <= i < |runs| && RunFields(runs[i]).Err?
    ensures res.Err? ==> exists i :: FirstBadRun(runs, i) && res.error == RunFields(runs[i]).error
    ensures res.Ok? ==>
              && |res.value| == |loginList| + 1
              && res.value[0] == TableRow(Text("login"), Text(timestamp))
              && forall k :: 0 <= k < |loginList| ==>
                   res.value[k + 1] == TableRow(Text(loginList[k]), Num(|SolvedBy(runs, taskList, loginList[k])|))
  {
    var solved := CollectSolved(runs, taskList);
    if solved.Err? {
      return Err(solved.error);
    }
    var table := FillTable(timestamp, loginList, solved.value);
    res := Ok(table);
  }

  /** The table of get_data_from_runs: the header row and a zero row per
      login are built first, then each row's last cell is overwritten with
      the number of tasks d holds for its login. */
  method FillTable(timestamp: string, loginList: seq<string>, d: map<string, set<string>>) returns (table: seq<TableRow>)
    ensures |table| == |loginList| + 1
    ensures table[0] == TableRow(Text("login"), Text(timestamp))
    ensures forall k :: 0 <= k < |loginList| ==> table[k + 1] == TableRow(Text(loginList[k]), Num(|Get(d, loginList[k])|))
  {
    var data := new TableRow[|loginList| + 1](
      i => if i < 1 || i > |loginList| then TableRow(Text("login"), Text(timestamp)) else TableRow(Text(loginList[i - 1]), Num(0)));
    var k := 1;
    while k < data.Length
      invariant 1 <= k <= data.Length
      invariant data[0] == TableRow(Text("login"), Text(timestamp))
      invariant forall j :: 1 <= j < k ==> data[j] == TableRow(Text(loginList[j - 1]), Num(|Get(d, loginList[j - 1])|))
      invariant forall j :: k <= j < data.Length ==> data[j] == TableRow(Text(loginList[j - 1]), Num(0))
    {
      var row := data[k];
      var n := if row.first.Text? then |Get(d, row.first.text)| else 0;
      data[k] := row.(last := Num(n));
      k := k + 1;
    }
    table := data[..];
  }


  /** Another OK run for a task the login has already solved changes no count. */
  lemma RepeatedSolveCountsOnce(runs: seq<Row>, tasks: seq<string>, r: Row)
    requires IsCounted(r, tasks) && r[PROB] in SolvedBy(runs, tasks, r[LOGIN])
    ensures forall l :: SolvedBy(runs + [r], tasks, l) == SolvedBy(runs, tasks, l)
  {
    assert (runs + [r])[..|runs|] == runs;
  }

  /** Only listed tasks are counted, so no count exceeds the number of listed tasks. */
  lemma {:induction false} SolvedWithinTasks(runs: seq<Row>, tasks: seq<string>, login: string)
    ensures SolvedBy(runs, tasks, login) <= set t | t in tasks
    decreases |runs|
  {
    if runs != [] {
      SolvedWithinTasks(runs[..|runs| - 1], tasks, login);
    }
  }
}

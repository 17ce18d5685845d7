/** The run filter of ej_plot_contest: every run of the judge's dump is given
    a group (from the roster, the Group column or the login), runs without a
    usable group or with another status are dropped, the remaining logins are
    enrolled in their group, and the accepted run is counted in the
    group x problem matrix, optionally only inside a contest window that
    opens at the first such run. */
module ContestData {
  import opened Base
  import opened Text

  /** d1[group][problem]: counted runs per group and problem. */
  type Matrix = map<string, map<string, nat>>
  /** total[group]: the distinct logins enrolled in the group. */
  type Enrolment = map<string, set<string>>
  /** One parsed line of the run dump: column name to cell text. */
  type Row = map<string, string>

  const LOGIN := "User_Login"
  const PROB := "Prob"
  const STATUS := "Stat_Short"
  const TIME := "Time"
  const GROUP := "Group"
  /** The group code that means "no group". */
  const NO_GROUP := "0"

  /** d[g].get(p, 0), with a missing group read as an empty row. */
  function Cell(d: Matrix, g: string, p: string): nat {
    if g in d && p in d[g] then d[g][p] else 0
  }

  /** Every stored row is non-empty and every stored count positive: the
      matrix holds exactly the cells that were counted at least once. */
  ghost predicate NoZeros(d: Matrix) {
    && (forall g :: g in d ==> d[g] != map[])
    && (forall g, p :: g in d && p in d[g] ==> d[g][p] > 0)
  }

  /** Data.extract_group: the group code is the part of the login right
      after the prefix, at most groupLen characters long. */
  function ExtractGroup(prefix: string, groupLen: nat, login: string): (g: Option<string>)
    ensures g.None? <==> !StartsWith(login, prefix)
    ensures g.Some? ==> |g.value| == Min(groupLen, |login| - |prefix|)
    ensures g.Some? ==> login[..|prefix|] == prefix
                        && login[|prefix|..|prefix| + |g.value|] == g.value
  {
    if !StartsWith(login, prefix) then None
    else
      var n := |prefix|;
      var r := Slice(login, n, n + groupLen);
      assert login[n..n + |r|] == r;
      Some(r)
  }

  /** The two cases of the extract_group docstring. */
  lemma ExtractGroupExamples()
    ensures ExtractGroup("ed950", 3, "ed95070507") == Some("705")
    ensures ExtractGroup("ed950", 3, "ejudge") == None
  {
    assert "ed95070507"[..5] == "ed950";
    assert "ejudge"[..5] != "ed950" by { assert "ejudge"[1] == 'j'; }
    var s := "ed95070507"[5..8];
    assert |s| == 3 && s[0] == '7' && s[1] == '0' && s[2] == '5';
    assert s == "705";
  }

  /** Data.enroll: the login joins its group; no other group changes. */
  function Enroll(total: Enrolment, login: string, g: string): (r: Enrolment)
    ensures r.Keys == total.Keys + {g}
    ensures r[g] == (if g in total then total[g] else {}) + {login}
    ensures forall h :: h in total && h != g ==> r[h] == total[h]
  {
    if g !in total then total[g := {login}] else total[g := total[g] + {login}]
  }

  /** Enrolling a login that is already in its group changes nothing. */
  lemma EnrollIdempotent(total: Enrolment, login: string, g: string)
    requires g in total && login in total[g]
    ensures Enroll(total, login, g) == total
  {
    assert total[g] + {login} == total[g];
  }

  /** Data.count: the (g, p) cell goes up by exactly one, an absent cell
      counting as 0, and every other cell keeps its value. */
  function Count(d: Matrix, g: string, p: string): (r: Matrix)
    ensures Cell(r, g, p) == Cell(d, g, p) + 1
    ensures forall h, q :: h != g || q != p ==> Cell(r, h, q) == Cell(d, h, q)
    ensures r.Keys == d.Keys + {g}
    ensures r[g].Keys == (if g in d then d[g].Keys else {}) + {p}
    ensures forall h :: h in d && h != g ==> r[h] == d[h]
    ensures NoZeros(d) ==> NoZeros(r)
  {
    var row := if g in d then d[g] else map[p := 0];
    d[g := row[p := (if p in row then row[p] else 0) + 1]]
  }

  /** What fiter_data reads from its object and arguments. */
  datatype Setup = Setup(
    loginPrefix: string,                  // cfg.login_prefix
    loginGroupLen: nat,                   // cfg.login_group_len
    logins: Option<map<string, string>>,  // self.logins: the login -> group roster, if read
    duration: Option<nat>,                // contest_duration, in seconds
    countedStatus: string)                // counted_status, "OK" by default

  /** `if self.logins:` is Python truthiness, so an empty roster counts as none. */
  predicate HasRoster(s: Setup) {
    s.logins.Some? && s.logins.value != map[]
  }

  /** r[k] */
  function Field(r: Row, k: string): Result<string, PyError> {
    if k in r then Ok(r[k]) else Err(KeyError(k))
  }

  /** The group of a run: roster[login] (a login missing from the roster is a
      KeyError), else the Group column, else the code inside the login. */
  function RunGroup(s: Setup, r: Row, login: string): Result<Option<string>, PyError> {
    if HasRoster(s) then
      if login in s.logins.value then Ok(Some(s.logins.value[login])) else Err(KeyError(login))
    else if GROUP in r then Ok(Some(r[GROUP]))
    else Ok(ExtractGroup(s.loginPrefix, s.loginGroupLen, login))
  }

  /** What one run means to the filter: dropped, or enrolled under a group. */
  datatype Verdict = Skip | Enrolled(login: string, group: string, prob: string, time: string)

  /** The part of one loop iteration that does not depend on earlier runs. */
  function Classify(s: Setup, r: Row): Result<Verdict, PyError> {
    var login :- Field(r, LOGIN);
    var prob :- Field(r, PROB);
    var status :- Field(r, STATUS);
    var time :- Field(r, TIME);
    var group :- RunGroup(s, r, login);
    if group.None? || group.value == NO_GROUP || status != s.countedStatus then Ok(Skip)
    else Ok(Enrolled(login, group.value, prob, time))
  }

  /** The contest window [start, end], in seconds. */
  datatype Window = Window(start: int, end: int)

  /** The loop state of fiter_data: d1, total and the window variables. */
  datatype Tally = Tally(d1: Matrix, total: Enrolment, window: Option<Window>)

  /** The part of one loop iteration that updates the state. */
  function Apply(s: Setup, st: Tally, v: Verdict): Result<Tally, PyError> {
    match v
    case Skip => Ok(st)
    case Enrolled(login, g, p, time) =>
      var total := Enroll(st.total, login, g);
      if s.duration.None? then Ok(Tally(Count(st.d1, g, p), total, st.window))
      else
        var t :- ParseInt(time);
        var w := if st.window.None? then Window(t, t + s.duration.value) else st.window.value;
        var d1 := if w.start <= t <= w.end then Count(st.d1, g, p) else st.d1;
        Ok(Tally(d1, total, Some(w)))
  }

  /** The state after the loop has run over all of runs, in order. */
  function Fold(s: Setup, runs: seq<Row>): Result<Tally, PyError>
    decreases |runs|
  {
    if runs == [] then Ok(Tally(map[], map[], None))
    else
      var st :- Fold(s, runs[..|runs| - 1]);
      var v :- Classify(s, runs[|runs| - 1]);
      Apply(s, st, v)
  }

  /** The roster entries mapped to g. */
  function RosterMembers(logins: map<string, string>, g: string): set<string> {
    set l | l in logins && logins[l] == g
  }

  /** list(self.logins.values()).count(g) */
  function RosterCount(logins: map<string, string>, g: string): nat {
    |RosterMembers(logins, g)|
  }

  /** The code after the loop: the group sizes, from the roster when there is
      one, otherwise from the enrolled logins after checking that exactly the
      configured groups were seen. */
  function Finish(s: Setup, groups: seq<string>, st: Tally): Result<(Matrix, map<string, nat>), PyError> {
    if HasRoster(s) then
      Ok((st.d1, map g | g in groups :: RosterCount(s.logins.value, g)))
    else if st.total.Keys != (set g | g in groups) then
      Result<(Matrix, map<string, nat>), PyError>.Err(ValueError("expected groups differ from the groups in the runs"))
    else
      Ok((st.d1, map g | g in st.total :: |st.total[g]|))
  }

  /** Data.fiter_data(runs, contest_duration, counted_status) as a function. */
  function FilterSpec(s: Setup, groups: seq<string>, runs: seq<Row>): Result<(Matrix, map<string, nat>), PyError> {
    var st :- Fold(s, runs);
    Finish(s, groups, st)
  }

  /** Data.fiter_data: one pass over the runs, then the group sizes. */
  method FilterData(s: Setup, groups: seq<string>, runs: seq<Row>)
    returns (res: Result<(Matrix, map<string, nat>), PyError>)
    ensures res == FilterSpec(s, groups, runs)
  {
    var d1: Matrix := map[];
    var total: Enrolment := map[];
    var window: Option<Window> := None;
    var i := 0;
    while i < |runs|
      invariant 0 <= i <= |runs|
      invariant Fold(s, runs[..i]) == Ok(Tally(d1, total, window))
    {
      FoldStep(s, runs, i);
      var v := Classify(s, runs[i]);
      if v.Err? {
        FoldErrPersists(s, runs, i + 1);
        return Err(v.error);
      }
      match v.value {
        case Skip =>
        case Enrolled(login, group, prob, time) =>
          total := Enroll(total, login, group);
          if s.duration.None? {
            d1 := Count(d1, group, prob);
          } else {
            var t := ParseInt(time);
            if t.Err? {
              FoldErrPersists(s, runs, i + 1);
              return Err(t.error);
            }
            if window.None? {
              window := Some(Window(t.value, t.value + s.duration.value));
            }
            if window.value.start <= t.value <= window.value.end {
              d1 := Count(d1, group, prob);
            }
          }
      }
      i := i + 1;
    }
    assert runs[..|runs|] == runs;
    if HasRoster(s) {
      res := Ok((d1, map g | g in groups :: RosterCount(s.logins.value, g)));
    } else if total.Keys != (set g | g in groups) {
      res := Err(ValueError("expected groups differ from the groups in the runs"));
    } else {
      res := Ok((d1, map g | g in total :: |total[g]|));
    }
  }

  /** One more run: the fold of runs[..i + 1] in terms of the fold of runs[..i]. */
  lemma FoldStep(s: Setup, runs: seq<Row>, i: nat)
    requires i < |runs|
    ensures Fold(s, runs[..i + 1]) == (var st :- Fold(s, runs[..i]); var v :- Classify(s, runs[i]); Apply(s, st, v))
  {
    assert runs[..i + 1][..i] == runs[..i];
  }

  /** An exception stops the pass: once a prefix fails, the whole run list
      fails with the same error. */
  lemma {:induction false} FoldErrPersists(s: Setup, runs: seq<Row>, k: nat)
    requires k <= |runs| && Fold(s, runs[..k]).Err?
    ensures Fold(s, runs) == Fold(s, runs[..k])
    decreases |runs|
  {
    if k == |runs| {
      assert runs[..k] == runs;
    } else {
      var prefix := runs[..|runs| - 1];
      assert prefix[..k] == runs[..k];
      FoldErrPersists(s, prefix, k);
    }
  }

  // ---- the fold against independent descriptions ----

  ghost predicate IsEnrolled(s: Setup, r: Row) {
    Classify(s, r).Ok? && Classify(s, r).value.Enrolled?
  }

  ghost function Entry(s: Setup, r: Row): Verdict
    requires IsEnrolled(s, r)
  {
    Classify(s, r).value
  }

  /** A run raises nothing: its fields and group can be read, and when a
      window applies to it, its time is a number. */
  ghost predicate RunOk(s: Setup, r: Row) {
    Classify(s, r).Ok? && (IsEnrolled(s, r) && s.duration.Some? ==> ParseInt(Entry(s, r).time).Ok?)
  }

  /** The pass fails exactly when some run raises. */
  lemma {:induction false} FoldOkIff(s: Setup, runs: seq<Row>)
    ensures Fold(s, runs).Ok? <==> forall i :: 0 <= i < |runs| ==> RunOk(s, runs[i])
    decreases |runs|
  {
    if runs != [] {
      var prefix := runs[..|runs| - 1];
      FoldOkIff(s, prefix);
      assert forall i :: 0 <= i < |prefix| ==> prefix[i] == runs[i];
    }
  }

  /** The logins enrolled in g by the runs, in the model's own terms. */
  ghost function Participants(s: Setup, runs: seq<Row>, g: string): set<string>
    decreases |runs|
  {
    if runs == [] then {}
    else
      var last := runs[|runs| - 1];
      Participants(s, runs[..|runs| - 1], g)
      + (if IsEnrolled(s, last) && Entry(s, last).group == g then {Entry(s, last).login} else {})
  }

  /** total[g] is the set of distinct logins enrolled in g, and a group is a
      key of total exactly when at least one login was enrolled in it. */
  lemma {:induction false} FoldTotals(s: Setup, runs: seq<Row>)
    requires Fold(s, runs).Ok?
    ensures forall g :: g in Fold(s, runs).value.total <==> Participants(s, runs, g) != {}
    ensures forall g :: g in Fold(s, runs).value.total ==>
              Fold(s, runs).value.total[g] == Participants(s, runs, g)
    decreases |runs|
  {
    if runs != [] {
      var prefix := runs[..|runs| - 1];
      assert Fold(s, prefix).Ok?;
      FoldTotals(s, prefix);
    }
  }

  /** With a roster, every enrolled login is a roster entry of its group. */
  lemma {:induction false} ParticipantsInRoster(s: Setup, runs: seq<Row>, g: string)
    requires HasRoster(s)
    ensures Participants(s, runs, g) <= RosterMembers(s.logins.value, g)
    decreases |runs|
  {
    if runs != [] {
      ParticipantsInRoster(s, runs[..|runs| - 1], g);
    }
  }

  /** j is the first run that is enrolled. */
  ghost predicate FirstEnrolled(s: Setup, runs: seq<Row>, j: int) {
    0 <= j < |runs| && IsEnrolled(s, runs[j])
    && forall i :: 0 <= i < j ==> !IsEnrolled(s, runs[i])
  }

  lemma FirstEnrolledUnique(s: Setup, runs: seq<Row>, j: int, k: int)
    requires FirstEnrolled(s, runs, j) && FirstEnrolled(s, runs, k)
    ensures j == k
  {
  }

  /** The window opens at the first enrolled run and is never moved. */
  lemma {:induction false} FoldWindow(s: Setup, runs: seq<Row>)
    requires Fold(s, runs).Ok?
    ensures var w := Fold(s, runs).value.window;
      && (w.None? <==> s.duration.None? || forall i :: 0 <= i < |runs| ==> !IsEnrolled(s, runs[i]))
      && (w.Some? ==>
            && s.duration.Some? && w.value.end == w.value.start + s.duration.value
            && exists j :: FirstEnrolled(s, runs, j) && ParseInt(Entry(s, runs[j]).time) == Ok(w.value.start))
    decreases |runs|
  {
    if runs != [] {
      var prefix := runs[..|runs| - 1];
      var last := runs[|runs| - 1];
      assert Fold(s, prefix).Ok?;
      FoldWindow(s, prefix);
      assert forall i :: 0 <= i < |prefix| ==> prefix[i] == runs[i];
      var w0 := Fold(s, prefix).value.window;
      var w := Fold(s, runs).value.window;
      if w0.Some? {
        var j :| FirstEnrolled(s, prefix, j) && ParseInt(Entry(s, prefix[j]).time) == Ok(w0.value.start);
        assert FirstEnrolled(s, runs, j);
        assert w == w0;
      } else if s.duration.Some? && IsEnrolled(s, last) {
        assert FirstEnrolled(s, runs, |runs| - 1);
      }
    }
  }

  /** Whether a run's time is inside the window (always, without a duration). */
  ghost predicate InWindow(s: Setup, w: Option<Window>, time: string) {
    s.duration.None?
    || (w.Some? && ParseInt(time).Ok? && w.value.start <= ParseInt(time).value <= w.value.end)
  }

  /** The run is an enrolled run for problem p in group g inside the window. */
  ghost predicate CountedRun(s: Setup, w: Option<Window>, r: Row, g: string, p: string) {
    IsEnrolled(s, r) && Entry(s, r).group == g && Entry(s, r).prob == p
    && InWindow(s, w, Entry(s, r).time)
  }

  /** The number of runs counted for (g, p) under the window w. */
  ghost function Solves(s: Setup, runs: seq<Row>, w: Option<Window>, g: string, p: string): nat
    decreases |runs|
  {
    if runs == [] then 0
    else Solves(s, runs[..|runs| - 1], w, g, p) + (if CountedRun(s, w, runs[|runs| - 1], g, p) then 1 else 0)
  }

  lemma {:induction false} SolvesWithoutEnrolled(s: Setup, runs: seq<Row>, w: Option<Window>, g: string, p: string)
    requires forall i :: 0 <= i < |runs| ==> !IsEnrolled(s, runs[i])
    ensures Solves(s, runs, w, g, p) == 0
    decreases |runs|
  {
    if runs != [] {
      var prefix := runs[..|runs| - 1];
      assert forall i :: 0 <= i < |prefix| ==> prefix[i] == runs[i];
      SolvesWithoutEnrolled(s, prefix, w, g, p);
    }
  }

  /** d1[g][p] is the number of enrolled runs for p in g whose time lies in
      the final window (every enrolled run, without a duration), and the
      matrix stores no zero cells. */
  lemma {:induction false} FoldCounts(s: Setup, runs: seq<Row>)
    requires Fold(s, runs).Ok?
    ensures NoZeros(Fold(s, runs).value.d1)
    ensures forall g, p :: Cell(Fold(s, runs).value.d1, g, p) == Solves(s, runs, Fold(s, runs).value.window, g, p)
    decreases |runs|
  {
    if runs != [] {
      var prefix := runs[..|runs| - 1];
      var last := runs[|runs| - 1];
      assert Fold(s, prefix).Ok?;
      FoldCounts(s, prefix);
      FoldWindow(s, prefix);
      var st := Fold(s, prefix).value;
      var st' := Fold(s, runs).value;
      forall g, p
        ensures Solves(s, prefix, st.window, g, p) == Solves(s, prefix, st'.window, g, p)
      {
        if st.window != st'.window && s.duration.Some? {
          SolvesWithoutEnrolled(s, prefix, st.window, g, p);
          SolvesWithoutEnrolled(s, prefix, st'.window, g, p);
        }
      }
    }
  }

  /** A counted run for g is an enrolled run of g, so g has a participant. */
  lemma {:induction false} SolvesNeedParticipant(s: Setup, runs: seq<Row>, w: Option<Window>, g: string, p: string)
    requires Solves(s, runs, w, g, p) > 0
    ensures Participants(s, runs, g) != {}
    decreases |runs|
  {
    var prefix := runs[..|runs| - 1];
    var last := runs[|runs| - 1];
    if Solves(s, prefix, w, g, p) > 0 {
      SolvesNeedParticipant(s, prefix, w, g, p);
      var l :| l in Participants(s, prefix, g);
      assert l in Participants(s, runs, g);
    } else {
      assert CountedRun(s, w, last, g, p);
      assert Entry(s, last).login in Participants(s, runs, g);
    }
  }

  /** Every group that has a row in the matrix and a size has a positive
      size: there is an enrolled login behind each of its counted runs. */
  lemma CountedGroupsHaveMembers(s: Setup, groups: seq<string>, runs: seq<Row>, g: string)
    requires FilterSpec(s, groups, runs).Ok?
    requires g in FilterSpec(s, groups, runs).value.0 && g in FilterSpec(s, groups, runs).value.1
    ensures FilterSpec(s, groups, runs).value.1[g] > 0
  {
    FoldCounts(s, runs);
    var st := Fold(s, runs).value;
    assert st.d1[g] != map[];
    var p :| p in st.d1[g];
    assert Cell(st.d1, g, p) > 0;
    SolvesNeedParticipant(s, runs, st.window, g, p);
    if HasRoster(s) {
      TotalsFromRoster(s, groups, runs);
    } else {
      TotalsWithoutRoster(s, groups, runs);
    }
  }

  /** With a duration, the window is [t0, t0 + D] where t0 is the time of the
      first enrolled run, and that run itself is inside it. */
  lemma WindowIsAnchoredAtFirstAcceptedRun(s: Setup, runs: seq<Row>, j: int)
    requires Fold(s, runs).Ok? && s.duration.Some? && FirstEnrolled(s, runs, j)
    ensures Fold(s, runs).value.window.Some?
    ensures var w := Fold(s, runs).value.window.value;
            && ParseInt(Entry(s, runs[j]).time) == Ok(w.start)
            && w.end == w.start + s.duration.value
    ensures InWindow(s, Fold(s, runs).value.window, Entry(s, runs[j]).time)
  {
    FoldWindow(s, runs);
    var w := Fold(s, runs).value.window;
    assert w.Some?;
    var k :| FirstEnrolled(s, runs, k) && ParseInt(Entry(s, runs[k]).time) == Ok(w.value.start);
    FirstEnrolledUnique(s, runs, j, k);
  }

  /** A run that has no usable group or another status changes neither the
      matrix, nor the enrolment, nor the window. */
  lemma SkippedRunChangesNothing(s: Setup, runs: seq<Row>, r: Row)
    requires Fold(s, runs).Ok?
    requires LOGIN in r && PROB in r && STATUS in r && TIME in r
    requires HasRoster(s) ==> r[LOGIN] in s.logins.value
    requires var g := RunGroup(s, r, r[LOGIN]).value;
             g.None? || g.value == NO_GROUP || r[STATUS] != s.countedStatus
    ensures Fold(s, runs + [r]) == Fold(s, runs)
  {
    assert (runs + [r])[..|runs|] == runs;
  }

  /** With a roster, a run whose login is not in it raises KeyError. */
  lemma MissingRosterLoginFails(s: Setup, runs: seq<Row>, r: Row)
    requires Fold(s, runs).Ok? && HasRoster(s)
    requires LOGIN in r && PROB in r && STATUS in r && TIME in r
    requires r[LOGIN] !in s.logins.value
    ensures Fold(s, runs + [r]) == Err(KeyError(r[LOGIN]))
  {
    assert (runs + [r])[..|runs|] == runs;
  }

  /** With a roster, the group sizes are the roster's, for each configured
      group, and bound the number of logins enrolled there. */
  lemma TotalsFromRoster(s: Setup, groups: seq<string>, runs: seq<Row>)
    requires HasRoster(s) && Fold(s, runs).Ok?
    ensures FilterSpec(s, groups, runs).Ok?
    ensures var totals := FilterSpec(s, groups, runs).value.1;
            && totals.Keys == (set g | g in groups)
            && forall g :: g in totals ==>
                 totals[g] == RosterCount(s.logins.value, g)
                 && |Participants(s, runs, g)| <= totals[g]
  {
    forall g | g in groups
      ensures |Participants(s, runs, g)| <= RosterCount(s.logins.value, g)
    {
      ParticipantsInRoster(s, runs, g);
      SubsetCard(Participants(s, runs, g), RosterMembers(s.logins.value, g));
    }
  }

  lemma SubsetCard(a: set<string>, b: set<string>)
    requires a <= b
    ensures |a| <= |b|
  {
    assert b == a + (b - a);
  }

  /** Without a roster, the pass raises ValueError unless the groups with
      enrolled logins are exactly the configured ones, and then each group's
      size is its number of distinct enrolled logins. */
  lemma TotalsWithoutRoster(s: Setup, groups: seq<string>, runs: seq<Row>)
    requires !HasRoster(s) && Fold(s, runs).Ok?
    ensures var res := FilterSpec(s, groups, runs);
      && (res.Ok? <==> forall g :: Participants(s, runs, g) != {} <==> g in groups)
      && (res.Err? ==> res.error.ValueError?)
      && (res.Ok? ==>
            && res.value.1.Keys == (set g | g in groups)
            && forall g :: g in res.value.1 ==> res.value.1[g] == |Participants(s, runs, g)|)
  {
    FoldTotals(s, runs);
    var total := Fold(s, runs).value.total;
    if forall g :: Participants(s, runs, g) != {} <==> g in groups {
      assert total.Keys == (set g | g in groups);
    } else {
      var g :| !(Participants(s, runs, g) != {} <==> g in groups);
      assert g in total.Keys <==> g !in (set g | g in groups);
    }
  }
}

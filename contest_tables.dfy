/** The table rows of ej_plot_contest: the problems that head the columns,
    one row per group and one row over all groups, each row holding the group
    size, the counts per problem and, optionally, the counts as whole
    percentages of the group size. */
module ContestTables {
  import opened Base
  import opened Text
  import opened ProblemNames
  import opened ContestData

  /** Every problem name that occurs in some group's row of the matrix. */
  function ProblemsSeen(data: Matrix): (s: set<string>)
    ensures forall p :: p in s <==> exists g :: g in data && p in data[g]
  {
    set g, p | g in data && p in data[g] :: p
  }

  /** The first loop of get_counted_probs: the union of every group's keys. */
  method CollectProblems(data: Matrix) returns (s: set<string>)
    ensures s == ProblemsSeen(data)
  {
    s := {};
    var todo := data.Keys;
    while todo != {}
      invariant todo <= data.Keys
      invariant forall p :: p in s <==> exists g :: g in data && g !in todo && p in data[g]
      decreases |todo|
    {
      var g :| g in todo;
      s := s + data[g].Keys;
      todo := todo - {g};
    }
  }

  /** prob.fullname for each header, in header order. */
  function Fullnames(hs: seq<ProblemName>): (r: seq<string>)
    reads set h | h in hs
    ensures |r| == |hs| && forall i :: 0 <= i < |hs| ==> r[i] == hs[i].fullname
  {
    if hs == [] then [] else Fullnames(hs[..|hs| - 1]) + [hs[|hs| - 1].fullname]
  }

  /** Data.get_counted_probs: with an empty filter, a fresh ProblemName for
      every problem of the data, in sorted order; otherwise the configured
      problems themselves, each moved to the spelling the data uses. */
  method GetCountedProbs(data: Matrix, probs: seq<ProblemName>) returns (headers: seq<ProblemName>)
    requires forall k :: 0 <= k < |probs| ==> probs[k].Valid()
    modifies set p | p in probs
    ensures forall k :: 0 <= k < |headers| ==> headers[k].Valid()
    ensures probs == [] ==>
              && StrictlySorted(Fullnames(headers))
              && (forall x :: x in Fullnames(headers) <==> x in ProblemsSeen(data))
              && forall k :: 0 <= k < |headers| ==>
                   fresh(headers[k]) && headers[k].base == headers[k].fullname
    ensures probs != [] ==>
              && headers == probs
              && forall k :: 0 <= k < |probs| ==>
                   probs[k].fullname == Reconcile(old(probs[k].fullname), probs[k].base,
                                                  probs[k].display, ProblemsSeen(data))
  {
    var seen := CollectProblems(data);
    if probs == [] {
      var names := SortedStrings(seen);
      headers := NewHeaders(names);
    } else {
      UpdateFullnames(probs, seen);
      headers := probs;
    }
  }

  /** [ProblemName(name) for name in names]: fresh names without a suffix. */
  method NewHeaders(names: seq<string>) returns (headers: seq<ProblemName>)
    ensures Fullnames(headers) == names
    ensures forall k :: 0 <= k < |headers| ==>
              fresh(headers[k]) && headers[k].Valid() && headers[k].base == headers[k].fullname
  {
    headers := [];
    var i := 0;
    while i < |names|
      invariant 0 <= i <= |names|
      invariant |headers| == i
      invariant forall k :: 0 <= k < i ==>
                  fresh(headers[k]) && headers[k].Valid()
                  && headers[k].base == names[k] && headers[k].fullname == names[k]
    {
      var p := new ProblemName(names[i], "");
      assert names[i] + "" == names[i];
      headers := headers + [p];
      i := i + 1;
    }
    assert Fullnames(headers) == names;
  }

  /** for pn in probs: pn.update_fullname(seen). A name listed twice is
      reconciled twice, which changes nothing the second time. */
  method UpdateFullnames(probs: seq<ProblemName>, seen: set<string>)
    requires forall k :: 0 <= k < |probs| ==> probs[k].Valid()
    modifies set p | p in probs
    ensures forall k :: 0 <= k < |probs| ==> probs[k].Valid()
    ensures forall k :: 0 <= k < |probs| ==>
              probs[k].fullname == Reconcile(old(probs[k].fullname), probs[k].base, probs[k].display, seen)
  {
    var i := 0;
    while i < |probs|
      invariant 0 <= i <= |probs|
      invariant forall k :: 0 <= k < |probs| ==> probs[k].Valid()
      invariant forall k :: 0 <= k < |probs| ==>
                  probs[k].fullname ==
                    if probs[k] in probs[..i]
                    then Reconcile(old(probs[k].fullname), probs[k].base, probs[k].display, seen)
                    else old(probs[k].fullname)
    {
      var p := probs[i];
      p.UpdateFullname(seen);
      ReconcileIdempotent(old(p.fullname), p.base, p.display, seen);
      assert probs[..i + 1] == probs[..i] + [p];
      i := i + 1;
    }
    assert probs[..|probs|] == probs;
  }

  /** Where the counts start in a row: after the group size when it is shown. */
  function Offset(withTotal: bool): nat {
    if withTotal then 1 else 0
  }

  /** For each count c, p holds the whole percentage q of c in x0, that is
      q * x0 <= c * 100 < (q + 1) * x0. */
  ghost predicate IsPercentages(p: seq<nat>, x0: nat, counts: seq<nat>) {
    && |p| == |counts|
    && forall i :: 0 <= i < |counts| ==> p[i] * x0 <= counts[i] * 100 < (p[i] + 1) * x0
  }

  /** The row layout: the size x0 first when withTotal, then the counts, then,
      when withPct, their percentages of x0. */
  ghost predicate IsRow(r: seq<nat>, x0: nat, counts: seq<nat>, withTotal: bool, withPct: bool) {
    var off := Offset(withTotal);
    && |r| == off + |counts| + (if withPct then |counts| else 0)
    && (withTotal ==> r[0] == x0)
    && r[off..off + |counts|] == counts
    && (withPct ==> IsPercentages(r[off + |counts|..], x0, counts))
  }

  /** int(c * 100 / x0) for non-negative c and positive x0: the whole
      percentage, the largest q with q * x0 <= c * 100. */
  function PercentOf(c: nat, x0: nat): (q: nat)
    requires x0 > 0
    ensures q * x0 <= c * 100 < (q + 1) * x0
  {
    c * 100 / x0
  }

  /** [int(x * 100 / x0) for x in d]: the division raises when x0 is 0 and
      there is something to divide. */
  function Percentages(d: seq<nat>, x0: nat): (r: Result<seq<nat>, PyError>)
    ensures r.Err? <==> |d| > 0 && x0 == 0
    ensures r.Err? ==> r.error == ZeroDivisionError
    ensures r.Ok? ==> IsPercentages(r.value, x0, d)
  {
    if d == [] then Ok([])
    else if x0 == 0 then Err(ZeroDivisionError)
    else
      Ok(seq(|d|, i requires 0 <= i < |d| => PercentOf(d[i], x0)))
  }

  /** An accepted run of login u on problem A, in group 1. */
  const SampleRun: Row := map[LOGIN := "u", PROB := "A", STATUS := "OK", TIME := "0", GROUP := "1"]

  /** No roster and no duration; groups come from the Group column. */
  const SampleSetup: Setup := Setup("", 0, None, None, "OK")

  /** Two identical accepted runs of one login count twice and enrol once. */
  /** The sample run is counted: it enrols "u" in group "1" under "A". */
  lemma SampleRunCounted()
    ensures Classify(SampleSetup, SampleRun) == Ok(Enrolled("u", "1", "A", "0"))
  {
  }

  /** After the first of the two runs: one accepted run, one login. */
  lemma RepeatedRunFirst()
    ensures Fold(SampleSetup, [SampleRun])
              == Ok(Tally(map["1" := map["A" := 1]], map["1" := {"u"}], None))
  {
    var s, run := SampleSetup, SampleRun;
    SampleRunCounted();
    var d1 := map["1" := map["A" := 1]];
    var total := map["1" := {"u"}];
    assert map["A" := 0]["A" := 1] == map["A" := 1];
    assert Count(map[], "1", "A") == d1;
    assert Enroll(map[], "u", "1") == total;
    assert [run][..0] == [];
    assert Apply(s, Tally(map[], map[], None), Enrolled("u", "1", "A", "0")) == Ok(Tally(d1, total, None));
  }

  /** The second, identical run counts again but enrols no one new. */
  lemma RepeatedRunFold()
    ensures Fold(SampleSetup, [SampleRun, SampleRun])
              == Ok(Tally(map["1" := map["A" := 2]], map["1" := {"u"}], None))
  {
    var s, run := SampleSetup, SampleRun;
    RepeatedRunFirst();
    SampleRunCounted();
    var d1 := map["1" := map["A" := 1]];
    var d2 := map["1" := map["A" := 2]];
    var total := map["1" := {"u"}];
    assert d1["1"]["A" := 2] == map["A" := 2];
    assert Count(d1, "1", "A") == d2;
    assert Enroll(total, "u", "1") == total;
    assert [run, run][..1] == [run];
    assert Apply(s, Tally(d1, total, None), Enrolled("u", "1", "A", "0")) == Ok(Tally(d2, total, None));
  }

  /** So fiter_data gives the cell 2 and the group size 1. */
  lemma RepeatedRunData()
    ensures FilterSpec(SampleSetup, ["1"], [SampleRun, SampleRun])
              == Ok((map["1" := map["A" := 2]], map["1" := 1]))
  {
    RepeatedRunFold();
    var total := map["1" := {"u"}];
    assert (set g | g in ["1"]) == {"1"} == total.Keys;
    var sizes := map g | g in total :: |total[g]|;
    assert sizes.Keys == {"1"} && sizes["1"] == 1;
    assert sizes == map["1" := 1];
  }

  /** Percentages are not bounded by 100: the matrix counts accepted runs,
      the size counts logins, so one student who passes the same problem
      twice makes the group's cell 2 over a size of 1, shown as 200. */
  lemma PercentCanExceedHundred()
    ensures var res := FilterSpec(SampleSetup, ["1"], [SampleRun, SampleRun]);
            && res.Ok?
            && Assemble(res.value.1["1"], GroupCounts(res.value.0, "1", ["A"]), false, true) == Ok([2, 200])
  {
    RepeatedRunData();
    var d2 := map["1" := map["A" := 2]];
    assert PercentOf(2, 1) == 200;
    var pct := Percentages([2], 1);
    assert pct.Ok? && |pct.value| == 1 && pct.value[0] == 200;
    assert pct.value == [200];
    var counts := GroupCounts(d2, "1", ["A"]);
    assert |counts| == 1 && counts[0] == Cell(d2, "1", "A") == 2;
    assert counts == [2];
    assert [2] + [200] == [2, 200];
    assert Assemble(1, counts, false, true) == Ok([2, 200]);
  }

  /** The shared tail of data_group and data_group_all: append the
      percentages, then put the size in front. */
  function Assemble(x0: nat, d: seq<nat>, withTotal: bool, withPct: bool): (r: Result<seq<nat>, PyError>)
    ensures r.Err? <==> withPct && |d| > 0 && x0 == 0
    ensures r.Err? ==> r.error == ZeroDivisionError
    ensures r.Ok? ==> IsRow(r.value, x0, d, withTotal, withPct)
  {
    var pct :- if withPct then Percentages(d, x0) else Ok([]);
    var row := d + pct;
    var r := if withTotal then [x0] + row else row;
    assert r[Offset(withTotal)..] == row;
    assert row[..|d|] == d && row[|d|..] == pct;
    Ok(r)
  }

  /** data[group].get(name, 0) for each name; data[group] is only read when
      there is at least one name. */
  function GroupCounts(data: Matrix, group: string, names: seq<string>): (r: seq<nat>)
    ensures |r| == |names| && forall i :: 0 <= i < |names| ==> r[i] == Cell(data, group, names[i])
  {
    seq(|names|, i requires 0 <= i < |names| => Cell(data, group, names[i]))
  }

  /** The row data_group(group, get_student_numbers, add_percentes) returns. */
  function GroupRow(data: Matrix, totals: map<string, nat>, group: string, headers: seq<ProblemName>,
                     withTotal: bool, withPct: bool): (r: Result<seq<nat>, PyError>)
    reads set h | h in headers
    ensures r.Ok? <==> (|headers| == 0 || group in data) && group in totals
                       && !(withPct && |headers| > 0 && totals[group] == 0)
    ensures r.Err? && ((|headers| > 0 && group !in data) || group !in totals) ==> r.error == KeyError(group)
    ensures r.Err? && (|headers| == 0 || group in data) && group in totals ==> r.error == ZeroDivisionError
    ensures r.Ok? ==> IsRow(r.value, totals[group], GroupCounts(data, group, Fullnames(headers)), withTotal, withPct)
  {
    var names := Fullnames(headers);
    if |names| > 0 && group !in data then Err(KeyError(group))
    else
      var d := GroupCounts(data, group, names);
      if group !in totals then Err(KeyError(group))
      else Assemble(totals[group], d, withTotal, withPct)
  }

  /** sum(gr_data.get(name, 0) for gr_data in data.values()) */
  ghost function ColumnSum(data: Matrix, name: string): nat {
    Sum(map g | g in data :: Cell(data, g, name))
  }

  ghost function ColumnSums(data: Matrix, names: seq<string>): (r: seq<nat>)
    ensures |r| == |names| && forall i :: 0 <= i < |names| ==> r[i] == ColumnSum(data, names[i])
  {
    seq(|names|, i requires 0 <= i < |names| => ColumnSum(data, names[i]))
  }

  /** The row data_group_all(get_student_numbers, add_percentes) returns: the
      column sums over all groups, and the sum of all group sizes. */
  ghost function AllGroupsRow(data: Matrix, totals: map<string, nat>, headers: seq<ProblemName>,
                              withTotal: bool, withPct: bool): (r: Result<seq<nat>, PyError>)
    reads set h | h in headers
    ensures r.Err? <==> withPct && |headers| > 0 && Sum(totals) == 0
    ensures r.Err? ==> r.error == ZeroDivisionError
    ensures r.Ok? ==> IsRow(r.value, Sum(totals), ColumnSums(data, Fullnames(headers)), withTotal, withPct)
  {
    Assemble(Sum(totals), ColumnSums(data, Fullnames(headers)), withTotal, withPct)
  }

  /** Data.data_group: the counts of the group, then the percentages appended
      to the list, then the size inserted in front. */
  method DataGroup(data: Matrix, totals: map<string, nat>, group: string, headers: seq<ProblemName>,
                   withTotal: bool, withPct: bool) returns (r: Result<seq<nat>, PyError>)
    ensures r == GroupRow(data, totals, group, headers, withTotal, withPct)
  {
    var names := Fullnames(headers);
    if |names| > 0 && group !in data {
      return Err(KeyError(group));
    }
    var d := GroupCounts(data, group, names);
    if group !in totals {
      return Err(KeyError(group));
    }
    r := AssembleRow(totals[group], d, withTotal, withPct);
  }

  /** Data.data_group_all: the per-problem sums over all groups, and the sum
      of all group sizes, then the same tail as data_group. */
  method DataGroupAll(data: Matrix, totals: map<string, nat>, headers: seq<ProblemName>,
                      withTotal: bool, withPct: bool) returns (r: Result<seq<nat>, PyError>)
    ensures r == AllGroupsRow(data, totals, headers, withTotal, withPct)
  {
    var d := ColumnTotals(data, Fullnames(headers));
    var x0 := SumValues(totals);
    r := AssembleRow(x0, d, withTotal, withPct);
  }

  /** [sum(gr_data.get(name, 0) for gr_data in data.values()) for name in names] */
  method ColumnTotals(data: Matrix, names: seq<string>) returns (d: seq<nat>)
    ensures d == ColumnSums(data, names)
  {
    d := [];
    var i := 0;
    while i < |names|
      invariant 0 <= i <= |names|
      invariant |d| == i && forall k :: 0 <= k < i ==> d[k] == ColumnSum(data, names[k])
    {
      var c := SumValues(map g | g in data :: Cell(data, g, names[i]));
      d := d + [c];
      i := i + 1;
    }
  }

  /** The shared tail, on the list: d += percentages; d.insert(0, x0). */
  method AssembleRow(x0: nat, counts: seq<nat>, withTotal: bool, withPct: bool) returns (r: Result<seq<nat>, PyError>)
    ensures r == Assemble(x0, counts, withTotal, withPct)
  {
    var d := counts;
    if withPct {
      var pct := Percentages(d, x0);
      if pct.Err? {
        return Err(pct.error);
      }
      d := d + pct.value;
    } else {
      assert d + [] == d;
    }
    if withTotal {
      d := [x0] + d;
    }
    r := Ok(d);
  }

  /** sum(m.values()), one value at a time. */
  method SumValues(m: map<string, nat>) returns (total: nat)
    ensures total == Sum(m)
  {
    total := 0;
    var rest := m;
    while rest != map[]
      invariant total + Sum(rest) == Sum(m)
      decreases |rest.Keys|
    {
      var k :| k in rest;
      SumPick(rest, k);
      total := total + rest[k];
      rest := rest - {k};
    }
  }

  /** On the output of fiter_data, data_group never divides by zero: the
      only way it raises is a KeyError for a group without a row or a size. */
  lemma GroupRowNeverDividesByZero(s: Setup, groups: seq<string>, runs: seq<Row>, g: string,
                                   headers: seq<ProblemName>, withTotal: bool, withPct: bool)
    requires FilterSpec(s, groups, runs).Ok?
    ensures var (data, totals) := FilterSpec(s, groups, runs).value;
            var r := GroupRow(data, totals, g, headers, withTotal, withPct);
            r.Err? ==> r.error == KeyError(g)
  {
    var (data, totals) := FilterSpec(s, groups, runs).value;
    if g in data && g in totals {
      CountedGroupsHaveMembers(s, groups, runs, g);
    }
  }

  /** One group's count never exceeds the count over all groups. */
  lemma GroupWithinColumn(data: Matrix, g: string, name: string)
    requires g in data
    ensures Cell(data, g, name) <= ColumnSum(data, name)
  {
    SumBound(map h | h in data :: Cell(data, h, name), g);
  }

  lemma SumSingleton(k: string, v: nat)
    ensures Sum(map[k := v]) == v
  {
    SumAdd(map[], k, v);
  }

  /** With a single group, the all-groups row is that group's row. */
  lemma SingleGroupAll(data: Matrix, totals: map<string, nat>, g: string, headers: seq<ProblemName>,
                       withTotal: bool, withPct: bool)
    requires data.Keys == {g} && totals.Keys == {g}
    ensures AllGroupsRow(data, totals, headers, withTotal, withPct)
            == GroupRow(data, totals, g, headers, withTotal, withPct)
  {
    assert totals == map[g := totals[g]];
    SumSingleton(g, totals[g]);
    var names := Fullnames(headers);
    forall name
      ensures ColumnSum(data, name) == Cell(data, g, name)
    {
      assert (map h | h in data :: Cell(data, h, name)) == map[g := Cell(data, g, name)];
      SumSingleton(g, Cell(data, g, name));
    }
    assert ColumnSums(data, names) == GroupCounts(data, g, names);
  }
}

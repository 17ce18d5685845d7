/** The configuration flattening of makeall_2019: a nested JSON config holds
    common keys at the top, per-department keys under "department", and
    per-stage keys under each department's "stage"; flattening for one
    department and one stage lets the lower level override the upper one. */
module FlatConfig {
  import opened Base
  import Text

  /** A JSON value, as json.load gives it (numbers are integers here). */
  datatype Json =
    | JNull
    | JBool(b: bool)
    | JNum(n: int)
    | JStr(s: string)
    | JArr(items: seq<Json>)
    | JObj(fields: map<string, Json>)

  /** v[key] on a JSON value: a KeyError on an object without the key, a
      TypeError on anything that is not an object. */
  function Index(v: Json, key: string): (r: Result<Json, PyError>)
    ensures r.Ok? <==> v.JObj? && key in v.fields
    ensures r.Ok? ==> r.value == v.fields[key]
    ensures r.Err? ==> r.error == if v.JObj? then KeyError(key) else TypeError
  {
    match v
    case JObj(m) => if key in m then Ok(m[key]) else Err(KeyError(key))
    case _ => Err(TypeError)
  }

  /** The fields of a value the code iterates over or merges as a dict. */
  function Fields(v: Json): (r: Result<map<string, Json>, PyError>)
    ensures r.Ok? <==> v.JObj?
    ensures r.Ok? ==> r.value == v.fields
    ensures r.Err? ==> r.error == TypeError
  {
    match v
    case JObj(m) => Ok(m)
    case _ => Err(TypeError)
  }

  /** The ValueError dict.update raises for an element of the wrong length. */
  function LengthError(i: nat, n: nat): PyError {
    ValueError("dictionary update sequence element #" + Text.IntToString(i)
               + " has length " + Text.IntToString(n) + "; 2 is required")
  }

  /** Element i of a non-dict argument of dict.update, read as a key/value
      pair: a two-character string, or a two-item array whose first item is
      the key. */
  function PairOf(e: Json, i: nat): Result<(string, Json), PyError> {
    match e
    case JStr(t) => if |t| == 2 then Ok((t[..1], JStr(t[1..]))) else Err(LengthError(i, |t|))
    case JArr(xs) =>
      if |xs| != 2 then Err(LengthError(i, |xs|))
      else if xs[0].JStr? then Ok((xs[0].s, xs[1]))
      else Err(TypeError)
    case JObj(m) => if |m| != 2 then Err(LengthError(i, |m|)) else Err(TypeError)
    case _ => Err(TypeError)
  }

  /** The pairs of items[..], merged in order: a later pair overrides an
      earlier one with the same key, and the first bad element raises. */
  function UpdatePairs(items: seq<Json>): Result<map<string, Json>, PyError>
    decreases |items|
  {
    if items == [] then Ok(map[])
    else
      var m :- UpdatePairs(items[..|items| - 1]);
      var p :- PairOf(items[|items| - 1], |items| - 1);
      Ok(m[p.0 := p.1])
  }

  /** What dres.update(v) merges: a dict's items; a string or an array read
      as a sequence of pairs (a string's elements are its characters, so only
      the empty string passes); anything else is not iterable. */
  function UpdateArg(v: Json): Result<map<string, Json>, PyError> {
    match v
    case JObj(m) => Ok(m)
    case JStr(t) => if t == "" then Ok(map[]) else Err(LengthError(0, 1))
    case JArr(items) => UpdatePairs(items)
    case _ => Err(TypeError)
  }

  /** The key of the pair in item j. */
  function KeyAt(items: seq<Json>, j: nat): string
    requires j < |items| && PairOf(items[j], j).Ok?
  {
    PairOf(items[j], j).value.0
  }

  ghost predicate AllPairs(items: seq<Json>) {
    forall j :: 0 <= j < |items| ==> PairOf(items[j], j).Ok?
  }

  /** The pairs of a prefix are those of the whole list at the same places. */
  lemma PrefixPairs(items: seq<Json>, n: nat)
    requires n <= |items| && AllPairs(items)
    ensures AllPairs(items[..n])
    ensures forall j :: 0 <= j < n ==> PairOf(items[..n][j], j) == PairOf(items[j], j)
  {
  }

  /** When every item is a pair, the merge succeeds, and its keys are exactly
      the pairs' keys. */
  lemma {:induction false} UpdatePairsKeys(items: seq<Json>)
    requires AllPairs(items)
    ensures UpdatePairs(items).Ok?
    ensures forall k :: k in UpdatePairs(items).value <==> exists j :: 0 <= j < |items| && KeyAt(items, j) == k
    decreases |items|
  {
    if items != [] {
      var n := |items| - 1;
      var init := items[..n];
      PrefixPairs(items, n);
      UpdatePairsKeys(init);
      var m := UpdatePairs(init).value;
      var r := UpdatePairs(items).value;
      assert r == m[KeyAt(items, n) := PairOf(items[n], n).value.1];
      forall k ensures k in r <==> exists j :: 0 <= j < |items| && KeyAt(items, j) == k {
        if k in r && k != KeyAt(items, n) {
          var j :| 0 <= j < n && KeyAt(init, j) == k;
          assert KeyAt(items, j) == k;
        }
        if k !in r {
          forall j | 0 <= j < |items| ensures KeyAt(items, j) != k {
            if j < n { assert KeyAt(init, j) == KeyAt(items, j); }
          }
        }
      }
    }
  }

  /** When every item is a pair, each key holds the value of the last pair
      with that key. */
  lemma {:induction false} UpdatePairsLastWins(items: seq<Json>, j: nat)
    requires AllPairs(items) && j < |items|
    requires forall j' :: j < j' < |items| ==> KeyAt(items, j') != KeyAt(items, j)
    ensures UpdatePairs(items).Ok?
    ensures KeyAt(items, j) in UpdatePairs(items).value
    ensures UpdatePairs(items).value[KeyAt(items, j)] == PairOf(items[j], j).value.1
    decreases |items|
  {
    UpdatePairsKeys(items);
    var n := |items| - 1;
    if j < n {
      var init := items[..n];
      PrefixPairs(items, n);
      forall j' | j < j' < n ensures KeyAt(init, j') != KeyAt(init, j) {
        assert KeyAt(init, j') == KeyAt(items, j');
      }
      UpdatePairsLastWins(init, j);
      assert KeyAt(init, j) == KeyAt(items, j) != KeyAt(items, n);
      assert UpdatePairs(items).value
               == UpdatePairs(init).value[KeyAt(items, n) := PairOf(items[n], n).value.1];
    }
  }

  /** The first element that is not a pair is what dict.update raises on. */
  lemma {:induction false} UpdatePairsFirstBad(items: seq<Json>, i: nat)
    requires i < |items| && PairOf(items[i], i).Err?
    requires AllPairs(items[..i])
    ensures UpdatePairs(items) == Err(PairOf(items[i], i).error)
    decreases |items|
  {
    var n := |items| - 1;
    var init := items[..n];
    if i < n {
      assert init[..i] == items[..i] && init[i] == items[i];
      UpdatePairsFirstBad(init, i);
    } else {
      UpdatePairsKeys(init);
    }
  }

  /** dict.update on non-dict arguments: a two-character string is a pair,
      a bare number is not a sequence, a one-item array has the wrong length,
      and the empty string merges nothing. */
  lemma UpdateArgExamples()
    ensures UpdateArg(JArr([JStr("ab"), JArr([JStr("k"), JNum(1)])])) == Ok(map["a" := JStr("b"), "k" := JNum(1)])
    ensures UpdateArg(JArr([JNum(1)])) == Err(TypeError)
    ensures UpdateArg(JArr([JArr([JNum(1)])])) == Err(LengthError(0, 1))
    ensures UpdateArg(JStr("abc")) == Err(LengthError(0, 1))
    ensures UpdateArg(JStr("")) == Ok(map[])
  {
    var items := [JStr("ab"), JArr([JStr("k"), JNum(1)])];
    var t := "ab";
    assert |t| == 2 && t[..1] == ['a'] && t[1..] == ['b'];
    assert PairOf(JStr(t), 0) == Ok(("a", JStr("b")));
    assert items[..1] == [JStr(t)] && [JStr(t)][..0] == [];
    assert UpdatePairs(items[..1]) == Ok(map["a" := JStr("b")]);
    assert PairOf(items[1], 1) == Ok(("k", JNum(1)));
    assert [JNum(1)][..0] == [];
  }

  /** d1 after the first loop: d['department'][department], or the initial
      empty dict when the config has no "department" key. */
  function DepartmentLevel(d: map<string, Json>, department: string): Result<Json, PyError> {
    if "department" in d then Index(d["department"], department) else Ok(JObj(map[]))
  }

  /** What the first loop writes: every top-level key, with "department"
      replaced by the department argument. */
  function TopLevel(d: map<string, Json>, department: string): map<string, Json> {
    map k | k in d :: if k == "department" then JStr(department) else d[k]
  }

  /** get_flat_dict(d, department, stage) as a function. */
  function FlatDict(d: map<string, Json>, department: string, stage: string): Result<map<string, Json>, PyError> {
    var dep :- DepartmentLevel(d, department);
    var d1 :- Fields(dep);
    var stages :- Index(JObj(d1), "stage");
    var entry :- Index(stages, stage);
    var last :- UpdateArg(entry);
    Ok((TopLevel(d, department) + map k | k in d1 && k != "stage" :: d1[k])["stage" := JStr(stage)] + last)
  }

  /** get_flat_dict: key assignments over the top level, then over the
      department level, then the stage assignment and the merge of the stage
      level. The argument is a value, so it cannot be modified. */
  method GetFlatDict(d: map<string, Json>, department: string, stage: string)
    returns (res: Result<map<string, Json>, PyError>)
    ensures res == FlatDict(d, department, stage)
  {
    var dres, dep := CopyTopLevel(d, department);
    if dep.Err? {
      return Err(dep.error);
    }
    var d1 := dep.value;
    if !d1.JObj? {
      return Err(TypeError);
    }
    var m1 := d1.fields;
    dres := CopyDepartmentLevel(dres, m1);
    assert dres == TopLevel(d, department) + map k | k in m1 && k != "stage" :: m1[k];
    dres := dres["stage" := JStr(stage)];
    if "stage" !in m1 {
      return Err(KeyError("stage"));
    }
    match m1["stage"] {
      case JObj(sm) =>
        if stage !in sm {
          return Err(KeyError(stage));
        }
        var last := UpdateArg(sm[stage]);
        if last.Err? {
          return Err(last.error);
        }
        res := Ok(dres + last.value);
      case _ =>
        res := Err(TypeError);
    }
  }

  /** The first loop of get_flat_dict: copy the top-level keys, put the
      department argument under "department", and pick the department level. */
  method CopyTopLevel(d: map<string, Json>, department: string)
    returns (dres: map<string, Json>, dep: Result<Json, PyError>)
    ensures dep == DepartmentLevel(d, department)
    ensures dep.Ok? ==> dres == TopLevel(d, department)
  {
    dres := map[];
    var d1: Json := JObj(map[]);
    var todo := d.Keys;
    while todo != {}
      invariant todo <= d.Keys
      invariant dres == map k | k in d.Keys - todo :: if k == "department" then JStr(department) else d[k]
      invariant "department" in d.Keys - todo ==> DepartmentLevel(d, department) == Ok(d1)
      invariant "department" !in d.Keys - todo ==> d1 == JObj(map[])
      decreases |todo|
    {
      var k :| k in todo;
      if k != "department" {
        dres := dres[k := d[k]];
      } else {
        dres := dres["department" := JStr(department)];
        match d["department"] {
          case JObj(m) =>
            if department !in m {
              return dres, Err(KeyError(department));
            }
            d1 := m[department];
          case _ =>
            return dres, Err(TypeError);
        }
      }
      todo := todo - {k};
    }
    assert d.Keys - todo == d.Keys;
    dep := Ok(d1);
  }

  /** The second loop of get_flat_dict: every department key other than
      "stage" overrides the value written so far. */
  method CopyDepartmentLevel(top: map<string, Json>, m1: map<string, Json>) returns (dres: map<string, Json>)
    ensures dres.Keys == top.Keys + (m1.Keys - {"stage"})
    ensures forall k :: k in dres ==> dres[k] == if k in m1 && k != "stage" then m1[k] else top[k]
  {
    dres := top;
    var rest := m1.Keys;
    while rest != {}
      invariant rest <= m1.Keys
      invariant dres.Keys == top.Keys + (m1.Keys - rest - {"stage"})
      invariant forall k :: k in dres ==> dres[k] == if k in m1.Keys - rest && k != "stage" then m1[k] else top[k]
      decreases |rest|
    {
      var st :| st in rest;
      if st != "stage" {
        dres := dres[st := m1[st]];
      }
      rest := rest - {st};
    }
  }

  /** The config has both levels: d['department'][department] is the object
      d1, and d1['stage'][stage] is the value e. */
  ghost predicate HasEntry(d: map<string, Json>, department: string, stage: string,
                           d1: map<string, Json>, e: Json) {
    && "department" in d && d["department"].JObj?
    && department in d["department"].fields && d["department"].fields[department] == JObj(d1)
    && "stage" in d1 && d1["stage"].JObj?
    && stage in d1["stage"].fields && d1["stage"].fields[stage] == e
  }

  /** Both levels, with the stage level the object sl. */
  ghost predicate Levels(d: map<string, Json>, department: string, stage: string,
                         d1: map<string, Json>, sl: map<string, Json>) {
    HasEntry(d, department, stage, d1, JObj(sl))
  }

  /** With both levels present the flattening succeeds; its keys are the top
      keys, the department keys other than "stage", "stage" and the stage
      keys; and each value comes from the lowest level that has the key: the
      stage level, then "stage" itself, then the department level, then the
      department argument, then the top level. */
  lemma FlatDictLevels(d: map<string, Json>, department: string, stage: string,
                       d1: map<string, Json>, sl: map<string, Json>)
    requires Levels(d, department, stage, d1, sl)
    ensures FlatDict(d, department, stage).Ok?
    ensures var r := FlatDict(d, department, stage).value;
      && r.Keys == d.Keys + (d1.Keys - {"stage"}) + {"stage"} + sl.Keys
      && forall k :: k in r ==>
           r[k] == if k in sl then sl[k]
                   else if k == "stage" then JStr(stage)
                   else if k in d1 then d1[k]
                   else if k == "department" then JStr(department)
                   else d[k]
  {
  }

  /** Every department and stage key ends up in the result (the lower level
      wins), and "department" and "stage" always do. */
  lemma FlatDictKeepsLowerLevels(d: map<string, Json>, department: string, stage: string,
                                 d1: map<string, Json>, sl: map<string, Json>)
    requires Levels(d, department, stage, d1, sl)
    ensures var r := FlatDict(d, department, stage).value;
      && (forall k :: k in sl ==> k in r && r[k] == sl[k])
      && (forall k :: k in d1 && k != "stage" && k !in sl ==> k in r && r[k] == d1[k])
      && "department" in r && "stage" in r
      && ("department" !in d1 && "department" !in sl ==> r["department"] == JStr(department))
      && ("stage" !in sl ==> r["stage"] == JStr(stage))
  {
    FlatDictLevels(d, department, stage, d1, sl);
  }

  /** Without a "department" key, d1 stays the empty dict and the lookup of
      its "stage" fails: the result is never produced. */
  lemma NoDepartmentKeyFails(d: map<string, Json>, department: string, stage: string)
    requires "department" !in d
    ensures FlatDict(d, department, stage) == Err(KeyError("stage"))
  {
  }

  /** A department the config does not list is a KeyError. */
  lemma UnknownDepartmentFails(d: map<string, Json>, department: string, stage: string)
    requires "department" in d && d["department"].JObj? && department !in d["department"].fields
    ensures FlatDict(d, department, stage) == Err(KeyError(department))
  {
  }

  /** A stage the department does not list is a KeyError. */
  lemma UnknownStageFails(d: map<string, Json>, department: string, stage: string, d1: map<string, Json>)
    requires "department" in d && d["department"].JObj?
    requires department in d["department"].fields && d["department"].fields[department] == JObj(d1)
    requires "stage" in d1 && d1["stage"].JObj? && stage !in d1["stage"].fields
    ensures FlatDict(d, department, stage) == Err(KeyError(stage))
  {
  }

  /** Every success comes from a config that has both levels, with a stage
      entry that dict.update accepts, and the result is the upper levels
      overridden by what that entry merges. */
  lemma FlatDictOkHasLevels(d: map<string, Json>, department: string, stage: string)
    requires FlatDict(d, department, stage).Ok?
    ensures "department" in d && d["department"].JObj? && department in d["department"].fields
    ensures var d1 := d["department"].fields[department];
            && d1.JObj? && "stage" in d1.fields && d1.fields["stage"].JObj? && stage in d1.fields["stage"].fields
            && var e := d1.fields["stage"].fields[stage];
            && HasEntry(d, department, stage, d1.fields, e)
            && UpdateArg(e).Ok?
            && FlatDict(d, department, stage).value
                 == (TopLevel(d, department) + map k | k in d1.fields && k != "stage" :: d1.fields[k])["stage" := JStr(stage)]
                    + UpdateArg(e).value
  {
  }

  /** A string stage entry merges nothing when it is empty and raises the
      ValueError of its first character otherwise. */
  lemma StringStageEntry(d: map<string, Json>, department: string, stage: string,
                         d1: map<string, Json>, t: string)
    requires HasEntry(d, department, stage, d1, JStr(t))
    ensures t == "" ==> FlatDict(d, department, stage)
                          == Ok((TopLevel(d, department) + map k | k in d1 && k != "stage" :: d1[k])["stage" := JStr(stage)])
    ensures t != "" ==> FlatDict(d, department, stage) == Err(LengthError(0, 1))
  {
    if t == "" {
      var top := (TopLevel(d, department) + map k | k in d1 && k != "stage" :: d1[k])["stage" := JStr(stage)];
      assert top + map[] == top;
    }
  }
}

/** Values shared by every module: optional values, results that carry the
    Python exception a statement would raise, and the sum of a map's values. */
module Base {

  datatype Option<T> = None | Some(value: T)

  /** The Python exceptions the modelled code can raise. */
  datatype PyError =
    | KeyError(key: string)       // d[k] with k missing
    | ValueError(text: string)    // int(text) on a non-number, or an explicit raise
    | TypeError                   // indexing or iterating a value of the wrong kind
    | ZeroDivisionError           // x * 100 / 0
    | NameError(name: string)     // a call of a name the module does not define

  datatype Result<T, E> = Ok(value: T) | Err(error: E) {
    predicate IsFailure() { Err? }

    function PropagateFailure<U>(): Result<U, E>
      requires Err?
    {
      Err(error)
    }

    function Extract(): T
      requires Ok?
    {
      value
    }
  }

  /** An arbitrary key of a non-empty key set; the same set always gives the same key. */
  ghost function Pick(keys: set<string>): string
    requires keys != {}
  {
    var k :| k in keys; k
  }

  /** Python's sum(m.values()). */
  ghost function Sum(m: map<string, nat>): nat
    decreases |m.Keys|
  {
    if m.Keys == {} then 0
    else
      var k := Pick(m.Keys);
      assert (m - {k}).Keys == m.Keys - {k};
      m[k] + Sum(m - {k})
  }

  /** The sum does not depend on which key is taken out first. */
  lemma {:induction false} SumPick(m: map<string, nat>, k: string)
    requires k in m
    ensures Sum(m) == m[k] + Sum(m - {k})
    decreases |m.Keys|
  {
    var k' := Pick(m.Keys);
    assert (m - {k'}).Keys == m.Keys - {k'};
    if k' != k {
      var m1 := m - {k'};
      var m2 := m - {k};
      assert m2.Keys == m.Keys - {k};
      SumPick(m1, k);
      SumPick(m2, k');
      assert m1 - {k} == m2 - {k'};
    }
  }

  /** Adding a new key adds its value to the sum. */
  lemma SumAdd(m: map<string, nat>, k: string, v: nat)
    requires k !in m
    ensures Sum(m[k := v]) == Sum(m) + v
  {
    SumPick(m[k := v], k);
    assert m[k := v] - {k} == m;
  }

  /** No single value exceeds the sum. */
  lemma SumBound(m: map<string, nat>, k: string)
    requires k in m
    ensures m[k] <= Sum(m)
  {
    SumPick(m, k);
  }
}

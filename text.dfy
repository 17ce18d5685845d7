/** The parts of Python's str behaviour the scripts rely on: startswith,
    slicing, rstrip, split() on whitespace, int() on decimal text, and the
    code-point order that sorted() uses. */
module Text {
  import opened Base

  function Min(a: int, b: int): int { if a <= b then a else b }

  /** s.startswith(p) */
  predicate StartsWith(s: string, p: string) {
    |p| <= |s| && s[..|p|] == p
  }

  /** s[i:j] for non-negative bounds: Python clamps both bounds to len(s). */
  function Slice(s: string, i: nat, j: nat): (r: string)
    ensures |r| == if Min(j, |s|) <= i then 0 else Min(j, |s|) - i
    ensures forall k :: 0 <= k < |r| ==> r[k] == s[i + k]
  {
    if Min(j, |s|) <= i then "" else s[i..Min(j, |s|)]
  }

  /** s.rstrip(c) for a single character c: every trailing c is removed. */
  function RStrip(s: string, c: char): (r: string)
    ensures r <= s
    ensures |r| > 0 ==> r[|r| - 1] != c
    ensures forall i :: |r| <= i < |s| ==> s[i] == c
  {
    if |s| > 0 && s[|s| - 1] == c then RStrip(s[..|s| - 1], c) else s
  }

  /** The characters str.split() with no argument treats as separators. */
  predicate IsSpace(c: char) {
    ('\t' <= c <= '\r') || ('\U{1C}' <= c <= '\U{1F}') || c == ' '
    || c == '\U{85}' || c == '\U{A0}' || c == '\U{1680}'
    || ('\U{2000}' <= c <= '\U{200A}') || c == '\U{2028}' || c == '\U{2029}'
    || c == '\U{202F}' || c == '\U{205F}' || c == '\U{3000}'
  }

  /** A token of str.split(): non-empty and free of separators. */
  predicate IsWord(w: string) {
    w != "" && forall i :: 0 <= i < |w| ==> !IsSpace(w[i])
  }

  /** Length of the leading run of non-separator characters. */
  function TokenLen(s: string): (n: nat)
    ensures n <= |s|
    ensures forall i :: 0 <= i < n ==> !IsSpace(s[i])
    ensures n < |s| ==> IsSpace(s[n])
  {
    if |s| == 0 || IsSpace(s[0]) then 0 else 1 + TokenLen(s[1..])
  }

  /** s.split(): the maximal runs of non-separator characters, in order. */
  function Words(s: string): (ws: seq<string>)
    ensures forall k :: 0 <= k < |ws| ==> IsWord(ws[k])
    decreases |s|
  {
    if |s| == 0 then []
    else if IsSpace(s[0]) then Words(s[1..])
    else
      var n := TokenLen(s);
      [s[..n]] + Words(s[n..])
  }

  /** s with every separator removed. */
  function NonSpace(s: string): string {
    if |s| == 0 then "" else (if IsSpace(s[0]) then "" else [s[0]]) + NonSpace(s[1..])
  }

  function Concat(ws: seq<string>): string {
    if ws == [] then "" else ws[0] + Concat(ws[1..])
  }

  /** ' '.join(ws) */
  function Join(ws: seq<string>): string {
    if ws == [] then "" else if |ws| == 1 then ws[0] else ws[0] + " " + Join(ws[1..])
  }

  lemma {:induction false} NonSpaceAppend(a: string, b: string)
    ensures NonSpace(a + b) == NonSpace(a) + NonSpace(b)
    decreases |a|
  {
    if |a| > 0 {
      assert (a + b)[1..] == a[1..] + b;
      NonSpaceAppend(a[1..], b);
    } else {
      assert a + b == b;
    }
  }

  lemma {:induction false} NonSpaceOfWord(w: string)
    requires forall i :: 0 <= i < |w| ==> !IsSpace(w[i])
    ensures NonSpace(w) == w
    decreases |w|
  {
    if |w| > 0 {
      NonSpaceOfWord(w[1..]);
      assert w == [w[0]] + w[1..];
    }
  }

  /** Splitting loses exactly the separators: the words, put back together,
      are the input without its whitespace. */
  lemma {:induction false} WordsKeepNonSpace(s: string)
    ensures Concat(Words(s)) == NonSpace(s)
    decreases |s|
  {
    if |s| > 0 {
      if IsSpace(s[0]) {
        WordsKeepNonSpace(s[1..]);
      } else {
        var n := TokenLen(s);
        WordsKeepNonSpace(s[n..]);
        assert s == s[..n] + s[n..];
        NonSpaceAppend(s[..n], s[n..]);
        NonSpaceOfWord(s[..n]);
        assert Words(s) == [s[..n]] + Words(s[n..]);
        assert ([s[..n]] + Words(s[n..]))[1..] == Words(s[n..]);
      }
    }
  }

  lemma {:induction false} TokenLenOfWord(w: string, rest: string)
    requires forall i :: 0 <= i < |w| ==> !IsSpace(w[i])
    requires rest == "" || IsSpace(rest[0])
    ensures TokenLen(w + rest) == |w|
    decreases |w|
  {
    if |w| > 0 {
      assert (w + rest)[1..] == w[1..] + rest;
      TokenLenOfWord(w[1..], rest);
    } else {
      assert w + rest == rest;
    }
  }

  lemma {:induction false} WordsOfWordThen(w: string, rest: string)
    requires IsWord(w)
    requires rest == "" || IsSpace(rest[0])
    ensures Words(w + rest) == [w] + Words(rest)
  {
    var s := w + rest;
    TokenLenOfWord(w, rest);
    assert s[..|w|] == w;
    assert s[|w|..] == rest;
  }

  lemma ConcatAssoc<T>(x: seq<T>, y: seq<T>, z: seq<T>)
    ensures (x + y) + z == x + (y + z)
  {
  }

  lemma ConcatTail<T>(a: seq<T>, t: seq<T>)
    requires |a| > 0
    ensures (a + t)[0] == a[0] && (a + t)[1..] == a[1..] + t
  {
  }

  lemma ConcatEmpty<T>(a: seq<T>, t: seq<T>)
    requires |a| == 0
    ensures a + t == t
  {
  }

  lemma SliceJoin<T>(x: seq<T>, n: nat)
    requires n <= |x|
    ensures x[..n] + x[n..] == x
  {
  }

  /** The leading token of a text that starts with a non-separator is a
      word, followed by the end of the text or by a separator. */
  lemma LeadingToken(a: string)
    requires |a| > 0 && !IsSpace(a[0])
    ensures var n := TokenLen(a);
            IsWord(a[..n]) && (n == |a| || IsSpace(a[n..][0]))
  {
    var n := TokenLen(a);
    assert n > 0;
    forall i | 0 <= i < n ensures !IsSpace(a[..n][i]) { assert a[..n][i] == a[i]; }
  }

  /** The step of WordsSplitAt for a leading word w of a = w + tail. */
  lemma WordsSplitAfterWord(w: string, tail: string, t: string)
    requires IsWord(w) && (tail == "" || IsSpace(tail[0]))
    requires |t| > 0 && IsSpace(t[0])
    requires Words(tail + t) == Words(tail) + Words(t[1..])
    ensures Words((w + tail) + t) == Words(w + tail) + Words(t[1..])
  {
    ConcatAssoc(w, tail, t);
    assert IsSpace((tail + t)[0]);
    WordsOfWordThen(w, tail + t);
    WordsOfWordThen(w, tail);
    ConcatAssoc([w], Words(tail), Words(t[1..]));
  }

  /** The step of WordsSplitAt for a leading separator of a. */
  lemma WordsSplitAfterSpace(a: string, t: string)
    requires |a| > 0 && IsSpace(a[0]) && |t| > 0
    requires Words(a[1..] + t) == Words(a[1..]) + Words(t[1..])
    ensures Words(a + t) == Words(a) + Words(t[1..])
  {
    var x := a + t;
    ConcatTail(a, t);
    assert Words(x) == Words(x[1..]);
    assert Words(a) == Words(a[1..]);
  }

  /** Every separator breaks the text: the tokens of a + t, for a t that
      starts with a separator, are those of a followed by those of the rest
      of t. With WordsOfWordThen this fixes split() completely. */
  lemma {:induction false} WordsSplitAt(a: string, t: string)
    requires |t| > 0 && IsSpace(t[0])
    ensures Words(a + t) == Words(a) + Words(t[1..])
    decreases |a|
  {
    if |a| == 0 {
      ConcatEmpty(a, t);
      assert Words(t) == Words(t[1..]);
    } else if IsSpace(a[0]) {
      WordsSplitAt(a[1..], t);
      WordsSplitAfterSpace(a, t);
    } else {
      var n := TokenLen(a);
      var w, tail := a[..n], a[n..];
      LeadingToken(a);
      WordsSplitAt(tail, t);
      WordsSplitAfterWord(w, tail, t);
      SliceJoin(a, n);
    }
  }

  /** The same for one separator c between a and b. */
  lemma WordsSplitAtSpace(a: string, c: char, b: string)
    requires IsSpace(c)
    ensures Words(a + [c] + b) == Words(a) + Words(b)
  {
    assert a + [c] + b == a + ([c] + b);
    assert ([c] + b)[1..] == b;
    WordsSplitAt(a, [c] + b);
  }

  /** Round trip: splitting words joined by single spaces gives the words back. */
  lemma {:induction false} WordsOfJoin(ws: seq<string>)
    requires forall k :: 0 <= k < |ws| ==> IsWord(ws[k])
    ensures Words(Join(ws)) == ws
    decreases |ws|
  {
    if |ws| == 1 {
      WordsOfWordThen(ws[0], "");
      assert ws[0] + "" == ws[0];
    } else if |ws| > 1 {
      var rest := " " + Join(ws[1..]);
      assert Join(ws) == ws[0] + rest;
      WordsOfWordThen(ws[0], rest);
      assert Words(rest) == Words(Join(ws[1..])) by {
        assert rest[1..] == Join(ws[1..]);
      }
      WordsOfJoin(ws[1..]);
    }
  }

  // ---- int(text) ----

  predicate IsDigit(c: char) { '0' <= c <= '9' }

  predicate AllDigits(s: string) { forall i :: 0 <= i < |s| ==> IsDigit(s[i]) }

  function DigitsValue(s: string): nat
    requires AllDigits(s)
  {
    if |s| == 0 then 0
    else DigitsValue(s[..|s| - 1]) * 10 + (s[|s| - 1] as int - '0' as int)
  }

  predicate HasSign(s: string) { |s| > 0 && (s[0] == '+' || s[0] == '-') }

  /** The text int() accepts here: an optional sign, then one or more ASCII
      digits. */
  predicate IsDecimal(s: string) {
    var start := if HasSign(s) then 1 else 0;
    start < |s| && forall i :: start <= i < |s| ==> IsDigit(s[i])
  }

  /** The digits of a decimal text, after its sign. */
  function Magnitude(s: string): string {
    if HasSign(s) then s[1..] else s
  }

  /** Leading zeros dropped, the last digit always kept. */
  function StripZeros(t: string): (r: string)
    ensures |r| <= |t| && (|t| > 0 ==> |r| > 0)
  {
    if |t| > 1 && t[0] == '0' then StripZeros(t[1..]) else t
  }

  function Abs(n: int): nat { if n < 0 then -n else n }

  /** int(s) for an optional sign followed by decimal digits; anything else
      raises ValueError. */
  function ParseInt(s: string): (r: Result<int, PyError>)
    ensures r.Ok? <==> IsDecimal(s)
    ensures r.Err? ==> r == Err(ValueError(s))
    ensures r.Ok? && r.value < 0 ==> |s| > 0 && s[0] == '-'
  {
    var signed := |s| > 0 && (s[0] == '-' || s[0] == '+');
    var body := if signed then s[1..] else s;
    if |body| > 0 && AllDigits(body) then
      var v: int := DigitsValue(body);
      Ok(if signed && s[0] == '-' then -v else v)
    else
      Err(ValueError(s))
  }

  /** The decimal spelling of n, as str(n) writes it. */
  function NatDigits(n: nat): (s: string)
    ensures |s| > 0 && AllDigits(s)
  {
    if n < 10 then [('0' as int + n) as char]
    else NatDigits(n / 10) + [('0' as int + n % 10) as char]
  }

  function IntToString(n: int): string {
    if n < 0 then "-" + NatDigits(-n) else NatDigits(n)
  }

  lemma {:induction false} DigitsValueOfNatDigits(n: nat)
    ensures DigitsValue(NatDigits(n)) == n
  {
    if n >= 10 {
      var s := NatDigits(n);
      assert s[..|s| - 1] == NatDigits(n / 10);
      DigitsValueOfNatDigits(n / 10);
    }
  }

  /** int(str(n)) == n for every integer n. */
  lemma ParseIntOfIntToString(n: int)
    ensures ParseInt(IntToString(n)) == Ok(n)
  {
    if n < 0 {
      var s := IntToString(n);
      DigitsValueOfNatDigits(-n);
      assert s[0] == '-' && s[1..] == NatDigits(-n);
    } else {
      var s := NatDigits(n);
      DigitsValueOfNatDigits(n);
      assert IsDigit(s[0]);
    }
  }

  lemma {:induction false} ZeroThenValue(t: string)
    requires AllDigits(t)
    ensures AllDigits("0" + t) && DigitsValue("0" + t) == DigitsValue(t)
    decreases |t|
  {
    var u := "0" + t;
    assert AllDigits(u) by {
      forall i | 0 <= i < |u| ensures IsDigit(u[i]) {
        if i > 0 { assert u[i] == t[i - 1]; }
      }
    }
    if |t| > 0 {
      var t' := t[..|t| - 1];
      assert u[..|u| - 1] == "0" + t';
      ZeroThenValue(t');
    }
  }

  lemma {:induction false} StripZerosValue(t: string)
    requires AllDigits(t)
    ensures AllDigits(StripZeros(t)) && DigitsValue(StripZeros(t)) == DigitsValue(t)
    ensures |StripZeros(t)| > 1 ==> StripZeros(t)[0] != '0'
    decreases |t|
  {
    if |t| > 1 && t[0] == '0' {
      assert t == "0" + t[1..];
      ZeroThenValue(t[1..]);
      StripZerosValue(t[1..]);
    }
  }

  /** Digits without a leading zero are the spelling str() gives their value. */
  lemma {:induction false} CanonicalDigits(t: string)
    requires |t| > 0 && AllDigits(t) && (|t| > 1 ==> t[0] != '0')
    ensures NatDigits(DigitsValue(t)) == t
    decreases |t|
  {
    var n := DigitsValue(t);
    var d := t[|t| - 1] as int - '0' as int;
    if |t| == 1 {
      assert t[..|t| - 1] == [];
      assert DigitsValue(t[..|t| - 1]) == 0;
    } else {
      var t' := t[..|t| - 1];
      assert t'[0] == t[0];
      CanonicalDigits(t');
      var m := DigitsValue(t');
      assert n == m * 10 + d && 0 <= d < 10;
      assert n / 10 == m && n % 10 == d;
      assert t == t' + [t[|t| - 1]];
    }
  }

  /** What int() returns: its absolute value is spelled by str() as the
      digits with leading zeros dropped, and the sign is the text's. */
  lemma ParseIntValue(s: string)
    requires IsDecimal(s)
    ensures ParseInt(s).Ok?
    ensures NatDigits(Abs(ParseInt(s).value)) == StripZeros(Magnitude(s))
    ensures s[0] == '-' ==> ParseInt(s).value <= 0
    ensures s[0] != '-' ==> ParseInt(s).value >= 0
  {
    var body := Magnitude(s);
    assert AllDigits(body) by {
      var start := if HasSign(s) then 1 else 0;
      forall i | 0 <= i < |body| ensures IsDigit(body[i]) {
        assert body[i] == s[start + i];
      }
    }
    StripZerosValue(body);
    CanonicalDigits(StripZeros(body));
  }

  // ---- the order of sorted() on str ----

  /** a < b on Python strings: code points compared left to right, a proper
      prefix first. */
  predicate LexLess(a: string, b: string)
    decreases |a|
  {
    if |a| == 0 then |b| > 0
    else if |b| == 0 then false
    else if a[0] != b[0] then a[0] < b[0]
    else LexLess(a[1..], b[1..])
  }

  lemma {:induction false} LexIrreflexive(a: string)
    ensures !LexLess(a, a)
    decreases |a|
  {
    if |a| > 0 { LexIrreflexive(a[1..]); }
  }

  lemma {:induction false} LexTransitive(a: string, b: string, c: string)
    requires LexLess(a, b) && LexLess(b, c)
    ensures LexLess(a, c)
    decreases |a|
  {
    if |a| > 0 && a[0] == b[0] && b[0] == c[0] {
      LexTransitive(a[1..], b[1..], c[1..]);
    }
  }

  lemma {:induction false} LexTotal(a: string, b: string)
    requires a != b
    ensures LexLess(a, b) || LexLess(b, a)
    decreases |a|
  {
    if |a| > 0 && |b| > 0 && a[0] == b[0] {
      assert a == [a[0]] + a[1..];
      assert b == [b[0]] + b[1..];
      LexTotal(a[1..], b[1..]);
    }
  }

  lemma LexAsymmetric(a: string, b: string)
    requires LexLess(a, b)
    ensures !LexLess(b, a)
  {
    if LexLess(b, a) {
      LexTransitive(a, b, a);
      LexIrreflexive(a);
    }
  }

  predicate StrictlySorted(xs: seq<string>) {
    forall i, j :: 0 <= i < j < |xs| ==> LexLess(xs[i], xs[j])
  }

  /** Inserts x at its place in a strictly sorted sequence. */
  function Insert(x: string, xs: seq<string>): (r: seq<string>)
    requires StrictlySorted(xs) && x !in xs
    ensures StrictlySorted(r)
    ensures forall y :: y in r <==> y == x || y in xs
  {
    if xs == [] then [x]
    else if LexLess(x, xs[0]) then
      assert forall j :: 0 <= j < |xs| ==> LexLess(x, xs[j]) by {
        forall j | 0 < j < |xs| { LexTransitive(x, xs[0], xs[j]); }
      }
      [x] + xs
    else
      LexTotal(x, xs[0]);
      var rest := Insert(x, xs[1..]);
      assert forall y :: y in rest ==> LexLess(xs[0], y);
      [xs[0]] + rest
  }

  /** sorted(s) for a set of strings. */
  method SortedStrings(s: set<string>) returns (r: seq<string>)
    ensures StrictlySorted(r)
    ensures forall y :: y in r <==> y in s
  {
    r := [];
    var todo := s;
    while todo != {}
      invariant todo <= s
      invariant StrictlySorted(r)
      invariant forall y :: y in r <==> y in s && y !in todo
      decreases |todo|
    {
      var x :| x in todo;
      r := Insert(x, r);
      todo := todo - {x};
    }
  }

  /** Strict sortedness and the element set determine the sequence. */
  lemma {:induction false} SortedUnique(a: seq<string>, b: seq<string>)
    requires StrictlySorted(a) && StrictlySorted(b)
    requires forall y :: y in a <==> y in b
    ensures a == b
    decreases |a|
  {
    if a != [] && b != [] {
      if a[0] != b[0] {
        assert b[0] in a;
        assert a[0] in b;
        var i :| 0 <= i < |a| && a[i] == b[0];
        var j :| 0 <= j < |b| && b[j] == a[0];
        LexIrreflexive(a[0]);
        LexIrreflexive(b[0]);
        assert LexLess(a[0], b[0]);
        assert LexLess(b[0], a[0]);
        LexAsymmetric(a[0], b[0]);
      }
      forall y ensures y in a[1..] <==> y in b[1..] {
        if y in a[1..] {
          var i :| 1 <= i < |a| && a[i] == y;
          LexIrreflexive(y);
          assert y != a[0];
        }
        if y in b[1..] {
          var i :| 1 <= i < |b| && b[i] == y;
          LexIrreflexive(y);
          assert y != b[0];
        }
        if y in a && y != a[0] {
          var i :| 0 <= i < |a| && a[i] == y;
          assert i > 0;
        }
        if y in b && y != b[0] {
          var i :| 0 <= i < |b| && b[i] == y;
          assert i > 0;
        }
      }
      SortedUnique(a[1..], b[1..]);
      assert a == [a[0]] + a[1..];
      assert b == [b[0]] + b[1..];
    } else if a != [] {
      HeadIn(a);
      assert false;
    } else if b != [] {
      HeadIn(b);
      assert false;
    }
  }

  lemma HeadIn(xs: seq<string>)
    requires xs != []
    ensures xs[0] in xs
  {
  }
}

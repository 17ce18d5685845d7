/** ProblemName: the three spellings of one contest problem. A configured
    prefix such as "Cmem-" is the base; the label (field `display`, as `label` is a Dafny keyword)
    drops the trailing dashes ("Cmem"); the full name starts as base + department suffix ("Cmem-DPQE")
    and is later moved to whichever spelling the judge data actually uses. */
module ProblemNames {
  import opened Text

  /** update_fullname, as a function of the current full name: keep it when
      the data knows it, otherwise take the base if the data knows it, and
      then the label if the data knows it (so the label wins over the base). */
  function Reconcile(fullname: string, base: string, display: string, allowed: set<string>): (r: string)
    ensures r == fullname || r == base || r == display
    ensures fullname in allowed ==> r == fullname
    ensures fullname !in allowed && display in allowed ==> r == display
    ensures fullname !in allowed && display !in allowed && base in allowed ==> r == base
    ensures fullname !in allowed && display !in allowed && base !in allowed ==> r == fullname
    ensures r in allowed <==> fullname in allowed || base in allowed || display in allowed
  {
    if fullname in allowed then fullname
    else
      var afterBase := if base in allowed then base else fullname;
      if display in allowed then display else afterBase
  }

  /** Updating twice is the same as updating once. */
  lemma ReconcileIdempotent(fullname: string, base: string, display: string, allowed: set<string>)
    ensures var once := Reconcile(fullname, base, display, allowed);
            Reconcile(once, base, display, allowed) == once
  {
  }

  class ProblemName {
    const base: string
    const display: string
    /** The full name given at construction, base + suffix. */
    ghost const initial: string
    var fullname: string

    /** The label is the base without trailing dashes, and the full name is
        always one of the three spellings. */
    ghost predicate Valid()
      reads this
    {
      && display == RStrip(base, '-')
      && (fullname == initial || fullname == base || fullname == display)
    }

    /** ProblemName(label, suffix), where the source calls the base `label` */
    constructor (base: string, suffix: string)
      ensures this.base == base && display == RStrip(base, '-')
      ensures fullname == base + suffix && initial == fullname
      ensures Valid()
    {
      this.base := base;
      display := RStrip(base, '-');
      fullname := base + suffix;
      initial := base + suffix;
    }

    /** update_fullname(allow_set) */
    method UpdateFullname(allowed: set<string>)
      requires Valid()
      modifies this
      ensures Valid()
      ensures fullname == Reconcile(old(fullname), base, display, allowed)
    {
      if fullname in allowed {
        return;
      }
      if base in allowed {
        fullname := base;
      }
      if display in allowed {
        fullname := display;
      }
    }
  }

  /** The label is a prefix of the base, and only dashes are cut off. */
  lemma LabelIsBaseWithoutDashes(p: ProblemName)
    requires p.Valid()
    ensures p.display <= p.base
    ensures forall i :: |p.display| <= i < |p.base| ==> p.base[i] == '-'
    ensures |p.display| > 0 ==> p.display[|p.display| - 1] != '-'
  {
  }

  /** ProblemName.read_names(problem_names, department) */
  method ReadNames(problemNames: string, department: string) returns (probs: seq<ProblemName>)
    ensures |probs| == |Words(problemNames)|
    ensures forall i :: 0 <= i < |probs| ==>
              fresh(probs[i]) && probs[i].Valid()
              && probs[i].base == Words(problemNames)[i]
              && probs[i].fullname == Words(problemNames)[i] + department
  {
    var words := Words(problemNames);
    probs := [];
    var i := 0;
    while i < |words|
      invariant 0 <= i <= |words|
      invariant |probs| == i
      invariant forall k :: 0 <= k < i ==>
                  fresh(probs[k]) && probs[k].Valid()
                  && probs[k].base == words[k] && probs[k].fullname == words[k] + department
    {
      var p := new ProblemName(words[i], department);
      probs := probs + [p];
      i := i + 1;
    }
  }
}

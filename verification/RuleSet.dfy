/** Rule authoring: the static shape of a rule set, judged once
    (src/inplace.rs). */
module RuleSet {
  import opened Wire
  import opened Paths
  import opened InPlace
  import A = Admission
  import Layers

  datatype RuleError =
    | TooManyRules(count: nat)
    | PathTooLong(rule: nat)
    | Shape(breach: A.ShapeBreach, rule: nat)
    | OversizeValue(rule: nat)
    | DuplicatePath(first: nat, second: nat)

  /** A payload no met extent could equal. */
  predicate Oversize(action: Action) {
    || (action.SetPayload? && |action.bytes| > MAX_LEN)
    || (action.ReplaceRecord? && |action.record| > MAX_LEN)
  }

  function PathsOf(rules: seq<Rule>): (paths: seq<Path>)
    ensures |paths| == |rules| && forall k :: 0 <= k < |rules| ==> paths[k] == rules[k].path
  {
    seq(|rules|, i requires 0 <= i < |rules| => rules[i].path)
  }

  predicate LawfulRule(rule: Rule) {
    A.Lawful(rule.path) && !Oversize(rule.action)
  }

  predicate LawfulBefore(rules: seq<Rule>, n: nat) {
    forall k :: 0 <= k < n && k < |rules| ==> LawfulRule(rules[k])
  }

  /** Every path lawful, every payload in class, every path its own. */
  predicate AdmissibleRules(rules: seq<Rule>) {
    |rules| <= 0xFFFF && LawfulBefore(rules, |rules|)
    && forall i, j :: 0 <= i < j < |rules| ==> rules[i].path != rules[j].path
  }

  /** The error a refusal must name: per rule, length before shape before
      payload class; duplicates only once every rule stands alone. */
  predicate FirstRuleError(rules: seq<Rule>, error: RuleError) {
    match error
    case TooManyRules(count) => count == |rules| > 0xFFFF
    case PathTooLong(r) => |rules| <= 0xFFFF && r < |rules| && LawfulBefore(rules, r) && |rules[r].path| > 0xFFFF
    case Shape(breach, r) =>
      |rules| <= 0xFFFF && r < |rules| && LawfulBefore(rules, r)
      && |rules[r].path| <= 0xFFFF && A.FirstBreach(rules[r].path, breach)
    case OversizeValue(r) =>
      |rules| <= 0xFFFF && r < |rules| && LawfulBefore(rules, r) && A.Lawful(rules[r].path) && Oversize(rules[r].action)
    case DuplicatePath(i, j) =>
      |rules| <= 0xFFFF && LawfulBefore(rules, |rules|) && i < j < |rules| && rules[i].path == rules[j].path
      && A.NoDuplicateBefore(PathsOf(rules), i, j)
  }

  method Judge(rules: seq<Rule>) returns (error: Option<RuleError>)
    ensures error.None? <==> AdmissibleRules(rules)
    ensures error.Some? ==> FirstRuleError(rules, error.value)
  {
    hide A.WellShaped, A.FirstBreach;
    if |rules| > 0xFFFF {
      return Some(TooManyRules(|rules|));
    }
    var index := 0;
    while index < |rules|
      invariant 0 <= index <= |rules| && LawfulBefore(rules, index)
    {
      var fault := JudgeOne(rules[index], index);
      if fault.Some? {
        assert !LawfulRule(rules[index]);
        return fault;
      }
      index := index + 1;
    }
    error := FirstDuplicate(rules);
  }

  method JudgeOne(rule: Rule, index: nat) returns (error: Option<RuleError>)
    ensures error.None? <==> LawfulRule(rule)
    ensures match error
            case None => true
            case Some(e) =>
              || (e == PathTooLong(index) && |rule.path| > 0xFFFF)
              || (e.Shape? && e.rule == index && |rule.path| <= 0xFFFF && A.FirstBreach(rule.path, e.breach))
              || (e == OversizeValue(index) && A.Lawful(rule.path) && Oversize(rule.action))
  {
    if |rule.path| > 0xFFFF {
      return Some(PathTooLong(index));
    }
    var breach := A.JudgePath(rule.path);
    if breach.Some? {
      return Some(Shape(breach.value, index));
    }
    if Oversize(rule.action) {
      return Some(OversizeValue(index));
    }
    return None;
  }

  method FirstDuplicate(rules: seq<Rule>) returns (error: Option<RuleError>)
    ensures error.None? <==> forall i, j :: 0 <= i < j < |rules| ==> rules[i].path != rules[j].path
    ensures error.Some? ==>
              && error.value.DuplicatePath? && error.value.first < error.value.second < |rules|
              && rules[error.value.first].path == rules[error.value.second].path
              && A.NoDuplicateBefore(PathsOf(rules), error.value.first, error.value.second)
  {
    var first := 0;
    while first < |rules|
      invariant 0 <= first <= |rules| && A.NoDuplicateBefore(PathsOf(rules), first, 0)
    {
      var second := first + 1;
      while second < |rules|
        invariant first < second <= |rules| && A.NoDuplicateBefore(PathsOf(rules), first, second)
      {
        var equal := A.PathsEqual(rules[first].path, rules[second].path);
        if equal {
          assert PathsOf(rules)[first] == PathsOf(rules)[second];
          return Some(DuplicatePath(first, second));
        }
        second := second + 1;
      }
      first := first + 1;
    }
    forall i, j | 0 <= i < j < |rules| ensures rules[i].path != rules[j].path {
      assert PathsOf(rules)[i] != PathsOf(rules)[j];
    }
    return None;
  }

  /** What authoring admits, the matcher and the job take. */
  lemma AdmissibleRulesCompile(rules: seq<Rule>)
    requires AdmissibleRules(rules)
    ensures Layers.Admitted(ProgramOf(rules))
  {
    forall p | 0 <= p < |rules| ensures EndsOnHop(rules[p].path) {
      assert LawfulRule(rules[p]) && A.LawfulSegment(rules[p].path, |rules[p].path| - 1);
    }
  }
}

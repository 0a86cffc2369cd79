/** The rule engine: checks a CAD parameter map against the minimum bounds of an
    ordered rule list and reports one violation record per violated rule. */
module RuleEngine {
  import opened Common

  /** One record of the rule file. `minValue` is `None` when the record has no
      `min_value` key. */
  datatype Rule = Rule(id: string, parameter: string, minValue: Option<real>, message: string)

  /** The record `{rule_id, message, current, required}` appended for a violated rule. */
  datatype Violation = Violation(ruleId: string, message: string, current: real, required: real)

  /** The parameter map of a CAD snapshot. */
  type Parameters = map<string, Value>

  /** The rule's parameter is present but comparing it raises: the rule has no
      `min_value`, or the parameter is a string. */
  predicate Faulty(rule: Rule, params: Parameters)
  {
    rule.parameter in params && (rule.minValue.None? || params[rule.parameter].Text?)
  }

  /** The exception a faulty rule raises; the bound is looked up before the comparison runs. */
  function Fault(rule: Rule): Error
  {
    if rule.minValue.None? then KeyError("min_value") else TypeError
  }

  /** The rule's parameter is present, numeric and strictly below the rule's bound. */
  predicate Violated(rule: Rule, params: Parameters)
  {
    && rule.parameter in params
    && rule.minValue.Some?
    && params[rule.parameter].Num?
    && params[rule.parameter].x < rule.minValue.value
  }

  /** The record reported for a violated rule: its fields are copied from the rule
      and from the parameter map. */
  function ViolationOf(rule: Rule, params: Parameters): Violation
    requires Violated(rule, params)
  {
    Violation(rule.id, rule.message, params[rule.parameter].x, rule.minValue.value)
  }

  /** What one rule contributes: an exception, nothing, or one record. */
  function Check(rule: Rule, params: Parameters): Result<Option<Violation>, Error>
  {
    if Faulty(rule, params) then Failure(Fault(rule))
    else if Violated(rule, params) then Success(Some(ViolationOf(rule, params)))
    else Success(None)
  }

  /** The violations of a rule list, rule by rule in list order; the first rule
      that raises aborts the evaluation with its exception. */
  function Evaluate(rules: seq<Rule>, params: Parameters): (r: Result<seq<Violation>, Error>)
    ensures r.Success? ==> |r.value| <= |rules|
  {
    if |rules| == 0 then Success([])
    else
      match Evaluate(rules[..|rules| - 1], params)
      case Failure(e) => Failure(e)
      case Success(vs) =>
        match Check(rules[|rules| - 1], params)
        case Failure(e) => Failure(e)
        case Success(None) => Success(vs)
        case Success(Some(v)) => Success(vs + [v])
  }

  /** The indices of the violated rules, in increasing order. */
  ghost function Positions(rules: seq<Rule>, params: Parameters): seq<nat>
  {
    if |rules| == 0 then []
    else
      Positions(rules[..|rules| - 1], params)
      + (if Violated(rules[|rules| - 1], params) then [|rules| - 1] else [])
  }

  /** `evaluate_rules`: the loop over the rule list that appends a record for
      every rule whose present parameter is below its `min_value`. */
  method EvaluateRules(rules: seq<Rule>, parameters: Parameters) returns (r: Result<seq<Violation>, Error>)
    ensures r == Evaluate(rules, parameters)
  {
    var violations: seq<Violation> := [];
    for i := 0 to |rules|
      invariant Evaluate(rules[..i], parameters) == Success(violations)
    {
      assert rules[..i + 1][..i] == rules[..i];
      var rule := rules[i];
      var param := rule.parameter;
      if param in parameters {
        if rule.minValue.None? {
          FailureIsFinal(rules, i + 1, parameters);
          return Failure(KeyError("min_value"));
        }
        match parameters[param]
        case Text(_) =>
          FailureIsFinal(rules, i + 1, parameters);
          return Failure(TypeError);
        case Num(current) =>
          if current < rule.minValue.value {
            violations := violations + [Violation(rule.id, rule.message, current, rule.minValue.value)];
          }
      }
    }
    assert rules[..|rules|] == rules;
    return Success(violations);
  }

  /** The positions are the indices of the violated rules, each once, in increasing order. */
  lemma {:induction false} PositionsAreViolatedRules(rules: seq<Rule>, params: Parameters)
    ensures var idx := Positions(rules, params);
      && (forall k :: 0 <= k < |idx| ==> idx[k] < |rules| && Violated(rules[idx[k]], params))
      && (forall k, l :: 0 <= k < l < |idx| ==> idx[k] < idx[l])
      && (forall i :: 0 <= i < |rules| && Violated(rules[i], params) ==> i in idx)
  {
    if |rules| > 0 {
      var n := |rules| - 1;
      var pre := rules[..n];
      PositionsAreViolatedRules(pre, params);
      var idx0, idx := Positions(pre, params), Positions(rules, params);
      assert forall k :: 0 <= k < |idx0| ==> idx0[k] < n && Violated(pre[idx0[k]], params);
      assert forall i :: 0 <= i < n && Violated(pre[i], params) ==> i in idx0;
      assert forall j :: 0 <= j < n ==> pre[j] == rules[j];
      assert idx == idx0 + (if Violated(rules[n], params) then [n] else []);
      forall k | 0 <= k < |idx|
        ensures idx[k] < |rules| && Violated(rules[idx[k]], params)
      {
        if k < |idx0| {
          assert idx[k] == idx0[k] && pre[idx0[k]] == rules[idx0[k]];
        }
      }
      forall k, l | 0 <= k < l < |idx|
        ensures idx[k] < idx[l]
      {
        if l < |idx0| {
          assert idx[k] == idx0[k] && idx[l] == idx0[l];
        } else {
          assert idx[k] == idx0[k] && idx[l] == n;
        }
      }
      forall i | 0 <= i < |rules| && Violated(rules[i], params)
        ensures i in idx
      {
        if i < n {
          assert Violated(pre[i], params);
          assert i in idx0;
        }
      }
    }
  }

  /** A successful evaluation reports one record per position, built from the rule there. */
  lemma {:induction false} EvaluateFollowsPositions(rules: seq<Rule>, params: Parameters)
    requires Evaluate(rules, params).Success?
    ensures var vs, idx := Evaluate(rules, params).value, Positions(rules, params);
      && |vs| == |idx|
      && (forall k :: 0 <= k < |idx| ==>
            idx[k] < |rules| && Violated(rules[idx[k]], params) && vs[k] == ViolationOf(rules[idx[k]], params))
  {
    PositionsAreViolatedRules(rules, params);
    if |rules| > 0 {
      var n := |rules| - 1;
      var pre := rules[..n];
      EvaluateFollowsPositions(pre, params);
      PositionsAreViolatedRules(pre, params);
      var vs0, idx0 := Evaluate(pre, params).value, Positions(pre, params);
      var vs, idx := Evaluate(rules, params).value, Positions(rules, params);
      assert !Faulty(rules[n], params);
      assert idx == idx0 + (if Violated(rules[n], params) then [n] else []);
      assert vs == vs0 + (if Violated(rules[n], params) then [ViolationOf(rules[n], params)] else []);
      forall k | 0 <= k < |idx0|
        ensures vs[k] == ViolationOf(rules[idx[k]], params)
      {
        assert vs[k] == vs0[k] && idx[k] == idx0[k] && pre[idx0[k]] == rules[idx0[k]];
      }
    }
  }

  /** A successful evaluation reports exactly the violated rules, one record each,
      in rule order, with the fields of `ViolationOf`. */
  lemma EvaluateSelectsViolatedRules(rules: seq<Rule>, params: Parameters)
    requires Evaluate(rules, params).Success?
    ensures var vs, idx := Evaluate(rules, params).value, Positions(rules, params);
      && |vs| == |idx|
      && (forall k :: 0 <= k < |idx| ==>
            idx[k] < |rules| && Violated(rules[idx[k]], params) && vs[k] == ViolationOf(rules[idx[k]], params))
      && (forall k, l :: 0 <= k < l < |idx| ==> idx[k] < idx[l])
      && (forall i :: 0 <= i < |rules| && Violated(rules[i], params) ==> i in idx)
  {
    PositionsAreViolatedRules(rules, params);
    EvaluateFollowsPositions(rules, params);
  }

  /** An evaluation fails exactly when some rule is faulty, and then with the
      exception of the first faulty rule. */
  lemma {:induction false} EvaluateFailsAtFirstFaultyRule(rules: seq<Rule>, params: Parameters)
    ensures Evaluate(rules, params).Failure? <==> exists i :: 0 <= i < |rules| && Faulty(rules[i], params)
    ensures Evaluate(rules, params).Failure? ==>
      exists j :: 0 <= j < |rules| && Faulty(rules[j], params)
        && (forall i :: 0 <= i < j ==> !Faulty(rules[i], params))
        && Evaluate(rules, params).error == Fault(rules[j])
  {
    if |rules| > 0 {
      var n := |rules| - 1;
      var pre := rules[..n];
      EvaluateFailsAtFirstFaultyRule(pre, params);
      assert forall j :: 0 <= j < n ==> pre[j] == rules[j];
      if Evaluate(pre, params).Failure? {
        var j :| 0 <= j < n && Faulty(pre[j], params)
          && (forall i :: 0 <= i < j ==> !Faulty(pre[i], params))
          && Evaluate(pre, params).error == Fault(pre[j]);
        assert Faulty(rules[j], params);
      } else if Faulty(rules[n], params) {
        assert forall i :: 0 <= i < n ==> !Faulty(rules[i], params);
      }
    }
  }

  /** Evaluating a concatenation evaluates the first part, then the second. */
  lemma {:induction false} EvaluateConcat(a: seq<Rule>, b: seq<Rule>, params: Parameters)
    ensures Evaluate(a + b, params) ==
      match Evaluate(a, params)
      case Failure(e) => Failure(e)
      case Success(va) =>
        match Evaluate(b, params)
        case Failure(e) => Failure(e)
        case Success(vb) => Success(va + vb)
  {
    if |b| == 0 {
      assert a + b == a;
      if Evaluate(a, params).Success? {
        assert Evaluate(a, params).value + [] == Evaluate(a, params).value;
      }
    } else {
      var b', last := b[..|b| - 1], b[|b| - 1];
      assert (a + b)[..|a + b| - 1] == a + b';
      assert (a + b)[|a + b| - 1] == last;
      EvaluateConcat(a, b', params);
      match Evaluate(a, params)
      case Failure(_) =>
      case Success(va) =>
        match Evaluate(b', params)
        case Failure(_) =>
        case Success(vb) =>
          match Check(last, params)
          case Failure(_) =>
          case Success(None) =>
          case Success(Some(v)) =>
            assert va + (vb + [v]) == (va + vb) + [v];
    }
  }

  /** Once a prefix of the rule list raises, the whole evaluation raises the same exception. */
  lemma FailureIsFinal(rules: seq<Rule>, i: nat, params: Parameters)
    requires i <= |rules| && Evaluate(rules[..i], params).Failure?
    ensures Evaluate(rules, params) == Evaluate(rules[..i], params)
  {
    assert rules[..i] + rules[i..] == rules;
    EvaluateConcat(rules[..i], rules[i..], params);
  }

  /** A rule whose parameter is absent from the map contributes nothing, wherever
      it stands in the list. */
  lemma AbsentRuleContributesNothing(a: seq<Rule>, rule: Rule, b: seq<Rule>, params: Parameters)
    requires rule.parameter !in params
    ensures Evaluate(a + [rule] + b, params) == Evaluate(a + b, params)
  {
    assert [rule][..0] == [];
    EvaluateConcat(a + [rule], b, params);
    EvaluateConcat(a, [rule], params);
    EvaluateConcat(a, b, params);
  }

  /** For one present numeric parameter the rule reports a violation iff the value
      is strictly below the bound: a value equal to the bound complies. */
  lemma SingleRuleThreshold(rule: Rule, params: Parameters)
    requires rule.parameter in params && rule.minValue.Some? && params[rule.parameter].Num?
    ensures var x, bound := params[rule.parameter].x, rule.minValue.value;
      Evaluate([rule], params) ==
        if x < bound then Success([Violation(rule.id, rule.message, x, bound)]) else Success([])
  {
    assert [rule][..0] == [];
    assert Evaluate([], params) == Success([]);
    assert !Faulty(rule, params);
    if Violated(rule, params) {
      assert Evaluate([rule], params) == Success([] + [ViolationOf(rule, params)]);
      assert [] + [ViolationOf(rule, params)] == [ViolationOf(rule, params)];
    }
  }

  /** No rules, or no parameters, give no violations. */
  lemma {:induction false} EmptyInputsGiveNoViolations(rules: seq<Rule>, params: Parameters)
    requires rules == [] || params == map[]
    ensures Evaluate(rules, params) == Success([])
  {
    if |rules| > 0 {
      EmptyInputsGiveNoViolations(rules[..|rules| - 1], params);
    }
  }
}

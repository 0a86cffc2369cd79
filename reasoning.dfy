/** The analysis endpoint: wraps the rule engine's output into a compliance verdict. */
module Reasoning {
  import opened Common
  import opened RuleEngine

  /** The `cad_snapshot` object of a request; `parameters` is `None` when the key is
      missing. Mass properties are carried but never read. */
  datatype CadSnapshot = CadSnapshot(parameters: Option<Parameters>, massProperties: map<string, real>)

  /** The request body; `cadSnapshot` is `None` when the key is missing. The design
      intent is carried but never read. */
  datatype Payload = Payload(designIntent: map<string, Value>, cadSnapshot: Option<CadSnapshot>)

  /** The response object of the endpoint. */
  datatype Analysis = Analysis(
    compliance: bool,
    riskScore: real,
    violations: seq<Violation>,
    suggestedParameterUpdates: map<string, real>,
    explanation: string)

  const HighRisk: real := 0.8
  const LowRisk: real := 0.2
  const Explanation: string := "Rule-based assessment completed"

  /** The single suggestion made whenever some rule is violated. */
  const FilletSuggestion: map<string, real> := map["fillet_radius_mm" := 2.5]

  /** The parameter map of a request, or the `KeyError` its lookup raises. */
  function RequestParameters(payload: Payload): Result<Parameters, Error>
  {
    match payload.cadSnapshot
    case None => Failure(KeyError("cad_snapshot"))
    case Some(snapshot) =>
      match snapshot.parameters
      case None => Failure(KeyError("parameters"))
      case Some(params) => Success(params)
  }

  /** The response built from a violation list. */
  function Verdict(violations: seq<Violation>): Analysis
  {
    Analysis(
      |violations| == 0,
      if |violations| > 0 then HighRisk else LowRisk,
      violations,
      if |violations| > 0 then FilletSuggestion else map[],
      Explanation)
  }

  /** `analyze`: look up the parameters, run the rule engine over them, and build
      the verdict; any exception raised on the way propagates. */
  function Analyze(rules: seq<Rule>, payload: Payload): (r: Result<Analysis, Error>)
    ensures r.Success? ==> (r.value.compliance <==> r.value.violations == [])
    ensures r.Success? ==> r.value.riskScore in {HighRisk, LowRisk}
  {
    match RequestParameters(payload)
    case Failure(e) => Failure(e)
    case Success(params) =>
      match Evaluate(rules, params)
      case Failure(e) => Failure(e)
      case Success(vs) => Success(Verdict(vs))
  }

  /** A request whose parameters are present succeeds exactly when the rule engine
      does, and then reports the engine's violations unchanged, in order. */
  lemma AnalyzeReportsEngineOutput(rules: seq<Rule>, payload: Payload, params: Parameters)
    requires RequestParameters(payload) == Success(params)
    ensures Analyze(rules, payload).Success? <==> Evaluate(rules, params).Success?
    ensures Analyze(rules, payload).Failure? ==> Analyze(rules, payload).error == Evaluate(rules, params).error
    ensures Analyze(rules, payload).Success? ==> Analyze(rules, payload).value.violations == Evaluate(rules, params).value
    ensures Analyze(rules, payload).Success? ==> Analyze(rules, payload).value.explanation == Explanation
  {
  }

  /** A request without `cad_snapshot`, or without its `parameters`, raises a `KeyError`
      for that key. */
  lemma MissingKeysRaise(rules: seq<Rule>, payload: Payload)
    ensures payload.cadSnapshot.None? ==> Analyze(rules, payload) == Failure(KeyError("cad_snapshot"))
    ensures payload.cadSnapshot.Some? && payload.cadSnapshot.value.parameters.None? ==>
      Analyze(rules, payload) == Failure(KeyError("parameters"))
  {
  }

  /** The design is compliant exactly when no rule is violated; the risk score is
      high and the fillet suggestion present exactly when some rule is. */
  lemma ComplianceIffNoRuleViolated(rules: seq<Rule>, payload: Payload, params: Parameters)
    requires RequestParameters(payload) == Success(params)
    requires Analyze(rules, payload).Success?
    ensures var a := Analyze(rules, payload).value;
      && (a.compliance <==> forall i :: 0 <= i < |rules| ==> !Violated(rules[i], params))
      && (a.riskScore == HighRisk <==> exists i :: 0 <= i < |rules| && Violated(rules[i], params))
      && (a.riskScore == LowRisk <==> forall i :: 0 <= i < |rules| ==> !Violated(rules[i], params))
      && (a.suggestedParameterUpdates == FilletSuggestion <==> !a.compliance)
      && (a.suggestedParameterUpdates == map[] <==> a.compliance)
  {
    EvaluateSelectsViolatedRules(rules, params);
    var idx := Positions(rules, params);
    if |idx| > 0 {
      assert Violated(rules[idx[0]], params);
    }
    assert "fillet_radius_mm" in FilletSuggestion;
  }

  /** The verdict depends on the request only through its parameter map. */
  lemma AnalyzeDependsOnlyOnParameters(rules: seq<Rule>, p1: Payload, p2: Payload)
    requires RequestParameters(p1) == RequestParameters(p2)
    ensures Analyze(rules, p1) == Analyze(rules, p2)
  {
  }
}

# Design compliance pipeline: a Dafny model

This project models the deterministic core of an engineering design-compliance service. The service checks a CAD snapshot's parameters against a rule file and turns the result into a verdict. It also estimates a part's cost and carbon footprint, recalls recently accepted reviewer decisions from a feedback log, and keeps design intents in an in-memory dictionary. Each source file becomes one Dafny module:

- `RuleEngine` (`rule_engine.dfy`) models `evaluate_rules`. The rule list is a parameter instead of a file loaded at import. `EvaluateRules` is the source's loop. It is proved equal to the reference definition `Evaluate`. Lemmas about `Evaluate` say which rules report a violation, in what order, and with which fields. They also cover which exception an ill-formed rule raises.
- `Reasoning` (`reasoning.dfy`) models the `analyze` endpoint as a pure function of the rule list and the request body.
- `Estimator` (`estimator.dfy`) models `estimate_impact` over exact reals. The material registry is a lookup function passed as a parameter. Python's `round(x, 2)` is written out as round-half-to-even at two decimals (`Round2`).
- `Retriever` (`retriever.dfy`) models `retrieve_lessons`. The log file is an optional sequence of line outcomes. `RetrieveLessons` is the source's loop, proved equal to `Retrieve`.
- `IntentDb` (`intent_db.dfy`) models the `_intent_store` dictionary as a class with a `map` field. A ghost history of stored intents explains the map's contents: `Valid()` says the map is the replay of that history.
- `Common` (`common.dfy`) holds `Option`, `Result`, the exceptions (`KeyError`, `TypeError`) and JSON scalars.

Python exceptions on the modelled paths are `Failure` results, not preconditions:
- `KeyError("min_value")` for a present rule without a bound.
- `TypeError` for a string parameter compared with a numeric bound.
- `KeyError` for a request without `cad_snapshot` or `parameters`.
- `KeyError` for a material record without density or cost.

Dafny's maps and sequences are values. So "the parameter map is only read" and "`get_intent` changes nothing" hold by construction: `GetIntent` has no `modifies` clause. Every function is deterministic, so repeated calls give the same result.

What the code does, and therefore what the model does, is narrower than a general compliance checker:
- Rules carry only `min_value`. There are no `max_value` or `allowed_values` checks.
- The risk score is 0.8 or 0.2. There is no 0.9 override and no synthesizer.
- The suggestion is a fixed fillet radius of 2.5.
- Some log lines do parse as JSON but are not objects, for example a number. For these, `data.get` raises `AttributeError`, not `JSONDecodeError`. The outer `except Exception: pass` then ends the scan silently and keeps the lessons found so far. A read error while iterating does the same. A malformed line of this kind is therefore fatal to the rest of the log: not every malformed line is skipped. `UnhandledHidesTheRest` states this behaviour.

## Model

| member | source | states |
|---|---|---|
| RuleEngine.Evaluate | services/rule_engine/engine.py:9-20 | each rule contributes at most one violation, so a successful result is no longer than the rule list |
| RuleEngine.EvaluateRules | services/rule_engine/engine.py:6-20 | the loop over the rules (appending a record for a present parameter below `min_value`, raising on a missing bound or a string value) returns exactly `Evaluate` of the rules and parameters |
| RuleEngine.EvaluateSelectsViolatedRules | services/rule_engine/engine.py:9-18 | combines PositionsAreViolatedRules and EvaluateFollowsPositions: a successful result has one record per violated rule (present, numeric, strictly below the bound) and none for any other rule, in rule order, with `rule_id`, `message`, `current` and `required` copied from the rule and the parameter |
| RuleEngine.PositionsAreViolatedRules | services/rule_engine/engine.py:9-12 | the indices reported are exactly the violated rules' indices, strictly increasing |
| RuleEngine.EvaluateFollowsPositions | services/rule_engine/engine.py:13-18 | the k-th record is built from the rule at the k-th reported index |
| RuleEngine.EvaluateFailsAtFirstFaultyRule | services/rule_engine/engine.py:10-12 | evaluation raises iff some present rule lacks `min_value` or has a string value, and then raises the exception of the first such rule |
| RuleEngine.EvaluateConcat | services/rule_engine/engine.py:9-20 | evaluating two rule lists one after the other concatenates their violations, and the first exception wins |
| RuleEngine.FailureIsFinal | services/rule_engine/engine.py:12 | an exception raised for a prefix of the rules is the result of the whole evaluation |
| RuleEngine.AbsentRuleContributesNothing | services/rule_engine/engine.py:10-11 | a rule whose parameter is not in the map changes nothing, wherever it stands in the list |
| RuleEngine.SingleRuleThreshold | services/rule_engine/engine.py:12-18 | a present numeric parameter is reported iff strictly below `min_value`; a value equal to the bound complies |
| RuleEngine.EmptyInputsGiveNoViolations | services/rule_engine/engine.py:7-20 | an empty rule list or an empty parameter map gives an empty violation list |
| Reasoning.Analyze | services/ai_reasoning/main.py:7-22 | a successful response is compliant iff its violation list is empty, and its risk score is 0.8 or 0.2 |
| Reasoning.AnalyzeReportsEngineOutput | services/ai_reasoning/main.py:8-19 | with parameters present, `analyze` succeeds iff the rule engine does, propagates its exception otherwise, reports its violations unchanged and in order, and always explains "Rule-based assessment completed" |
| Reasoning.MissingKeysRaise | services/ai_reasoning/main.py:8 | a request without `cad_snapshot`, or without its `parameters`, raises `KeyError` for that key |
| Reasoning.ComplianceIffNoRuleViolated | services/ai_reasoning/main.py:13-18 | compliance holds iff no rule is violated; the risk is 0.8 iff some rule is violated and 0.2 iff none is; the suggestion is `{fillet_radius_mm: 2.5}` iff non-compliant and empty iff compliant |
| Reasoning.AnalyzeDependsOnlyOnParameters | services/ai_reasoning/main.py:8-10 | two requests with the same `cad_snapshot.parameters` lookup get the same response |
| Estimator.EstimateImpact | services/estimator.py:3-26 | returns `None` iff the lookup gives no record or an empty one; fails iff a non-empty record lacks density or cost, and then with `KeyError` for the density key if that is missing (it is read first), else for the cost key |
| Estimator.EstimateFormula | services/estimator.py:9-26 | mass is volume / 1000 × density / 1000; the pre-rounding cost is 4 × mass × cost per kg; the result has exactly `cost_usd` and `carbon_kg`, rounded cost and rounded mass × CO2 factor |
| Estimator.MissingCo2GivesZeroCarbon | services/estimator.py:21 | a record without `co2_kg_per_kg` gives a carbon footprint of exactly 0 |
| Estimator.EstimateNonNegative | services/estimator.py:9-21 | a non-negative volume and record give non-negative cost and carbon |
| Estimator.EstimateMonotoneInVolume | services/estimator.py:9-21 | for a fixed non-negative record, cost and carbon never decrease as the volume grows |
| Estimator.Round2Monotone | services/estimator.py:18 | rounding to two decimals preserves order |
| Estimator.Round2Error | services/estimator.py:18 | rounding to two decimals moves a value by at most 0.005 |
| Estimator.Round2NonNegative | services/estimator.py:21 | a non-negative value rounds to a non-negative value |
| Estimator.MassMonotone | services/estimator.py:9-13 | the mass never decreases with the volume at a non-negative density |
| Estimator.TotalCostMonotone | services/estimator.py:16-18 | the pre-rounding cost never decreases with the mass at a non-negative price |
| Estimator.FootprintMonotone | services/estimator.py:21 | the pre-rounding footprint never decreases with the mass at a non-negative factor |
| Retriever.RetrieveLessons | services/retriever.py:5-25 | the scan loop (skip malformed lines, collect accepted records, stop at an unhandled line, join the last five) returns exactly `Retrieve` of the log |
| Retriever.LessonsAreAcceptedRecords | services/retriever.py:15-16 | combines AcceptedPositionsAreAccepted and LessonsFollowPositions: the collected lines are exactly one `"- Accepted decision: " + comments` per record whose decision is "accepted", in log order; other records contribute nothing |
| Retriever.AcceptedPositionsAreAccepted | services/retriever.py:15 | the collected positions are exactly the accepted records' indices, strictly increasing |
| Retriever.LessonsFollowPositions | services/retriever.py:16 | the k-th collected line is formatted from the record at the k-th accepted position |
| Retriever.LessonsConcat | services/retriever.py:12-16 | collecting over two consecutive parts of a log concatenates their lines |
| Retriever.ScannedConcat | services/retriever.py:10-20 | the scan passes over a part without unhandled lines and stops inside a part that has one |
| Retriever.ScannedAll | services/retriever.py:12-18 | a log without unhandled lines is scanned to its end |
| Retriever.ScannedStopsAt | services/retriever.py:19-20 | the scan ends just before the first unhandled line |
| Retriever.SkippedEntryChangesNothing | services/retriever.py:13-18 | inserting a malformed line, or a record whose decision is not "accepted", anywhere in the log leaves the result unchanged |
| Retriever.SkippedEntryCollectsNothing | services/retriever.py:13-18 | such a line leaves the collected lessons unchanged |
| Retriever.UnhandledHidesTheRest | services/retriever.py:10-20 | after an unhandled line nothing more of the log is reported |
| Retriever.RetrieveSentinels | services/retriever.py:6-25 | the result is "No past lessons found." iff there is no log file, "No relevant lessons found." iff the scan finds no accepted record, and never empty |
| Retriever.RetrieveJoinsLastFive | services/retriever.py:25 | otherwise the result joins with newlines the last min(5, n) collected lines, oldest first |
| Retriever.JoinStartsWithFirst | services/retriever.py:25 | the joined text begins with its first line |
| Retriever.JoinEndsWithLast | services/retriever.py:25 | the joined text ends with its last line |
| Retriever.AcceptedFeedbackIsRetrieved | services/retriever.py:9-25 | appending an accepted decision with comments X to a log without unhandled lines makes the result end with "- Accepted decision: X" |
| IntentDb.IntentStore.constructor | services/intent_service/db.py:1 | the store starts empty with an empty history |
| IntentDb.IntentStore.StoreIntent | services/intent_service/db.py:3-4 | afterwards the id maps to the intent (overwriting any earlier one), every other id keeps its entry, and the history grows by the intent |
| IntentDb.IntentStore.GetIntent | services/intent_service/db.py:6-7 | returns the entry for the id, and `None` iff no intent with that id was ever stored; the store is not modified |
| IntentDb.ReplayKeys | services/intent_service/db.py:3-7 | an id is present after a sequence of stores iff some stored intent carried it |
| IntentDb.ReplayLastWriterWins | services/intent_service/db.py:4 | the entry of an id is the last intent stored under it |

## Left out

- Loading `rules.json` at import (services/rule_engine/engine.py:3-4): the rule list is a parameter.
- Rule records are assumed to carry `id`, `parameter` and `message`. The `KeyError` for a missing one of these is not modelled. Only a missing `min_value` is.
- A rule whose `min_value` is itself a string is not modelled: bounds are numbers. So a string parameter always raises `TypeError`, and Python's string-to-string ordering is not represented.
- IEEE floating point, NaN, and Python's `int`/`bool`/`float` mixing: numbers are exact reals. `Round2` rounds the exact value half-to-even. Python rounds the binary double, so tie cases can differ.
- Reading the material registry file (services/intent_service/library.py): it is the `lookup` parameter. Record values are numbers. A non-numeric density, cost or factor, which would raise `TypeError`, is not modelled.
- Opening and reading the feedback log file (services/retriever.py:6,10-12): the log is `Option<seq<Entry>>`. A file that exists but cannot be opened behaves like a log whose first entry is `Unhandled`.
- A `comments` value that is neither a string nor null is printed by Python with `str()`. This is not modelled: comments are `Option<string>`, and null or absent prints as `None`.
- RetrieveJoinsLastFive: bounds the number of collected lessons, not the number of text lines, because a comment containing a newline adds text lines of its own.
- `.dict()` (services/intent_service/db.py:4): the stored copy is the intent value itself. Dafny values cannot be mutated afterwards, which gives the copy's independence.
- GetIntent: returns a value, so it does not capture that `get_intent` (services/intent_service/db.py:7) hands the caller the very dict held in the store, and that a caller mutating it changes the stored entry (aliasing on read).
- The FastAPI endpoints, the HTML report generator, the demo script, the mock CAD snapshots, the prompt template, the configuration paths and the pydantic schemas. These are I/O, rendering, fixtures or data shapes. The schemas only shape `DesignIntent`, `Payload` and `CadSnapshot`.
- The feedback recorder `log_feedback`, which `services/ai_reasoning/demo_flow.py` imports from the analysis service, is not part of this model: its code is not among the modelled files.

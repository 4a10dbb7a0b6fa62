/** The reference evaluator (internal/reference/evaluator.go) and the declarative oracle the
    conformance test compares it with (internal/control/conformance_test.go). */
module Evaluator {
  import Diff
  import opened Wire
  import opened Verdicts

  const FAIL_OPEN: U8 := 0
  const FAIL_CLOSED: U8 := 1

  /** One flow; its fields are those of a rule key. */
  type Input = PolicyRuleKey

  datatype MapEvaluator = MapEvaluator(unknownMode: U8, rules: map<PolicyRuleKey, PolicyVerdict>)

  predicate ValidRule(r: PolicyRule) {
    && r.key.src != IDENTITY_UNKNOWN && r.key.dst != IDENTITY_UNKNOWN
    && (r.key.dir == DIRECTION_INGRESS || r.key.dir == DIRECTION_EGRESS)
    && ValidVerdict(r.verdict)
  }

  datatype EvaluatorError = BadMode(mode: U8) | BadRule(index: nat) | DuplicateKey(index: nat)

  /** The map holds the rules and nothing else. */
  ghost predicate Holds(m: map<PolicyRuleKey, PolicyVerdict>, rules: seq<PolicyRule>) {
    forall k, v :: Get(m, k) == Some(v) <==> PolicyRule(k, v) in rules
  }

  /** NewEvaluator: builds exactly when the mode and every rule are valid and no key repeats. */
  method NewEvaluator(mode: U8, rules: seq<PolicyRule>) returns (r: Result<MapEvaluator, EvaluatorError>)
    ensures r.Ok? <==> mode <= FAIL_CLOSED && (forall p :: p in rules ==> ValidRule(p)) && Diff.UniquePolicies(rules)
    ensures r.Ok? ==> r.value.unknownMode == mode && Holds(r.value.rules, rules)
  {
    hide ValidRule;
    if mode != FAIL_OPEN && mode != FAIL_CLOSED { return Err(BadMode(mode)); }
    var compiled: map<PolicyRuleKey, PolicyVerdict> := map[];
    for i := 0 to |rules|
      invariant forall p :: p in rules[..i] ==> ValidRule(p)
      invariant Diff.UniquePolicies(rules[..i])
      invariant forall k :: k in compiled <==> exists j :: 0 <= j < i && rules[j].key == k
      invariant forall j :: 0 <= j < i ==> rules[j].key in compiled && compiled[rules[j].key] == rules[j].verdict
    {
      if !ValidRule(rules[i]) {
        assert rules[i] in rules;
        return Err(BadRule(i));
      }
      if rules[i].key in compiled { return Err(DuplicateKey(i)); }
      compiled := compiled[rules[i].key := rules[i].verdict];
    }
    assert rules[..|rules|] == rules;
    forall k, v ensures Get(compiled, k) == Some(v) <==> PolicyRule(k, v) in rules {
      if Get(compiled, k) == Some(v) {
        ghost var j :| 0 <= j < |rules| && rules[j].key == k;
        assert rules[j] == PolicyRule(k, v);
      }
    }
    r := Ok(MapEvaluator(mode, compiled));
  }

  /** Evaluate, for a live context. */
  function Evaluate(e: MapEvaluator, flow: Input): PolicyVerdict {
    if flow.src == IDENTITY_UNKNOWN || flow.dst == IDENTITY_UNKNOWN then
      PolicyVerdict(if e.unknownMode == FAIL_OPEN then ACTION_ALLOW else ACTION_DENY, 0)
    else if flow in e.rules then e.rules[flow]
    else PolicyVerdict(ACTION_DENY, 0)
  }

  /** The identity a name stands for: that of the last one that bears it. */
  function Bearer(ids: seq<Identity>, name: string): Option<IdentityID> {
    if ids == [] then None
    else if ids[|ids| - 1].spiffeID == name then Some(ids[|ids| - 1].id)
    else Bearer(ids[..|ids| - 1], name)
  }

  datatype Answer = Unresolved | Match(verdict: PolicyVerdict) | NoMatch

  /** The first rule that lists the flow; a name nobody bears ends the search. */
  function InRules(rules: seq<Selector>, ids: seq<Identity>, flow: Input): Answer {
    if rules == [] then NoMatch
    else
      var r := rules[0];
      if exists n :: n in r.sources + r.destinations && Bearer(ids, n) == None then Unresolved
      else if && (exists n :: n in r.sources && Bearer(ids, n) == Some(flow.src))
              && (exists n :: n in r.destinations && Bearer(ids, n) == Some(flow.dst))
              && flow.port in r.ports && flow.proto in r.protocols && flow.dir in r.directions
      then Match(r.verdict)
      else InRules(rules[1..], ids, flow)
  }

  function InPolicies(policies: seq<Policy>, ids: seq<Identity>, flow: Input): Answer {
    if policies == [] then NoMatch
    else
      match InRules(policies[0].rules, ids, flow)
      case NoMatch => InPolicies(policies[1..], ids, flow)
      case answer => answer
  }

  /** The oracle: evaluates the document itself, never calling the compiler; None when a name cannot be
      resolved. */
  function NaiveEvaluate(spec: PolicySpec, ids: seq<Identity>, mode: U8, flow: Input): Option<PolicyVerdict> {
    if flow.src == IDENTITY_UNKNOWN || flow.dst == IDENTITY_UNKNOWN then
      Some(PolicyVerdict(if mode == FAIL_OPEN then ACTION_ALLOW else ACTION_DENY, 0))
    else
      match InPolicies(spec.policies, ids, flow)
      case Unresolved => None
      case Match(v) => Some(v)
      case NoMatch => Some(PolicyVerdict(ACTION_DENY, 0))
  }
}

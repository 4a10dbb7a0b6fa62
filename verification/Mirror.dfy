/** The MeridianPolicy mirror (internal/control/k8s/policy_informer.go): custom resources are expanded
    into rules and written to the store, with a record per object of the keys written. */
module Mirror {
  import opened Wire

  const PROTOCOL_TCP: U8 := 6
  const PROTOCOL_UDP: U8 := 17
  const MAX_RULES := 65536
  const MAX_SOURCES := 64
  const MAX_PORTS := 64
  const SCHEME := "spiffe://"

  datatype Spec = Spec(action: string, namespace: string, sources: seq<string>, ports: seq<U16>, protocols: seq<string>)

  /** What the resolver answers at the time of one compile: a SPIFFE ID's identity, and the identities
      the selector matches. */
  datatype Resolver = Resolver(identity: string -> Option<IdentityID>, selected: Option<seq<IdentityID>>)

  predicate ValidSpec(spec: Spec) {
    && (spec.action == "allow" || spec.action == "deny")
    && spec.namespace != ""
    && 0 < |spec.sources| <= MAX_SOURCES
    && (forall s :: s in spec.sources ==> SCHEME < s)
    && 0 < |spec.ports| <= MAX_PORTS
    && (forall p :: p in spec.ports ==> p != 0)
    && (forall p :: p in spec.protocols ==> p == "tcp" || p == "udp")
  }

  function ProtocolNumber(name: string): U8 {
    if name == "udp" then PROTOCOL_UDP else PROTOCOL_TCP
  }

  /** An object that lists no protocol means TCP. */
  predicate Covers(protocols: seq<string>, proto: U8) {
    if protocols == [] then proto == PROTOCOL_TCP
    else exists i :: 0 <= i < |protocols| && ProtocolNumber(protocols[i]) == proto
  }

  function ProductSize(spec: Spec, selected: seq<IdentityID>): nat {
    |spec.sources| * |selected| * |spec.ports| * (if spec.protocols == [] then 1 else |spec.protocols|)
  }

  /** When an object compiles: fail closed on anything unrecognised, unresolved or too large. */
  predicate Compilable(spec: Spec, resolver: Resolver) {
    && ValidSpec(spec)
    && (forall s :: s in spec.sources ==> resolver.identity(s).Some?)
    && resolver.selected.Some?
    && ProductSize(spec, resolver.selected.value) <= MAX_RULES
  }

  function VerdictFor(action: string): PolicyVerdict {
    PolicyVerdict(if action == "allow" then ACTION_ALLOW else ACTION_DENY, 0)
  }

  ghost predicate InProduct(spec: Spec, resolver: Resolver, rule: PolicyRule)
    requires resolver.selected.Some?
  {
    && rule.verdict == VerdictFor(spec.action)
    && (exists s :: s in spec.sources && resolver.identity(s) == Some(rule.key.src))
    && rule.key.dst in resolver.selected.value
    && rule.key.port in spec.ports
    && Covers(spec.protocols, rule.key.proto)
    && rule.key.dir == DIRECTION_INGRESS
  }

  /** The expansion holds the whole product and nothing else, or does not exist. */
  ghost predicate IsExpansion(spec: Spec, resolver: Resolver, rules: Option<seq<PolicyRule>>) {
    && (rules.Some? <==> Compilable(spec, resolver))
    && (rules.Some? ==>
          && |rules.value| == ProductSize(spec, resolver.selected.value)
          && forall r :: r in rules.value <==> InProduct(spec, resolver, r))
  }

  method ProtocolNumbers(names: seq<string>) returns (out: Option<seq<U8>>)
    ensures out.Some? <==> forall n :: n in names ==> n == "tcp" || n == "udp"
    ensures out.Some? ==> |out.value| == if names == [] then 1 else |names|
    ensures out.Some? ==> forall p: U8 :: p in out.value <==> Covers(names, p)
  {
    if names == [] {
      return Some([PROTOCOL_TCP]);
    }
    var acc: seq<U8> := [];
    for i := 0 to |names|
      invariant |acc| == i
      invariant forall j :: 0 <= j < i ==>
                  (names[j] == "tcp" || names[j] == "udp") && acc[j] == ProtocolNumber(names[j])
    {
      if names[i] == "tcp" {
        acc := acc + [PROTOCOL_TCP];
      } else if names[i] == "udp" {
        acc := acc + [PROTOCOL_UDP];
      } else {
        assert names[i] in names;
        return None;
      }
    }
    out := Some(acc);
  }

  method ResolveSources(sources: seq<string>, resolver: Resolver) returns (ids: Option<seq<IdentityID>>)
    ensures ids.Some? <==> forall s :: s in sources ==> resolver.identity(s).Some?
    ensures ids.Some? ==> |ids.value| == |sources|
    ensures ids.Some? ==>
              forall id: IdentityID :: id in ids.value <==> exists s :: s in sources && resolver.identity(s) == Some(id)
  {
    var acc: seq<IdentityID> := [];
    for i := 0 to |sources|
      invariant |acc| == i
      invariant forall j :: 0 <= j < i ==> resolver.identity(sources[j]) == Some(acc[j])
    {
      match resolver.identity(sources[i]) {
        case None => return None;
        case Some(id) => acc := acc + [id];
      }
    }
    ids := Some(acc);
    assert forall j :: 0 <= j < |acc| ==> sources[j] in sources;
  }

  predicate InBox(r: PolicyRule, srcs: seq<IdentityID>, dsts: seq<IdentityID>, ports: seq<U16>, protocols: seq<U8>,
                  verdict: PolicyVerdict)
  {
    && r.verdict == verdict && r.key.dir == DIRECTION_INGRESS
    && r.key.src in srcs && r.key.dst in dsts && r.key.port in ports && r.key.proto in protocols
  }

  method AppendProtocols(rules: seq<PolicyRule>, src: IdentityID, dst: IdentityID, port: U16, protocols: seq<U8>,
                         verdict: PolicyVerdict)
    returns (out: seq<PolicyRule>)
    ensures |out| == |rules| + |protocols|
    ensures forall r :: r in out <==> r in rules || InBox(r, [src], [dst], [port], protocols, verdict)
  {
    out := rules;
    for i := 0 to |protocols|
      invariant |out| == |rules| + i
      invariant forall r :: r in out <==> r in rules || InBox(r, [src], [dst], [port], protocols[..i], verdict)
    {
      out := out + [PolicyRule(PolicyRuleKey(src, dst, port, protocols[i], DIRECTION_INGRESS), verdict)];
      assert protocols[..i + 1] == protocols[..i] + [protocols[i]];
    }
    assert protocols[..|protocols|] == protocols;
  }

  method AppendPorts(rules: seq<PolicyRule>, src: IdentityID, dst: IdentityID, ports: seq<U16>, protocols: seq<U8>,
                     verdict: PolicyVerdict)
    returns (out: seq<PolicyRule>)
    ensures |out| == |rules| + |ports| * |protocols|
    ensures forall r :: r in out <==> r in rules || InBox(r, [src], [dst], ports, protocols, verdict)
  {
    out := rules;
    for i := 0 to |ports|
      invariant |out| == |rules| + i * |protocols|
      invariant forall r :: r in out <==> r in rules || InBox(r, [src], [dst], ports[..i], protocols, verdict)
    {
      out := AppendProtocols(out, src, dst, ports[i], protocols, verdict);
      assert ports[..i + 1] == ports[..i] + [ports[i]];
    }
    assert ports[..|ports|] == ports;
  }

  method AppendDestinations(rules: seq<PolicyRule>, src: IdentityID, dsts: seq<IdentityID>, ports: seq<U16>,
                            protocols: seq<U8>, verdict: PolicyVerdict)
    returns (out: seq<PolicyRule>)
    ensures |out| == |rules| + |dsts| * (|ports| * |protocols|)
    ensures forall r :: r in out <==> r in rules || InBox(r, [src], dsts, ports, protocols, verdict)
  {
    out := rules;
    for i := 0 to |dsts|
      invariant |out| == |rules| + i * (|ports| * |protocols|)
      invariant forall r :: r in out <==> r in rules || InBox(r, [src], dsts[..i], ports, protocols, verdict)
    {
      out := AppendPorts(out, src, dsts[i], ports, protocols, verdict);
      assert dsts[..i + 1] == dsts[..i] + [dsts[i]];
    }
    assert dsts[..|dsts|] == dsts;
  }

  method Expand(srcs: seq<IdentityID>, dsts: seq<IdentityID>, ports: seq<U16>, protocols: seq<U8>,
                verdict: PolicyVerdict)
    returns (out: seq<PolicyRule>)
    ensures |out| == |srcs| * (|dsts| * (|ports| * |protocols|))
    ensures forall r :: r in out <==> InBox(r, srcs, dsts, ports, protocols, verdict)
  {
    out := [];
    for i := 0 to |srcs|
      invariant |out| == i * (|dsts| * (|ports| * |protocols|))
      invariant forall r :: r in out <==> InBox(r, srcs[..i], dsts, ports, protocols, verdict)
    {
      out := AppendDestinations(out, srcs[i], dsts, ports, protocols, verdict);
      assert srcs[..i + 1] == srcs[..i] + [srcs[i]];
    }
    assert srcs[..|srcs|] == srcs;
  }

  lemma Reassociate(a: nat, b: nat, c: nat, d: nat)
    ensures a * b * c * d == a * (b * (c * d))
  {
    calc {
      a * b * c * d;
      (a * b) * (c * d);
      a * (b * (c * d));
    }
  }

  method CompilePolicyRules(spec: Spec, resolver: Resolver) returns (rules: Option<seq<PolicyRule>>)
    ensures IsExpansion(spec, resolver, rules)
  {
    if !ValidSpec(spec) {
      return None;
    }
    var srcs := ResolveSources(spec.sources, resolver);
    var protocols := ProtocolNumbers(spec.protocols);
    if srcs.None? || resolver.selected.None? || protocols.None? {
      return None;
    }
    var dsts := resolver.selected.value;
    if |srcs.value| * |dsts| * |spec.ports| * |protocols.value| > MAX_RULES {
      return None;
    }
    Reassociate(|srcs.value|, |dsts|, |spec.ports|, |protocols.value|);
    var out := Expand(srcs.value, dsts, spec.ports, protocols.value, VerdictFor(spec.action));
    rules := Some(out);
  }

  /** The store the watcher writes, and its record of the keys written per object. A record may be
      empty; that is not the same as no record. */
  datatype State = State(store: map<PolicyRuleKey, PolicyVerdict>, applied: map<string, seq<PolicyRuleKey>>)

  const START := State(map[], map[])

  /** One informer event: what the object compiles to at that moment, and which of the writes and deletes
      it causes, counted in order, the store refuses. */
  datatype Event =
    | Upsert(name: string, rules: Option<seq<PolicyRule>>, refused: set<nat>)
    | Delete(name: string, rules: Option<seq<PolicyRule>>, refused: set<nat>)

  /** The verdict a list of rules gives a key: the last one listed. */
  function VerdictIn(rules: seq<PolicyRule>, k: PolicyRuleKey): Option<PolicyVerdict> {
    if rules == [] then None
    else if rules[|rules| - 1].key == k then Some(rules[|rules| - 1].verdict)
    else VerdictIn(rules[..|rules| - 1], k)
  }

  /** The verdict the accepted writes leave on a key. */
  function LandedIn(rules: seq<PolicyRule>, refused: set<nat>, k: PolicyRuleKey): Option<PolicyVerdict> {
    if rules == [] then None
    else if rules[|rules| - 1].key == k && |rules| - 1 !in refused then Some(rules[|rules| - 1].verdict)
    else LandedIn(rules[..|rules| - 1], refused, k)
  }

  function PutAll(store: map<PolicyRuleKey, PolicyVerdict>, rules: seq<PolicyRule>, refused: set<nat>)
    : map<PolicyRuleKey, PolicyVerdict>
  {
    if rules == [] then store
    else
      var rest, rule := PutAll(store, rules[..|rules| - 1], refused), rules[|rules| - 1];
      if |rules| - 1 in refused then rest else rest[rule.key := rule.verdict]
  }

  /** The keys whose write the store accepted, in order. */
  function Landed(rules: seq<PolicyRule>, refused: set<nat>): seq<PolicyRuleKey> {
    if rules == [] then []
    else
      Landed(rules[..|rules| - 1], refused) + if |rules| - 1 in refused then [] else [rules[|rules| - 1].key]
  }

  function Recorded(s: State, name: string): seq<PolicyRuleKey> {
    if name in s.applied then s.applied[name] else []
  }

  /** The keys a pass of deletes removes: the j-th is the event's operation `first + j`. */
  function Removed(keys: seq<PolicyRuleKey>, kept: set<PolicyRuleKey>, first: nat, refused: set<nat>)
    : set<PolicyRuleKey>
  {
    set j | 0 <= j < |keys| && keys[j] !in kept && first + j !in refused :: keys[j]
  }

  function Produced(rules: seq<PolicyRule>): set<PolicyRuleKey> {
    set j | 0 <= j < |rules| :: rules[j].key
  }

  function AfterUpsert(s: State, name: string, rules: seq<PolicyRule>, refused: set<nat>): State {
    State(PutAll(s.store, rules, refused) - Removed(Recorded(s, name), Produced(rules), |rules|, refused),
          s.applied[name := Landed(rules, refused)])
  }

  /** The keys a delete goes through: the record, or a recompile where there is none. */
  function DeleteList(s: State, name: string, rules: Option<seq<PolicyRule>>): seq<PolicyRuleKey> {
    if name in s.applied then s.applied[name]
    else if rules.Some? then Landed(rules.value, {})
    else []
  }

  function AfterDelete(s: State, name: string, rules: Option<seq<PolicyRule>>, refused: set<nat>): State {
    State(s.store - Removed(DeleteList(s, name, rules), {}, 0, refused), s.applied - {name})
  }

  function After(s: State, e: Event): State {
    match e
    case Upsert(name, None, _) => s
    case Upsert(name, Some(rules), refused) => AfterUpsert(s, name, rules, refused)
    case Delete(name, rules, refused) => AfterDelete(s, name, rules, refused)
  }

  lemma RemovedStep(keys: seq<PolicyRuleKey>, i: nat, kept: set<PolicyRuleKey>, first: nat, refused: set<nat>)
    requires i < |keys|
    ensures Removed(keys[..i + 1], kept, first, refused) ==
            Removed(keys[..i], kept, first, refused) +
            if keys[i] !in kept && first + i !in refused then {keys[i]} else {}
  {
    var was, now := keys[..i], keys[..i + 1];
    assert forall j :: 0 <= j < i ==> was[j] == now[j];
    assert now[i] == keys[i];
    forall k ensures k in Removed(now, kept, first, refused) <==>
                     k in Removed(was, kept, first, refused) || (k == keys[i] && k !in kept && first + i !in refused)
    {
    }
  }

  lemma ProducedStep(rules: seq<PolicyRule>, i: nat)
    requires i < |rules|
    ensures Produced(rules[..i + 1]) == Produced(rules[..i]) + {rules[i].key}
  {
    var was, now := rules[..i], rules[..i + 1];
    assert forall j :: 0 <= j < i ==> was[j] == now[j];
    assert now[i] == rules[i];
  }

  class PolicyWatcher {
    var store: map<PolicyRuleKey, PolicyVerdict>
    var applied: map<string, seq<PolicyRuleKey>>

    function Abs(): State
      reads this
    {
      State(store, applied)
    }

    constructor ()
      ensures Abs() == START
    {
      store, applied := map[], map[];
    }

    /** Installs a record (removes it when none is given) and returns the previous one. */
    method SwapApplied(name: string, keys: Option<seq<PolicyRuleKey>>) returns (prev: Option<seq<PolicyRuleKey>>)
      modifies this`applied
      ensures prev == Get(old(applied), name)
      ensures applied == if keys.Some? then old(applied)[name := keys.value] else old(applied) - {name}
    {
      prev := if name in applied then Some(applied[name]) else None;
      match keys {
        case None => applied := applied - {name};
        case Some(list) => applied := applied[name := list];
      }
    }

    method DeleteKeys(keys: seq<PolicyRuleKey>, kept: set<PolicyRuleKey>, first: nat, refused: set<nat>)
      modifies this`store
      ensures store == old(store) - Removed(keys, kept, first, refused)
    {
      ghost var before := store;
      for i := 0 to |keys|
        invariant store == before - Removed(keys[..i], kept, first, refused)
      {
        RemovedStep(keys, i, kept, first, refused);
        if keys[i] !in kept && first + i !in refused {
          store := store - {keys[i]};
        }
      }
      assert keys[..|keys|] == keys;
    }

    method OnUpsert(name: string, spec: Spec, resolver: Resolver, refused: set<nat>)
      returns (compiled: Option<seq<PolicyRule>>)
      modifies this
      ensures IsExpansion(spec, resolver, compiled)
      ensures Abs() == After(old(Abs()), Upsert(name, compiled, refused))
    {
      hide IsExpansion;
      compiled := CompilePolicyRules(spec, resolver);
      if compiled.None? {
        return;
      }
      var rules := compiled.value;
      var newKeys: set<PolicyRuleKey>, appliedKeys: seq<PolicyRuleKey> := {}, [];
      ghost var before := store;
      for i := 0 to |rules|
        invariant applied == old(applied)
        invariant store == PutAll(before, rules[..i], refused)
        invariant appliedKeys == Landed(rules[..i], refused)
        invariant newKeys == Produced(rules[..i])
      {
        assert rules[..i + 1][..i] == rules[..i];
        ProducedStep(rules, i);
        newKeys := newKeys + {rules[i].key};
        if i !in refused {
          store := store[rules[i].key := rules[i].verdict];
          appliedKeys := appliedKeys + [rules[i].key];
        }
      }
      assert rules[..|rules|] == rules;
      var prev := SwapApplied(name, Some(appliedKeys));
      DeleteKeys(if prev.Some? then prev.value else [], newKeys, |rules|, refused);
    }

    method OnDelete(name: string, spec: Spec, resolver: Resolver, refused: set<nat>)
      returns (compiled: Option<seq<PolicyRule>>)
      modifies this
      ensures name !in old(applied) ==> IsExpansion(spec, resolver, compiled)
      ensures Abs() == After(old(Abs()), Delete(name, compiled, refused))
    {
      hide IsExpansion;
      compiled := None;
      var prev := SwapApplied(name, None);
      var keys: seq<PolicyRuleKey> := [];
      if prev.None? {
        compiled := CompilePolicyRules(spec, resolver);
        if compiled.None? {
          assert store == store - Removed([], {}, 0, refused);
          return;
        }
        var rules := compiled.value;
        for i := 0 to |rules|
          invariant keys == Landed(rules[..i], {})
        {
          assert rules[..i + 1][..i] == rules[..i];
          keys := keys + [rules[i].key];
        }
        assert rules[..|rules|] == rules;
      } else {
        keys := prev.value;
      }
      DeleteKeys(keys, {}, 0, refused);
    }
  }
}

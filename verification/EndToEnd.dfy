/** From the declarative document to the packet: compiled rules, written by the agent into empty kernel
    maps, make the ingress program decide as the document says. */
module EndToEnd {
  import opened Wire
  import opened Translate
  import opened Diff
  import opened Compiler
  import opened Evaluator
  import opened CompilerProofs
  import opened TranslateProofs
  import opened Packet
  import opened PacketBytes
  import opened Geneve
  import opened Tc
  import opened TcFields
  import opened GeneveProofs
  import opened TunnelProofs
  import Datapath
  import Pol = PolicyMapRefinement
  import Ids = IdentityMapRefinement

  /** The kernel's maps are those a writer left behind. */
  predicate Holding(k: Kernel, w: Datapath.State) {
    k.policyMap == w.policyMap && k.identityMap == w.identityMap
  }

  /** The posture for unknown identities is bit 0 of config_map. */
  function Mode(k: Kernel): U8 {
    if k.config % 2 == 1 then FAIL_OPEN else FAIL_CLOSED
  }

  /** The identity whose entry states this address, 0 when none does. */
  function Holder(ids: seq<Identity>, octets: seq<U8>): IdentityID
    requires |octets| == 4
  {
    if ids == [] then 0
    else if ids[|ids| - 1].podIPv4 == Dotted(octets) then ids[|ids| - 1].id
    else Holder(ids[..|ids| - 1], octets)
  }

  /** The flow of the packet at `ip`, in the document's terms, read from its bytes. */
  function FlowInput(ids: seq<Identity>, src: IdentityID, p: Bytes, ip: nat): Input
    requires ip + 20 <= |p| && (HasPorts(p, ip) ==> L4(p, ip) + 4 <= |p|)
  {
    PolicyRuleKey(src, Holder(ids, p[ip + 16..ip + 20]), if HasPorts(p, ip) then Word(p, L4(p, ip) + 2) else 0,
                  p[ip + 9], 0)
  }

  lemma StatedExactlyWhen(d: Identity, octets: seq<U8>)
    requires |octets| == 4
    ensures NetworkKey(d) == Some(LittleEndian32(octets[0], octets[1], octets[2], octets[3])) <==>
            d.podIPv4 == Dotted(octets)
  {
    hide ParseFields, LittleEndian32, Dotted;
    ParsedExactlyWhen(d.podIPv4, octets);
    NotEmpty(octets);
    if NetworkKey(d) == Some(LittleEndian32(octets[0], octets[1], octets[2], octets[3])) {
      WordDetermines(ParseFields(d.podIPv4, 0, [], 0, 0).value, octets);
    }
  }

  lemma NotEmpty(octets: seq<U8>)
    requires |octets| == 4
    ensures Dotted(octets) != ""
  {
  }

  lemma {:induction false} HolderIsOwner(ids: seq<Identity>, octets: seq<U8>, a: U32)
    requires |octets| == 4 && a == LittleEndian32(octets[0], octets[1], octets[2], octets[3])
    ensures Holder(ids, octets) == match Ids.OwnerOf(ids, a) case None => 0 case Some(id) => id
  {
    hide LittleEndian32, Dotted, NetworkKey;
    if ids != [] {
      StatedExactlyWhen(ids[|ids| - 1], octets);
      HolderIsOwner(ids[..|ids| - 1], octets, a);
    }
  }

  /** identity_map answers for an address in a packet as the identity list does. */
  lemma HolderRead(k: Kernel, w: Datapath.State, ids: seq<Identity>, p: Bytes, at: nat)
    requires Holding(k, w) && Ids.MapInSync(w, ids) && at + 4 <= |p|
    ensures HolderOf(k, Address(p, at)) == Holder(ids, p[at..at + 4])
  {
    hide LittleEndian32, Holder;
    HolderIsOwner(ids, p[at..at + 4], Address(p, at));
    assert Get(w.identityMap, Address(p, at)) == Ids.OwnerOf(ids, Address(p, at));
  }

  /** Loading a snapshot into empty maps leaves exactly its tables. */
  lemma LoadedMaps(s: Snapshot, budget: nat)
    requires UniquePolicies(s.policies) && Ids.WellAddressed(s.identities)
    requires Datapath.Run(Datapath.Ops(Plan(EMPTY, s)), Datapath.FRESH, budget).ok
    ensures var w := Datapath.Run(Datapath.Ops(Plan(EMPTY, s)), Datapath.FRESH, budget).state;
            Pol.PoliciesInSync(w, s) && Ids.MapInSync(w, s.identities)
  {
    var ops := Datapath.Ops(Plan(EMPTY, s));
    var n := Pol.RunIsPrefix(ops, Datapath.FRESH, budget);
    assert ops[..n] == ops;
    assert Pol.PoliciesInSync(Datapath.FRESH, EMPTY);
    Pol.ApplyRefines(Datapath.FRESH, EMPTY, s);
    assert Ids.WellAddressed(EMPTY.identities);
    Ids.ApplyRefinesIff(Datapath.FRESH, EMPTY, s);
  }

  /** policy_map, read as the reference evaluator's rule map. */
  function AsEvaluator(mode: U8, rules: seq<PolicyRule>): MapEvaluator {
    var t := PolicyTable(rules);
    MapEvaluator(mode, map k | k in t :: t[k].verdict)
  }

  lemma AsEvaluatorHolds(mode: U8, rules: seq<PolicyRule>)
    requires UniquePolicies(rules)
    ensures Holds(AsEvaluator(mode, rules).rules, rules)
  {
    PolicyTableUnique(rules);
    PolicyTableKeys(rules);
    var m := AsEvaluator(mode, rules).rules;
    forall k, v ensures Get(m, k) == Some(v) <==> PolicyRule(k, v) in rules {
      if k in m {
        var i :| 0 <= i < |rules| && rules[i].key == k;
      }
    }
  }

  /** The kernel's lookup is the evaluator's. */
  lemma LookupIsEvaluate(k: Kernel, w: Datapath.State, s: Snapshot, flow: Input)
    requires Holding(k, w) && Pol.PoliciesInSync(w, s) && UniquePolicies(s.policies)
    requires flow.src != IDENTITY_UNKNOWN && flow.dst != IDENTITY_UNKNOWN && flow.dir == DIRECTION_INGRESS
    ensures var v := Lookup(k, flow.src, flow.dst, flow.port, flow.proto);
            Evaluate(AsEvaluator(Mode(k), s.policies), flow) ==
            if v.Some? then PolicyVerdict(v.value.action, v.value.flags) else PolicyVerdict(ACTION_DENY, 0)
  {
    Pol.InSyncPointwise(w, s);
    assert TranslateKey(flow) == PolicyMapKey(flow.src, flow.dst, flow.port, flow.proto, DIRECTION_INGRESS);
    assert Pol.Read(w, flow) == Pol.Wanted(s, flow);
  }

  predicate Passes(v: PolicyVerdict) {
    v.action == 0 || v.action == 2
  }

  /** Enforcement of a flow answers as the document does. */
  lemma EnforcedIsEvaluate(k: Kernel, w: Datapath.State, s: Snapshot, k1: Kernel, k': Kernel, action: int, mark: bool,
                           e: FlowEvent, open: bool, stop: int, ring: bool)
    requires Holding(k, w) && Pol.PoliciesInSync(w, s) && UniquePolicies(s.policies) && k1 == k.(metrics := k1.metrics)
    requires Enforced(k1, k', action, mark, e, open, stop, ring) && stop != 0
    ensures var flow := PolicyRuleKey(e.srcID, e.dstID, e.flow.dstPort, e.flow.proto, 0);
            var v := Evaluate(AsEvaluator(Mode(k), s.policies), flow);
            && (action == 0 <==> Passes(v)) && (action == 0 || action == 2 || action == stop)
            && (action == 0 && e.srcID != 0 && e.dstID != 0 ==> (mark <==> v.action == 2))
  {
    assert AsEvaluator(Mode(k), s.policies).unknownMode == Mode(k);
    hide Refused, Admitted, Diverted, AsEvaluator, Pol.PoliciesInSync, UniquePolicies;
    if e.srcID != 0 && e.dstID != 0 {
      var flow := PolicyRuleKey(e.srcID, e.dstID, e.flow.dstPort, e.flow.proto, 0);
      LookupIsEvaluate(k, w, s, flow);
      assert k1.policyMap == k.policyMap;
    }
  }

  /** The maps of a node that has loaded the compiled document and the identity list. */
  predicate Loaded(k: Kernel, rules: seq<PolicyRule>, ids: seq<Identity>, budget: nat) {
    var run := Datapath.Run(Datapath.Ops(Plan(EMPTY, Snapshot(rules, ids))), Datapath.FRESH, budget);
    run.ok && Holding(k, run.state)
  }

  /** On such a node, what enforcement does with a flow is what the document says of it. */
  lemma DocumentDecides(
    spec: PolicySpec, ids: seq<Identity>, rules: seq<PolicyRule>, budget: nat, k: Kernel, k1: Kernel, k': Kernel,
    action: int, mark: bool, e: FlowEvent, open: bool, stop: int, ring: bool)
    requires Accepts(spec, ids) && IsCompiled(spec, ids, rules) && Ids.WellAddressed(ids)
    requires Loaded(k, rules, ids, budget) && k1 == k.(metrics := k1.metrics)
    requires Enforced(k1, k', action, mark, e, open, stop, ring) && stop != 0
    ensures var flow := PolicyRuleKey(e.srcID, e.dstID, e.flow.dstPort, e.flow.proto, 0);
            var wanted := NaiveEvaluate(spec, ids, Mode(k), flow);
            && wanted.Some? && (action == 0 <==> Passes(wanted.value)) && (action == 0 || action == 2 || action == stop)
  {
    assert AsEvaluator(Mode(k), rules).unknownMode == Mode(k);
    hide Accepts, IsCompiled, Datapath.Run, Datapath.Ops, Enforced, NaiveEvaluate, Evaluate, Pol.PoliciesInSync,
      AsEvaluator, Ids.WellAddressed;
    var s := Snapshot(rules, ids);
    var w := Datapath.Run(Datapath.Ops(Plan(EMPTY, s)), Datapath.FRESH, budget).state;
    CompiledUnique(spec, ids, rules);
    LoadedMaps(s, budget);
    AsEvaluatorHolds(Mode(k), rules);
    var flow := PolicyRuleKey(e.srcID, e.dstID, e.flow.dstPort, e.flow.proto, 0);
    MeaningPreserved(spec, ids, rules, AsEvaluator(Mode(k), rules), flow);
    EnforcedIsEvaluate(k, w, s, k1, k', action, mark, e, open, stop, ring);
  }

  lemma HoldersRead(k: Kernel, rules: seq<PolicyRule>, ids: seq<Identity>, budget: nat, p: Bytes, at: nat)
    requires Loaded(k, rules, ids, budget) && UniquePolicies(rules) && Ids.WellAddressed(ids) && at + 4 <= |p|
    ensures HolderOf(k, Address(p, at)) == Holder(ids, p[at..at + 4])
  {
    hide Datapath.Run, Datapath.Ops, HolderOf, Holder, Address, UniquePolicies, Ids.WellAddressed;
    var s := Snapshot(rules, ids);
    LoadedMaps(s, budget);
    HolderRead(k, Datapath.Run(Datapath.Ops(Plan(EMPTY, s)), Datapath.FRESH, budget).state, ids, p, at);
  }

  /** Compiler to kernel: for every accepted document, once its rules and identities are loaded into empty
      maps, every IPv4 packet outside a tunnel passes exactly when the document allows or redirects the flow
      its bytes describe, and is dropped otherwise, in both postures for unknown identities. */
  lemma CompiledPolicyEnforced(
    spec: PolicySpec, ids: seq<Identity>, rules: seq<PolicyRule>, budget: nat, k: Kernel, p: Bytes, ip: nat, ns: nat,
    ring: bool)
    requires Accepts(spec, ids) && IsCompiled(spec, ids, rules) && Ids.WellAddressed(ids)
    requires Loaded(k, rules, ids, budget)
    requires OuterAt(p, ip) && !ToGenevePort(p, ip) && (HasPorts(p, ip) ==> L4(p, ip) + 4 <= |p|)
    ensures var flow := FlowInput(ids, Holder(ids, p[ip + 12..ip + 16]), p, ip);
            var wanted := NaiveEvaluate(spec, ids, Mode(k), flow);
            wanted.Some? && IngressStep(k, p, ns, ring).action == if Passes(wanted.value) then 0 else 2
  {
    assert ip + 20 <= |p|;
    hide Accepts, IsCompiled, Loaded, IngressStep, Enforced, NaiveEvaluate, Mode, OuterAt, ToGenevePort, HolderOf,
      Address, Holder, Ids.WellAddressed, UniquePolicies;
    CompiledUnique(spec, ids, rules);
    HoldersRead(k, rules, ids, budget, p, ip + 12);
    HoldersRead(k, rules, ids, budget, p, ip + 16);
    var ports := if HasPorts(p, ip) then Ports(Word(p, L4(p, ip)), Word(p, L4(p, ip) + 2)) else Ports(0, 0);
    PlainIngress(k, p, ip, ports, ns, ring);
    var v := IngressStep(k, p, ns, ring);
    var e := EventAt(k, p, ip, ports, HolderOf(k, Address(p, ip + 12)), ns);
    DocumentDecides(spec, ids, rules, budget, k, Seen(k, p), v.kernel, v.action, v.mark, e, OpensAt(p, ip), 2, ring);
  }

  /** The same in a tunnel, for frames other than the later segments of a TCP connection: the source is the
      identity the option carries, where there is one. */
  lemma CompiledPolicyEnforcedInTunnel(
    spec: PolicySpec, ids: seq<Identity>, rules: seq<PolicyRule>, budget: nat, k: Kernel, p: Bytes, l: Layout,
    inner: Inner, ports: Ports, ns: nat, ring: bool)
    requires Accepts(spec, ids) && IsCompiled(spec, ids, rules) && Ids.WellAddressed(ids)
    requires Loaded(k, rules, ids, budget) && TunnelAt(p, l, inner, ports)
    ensures var ip := inner.ip;
            var tlv := FindIdentity(p, l.geneve + 8, 4 * l.words, 4);
            var src := if tlv.Some? then tlv.value else Holder(ids, p[ip + 12..ip + 16]);
            var wanted := NaiveEvaluate(spec, ids, Mode(k), FlowInput(ids, src, p, ip));
            var action := IngressStep(k, p, ns, ring).action;
            if p[ip + 9] == 6 && src != 0 && !OpensAt(p, ip) then action == 0
            else wanted.Some? && (action == 0 <==> Passes(wanted.value)) && (action == 0 || action == 2 || action == 4)
  {
    hide Accepts, IsCompiled, Loaded, IngressStep, Enforced, NaiveEvaluate, Mode, OuterAt, GeneveAt, InnerAt, HolderOf,
      Address, Holder, Ids.WellAddressed, UniquePolicies, FindIdentity, OpensAt;
    CompiledUnique(spec, ids, rules);
    var ip := inner.ip;
    HoldersRead(k, rules, ids, budget, p, ip + 12);
    HoldersRead(k, rules, ids, budget, p, ip + 16);
    TunnelIngress(k, p, l, inner, ports, ns, ring);
    var tlv := FindIdentity(p, l.geneve + 8, 4 * l.words, 4);
    var src := if tlv.Some? then tlv.value else HolderOf(k, Address(p, ip + 12));
    if !(p[ip + 9] == 6 && src != 0 && !OpensAt(p, ip)) {
      var v, lost := IngressStep(k, p, ns, ring), tlv.None? && src == 0;
      var k1 := Seen(k, p).(metrics := Seen(k, p).metrics.(
                  decodeFail := k.metrics.decodeFail + if lost then 1 else 0));
      var e := EventAt(k, p, ip, ports, src, ns);
      DocumentDecides(spec, ids, rules, budget, k, k1, v.kernel, v.action, v.mark, e, OpensAt(p, ip), 4, ring);
    }
  }

  lemma OpensShifted(p: Bytes, q: Bytes, from: nat, ip: nat)
    requires ShiftedCopy(p, q, from) && from <= ip && ip + 20 <= |p|
    ensures ip + 28 <= |q| && (OpensAt(q, ip + 8) <==> OpensAt(p, ip)) && q[ip + 17] == p[ip + 9]
  {
    assert L4(q, ip + 8) == L4(p, ip) + 8;
    if L4(p, ip) + 14 <= |p| { assert q[L4(p, ip) + 13 + 8] == p[L4(p, ip) + 13]; }
  }

  /** What a receiving node sees of a frame another node stamped. */
  lemma ReceivedFlow(a: Kernel, b: Kernel, p: Bytes, l: Layout, inner: Inner, n: nat, ports: Ports, csum: Bytes,
                     ns: nat)
    requires StampsByRoom(a, p, l, inner, n, ports) && |csum| == 2 && l.words <= 6
    requires LooksLikeIPv4(p, l.outer) && Recovered(p, l.outer) == None
    ensures var src, ip := HolderOf(a, Address(p, inner.ip + 12)), inner.ip;
            var q := Stamped(p, l, src, csum);
            && src != 0 && ip + 20 <= |p| && ip + 28 <= |q|
            && ParseIngress(q) ==
               Enforce(ip + 8, ports, Some(l.(words := l.words + 2, inner := l.inner + 8)), Some(src))
            && EventAt(b, q, ip + 8, ports, src, ns) == EventAt(b, p, ip, ports, src, ns).(bytes := |q|)
            && (OpensAt(q, ip + 8) <==> OpensAt(p, ip)) && q[ip + 17] == p[ip + 9]
  {
    hide Stamped, FindIdentity, ParseGeneve, ParseIPv4AfterEth, ParseIPv4InGenevePayload, ParseIngress, Tiles, Denied,
      Address, ParseL4Ports, OpensAt;
    var src := SenderID(a, p, inner.ip);
    IdentityCrossesNodes(a, p, l, inner, n, ports, csum);
    StampedParts(p, l, src, csum);
    OpensShifted(p, Stamped(p, l, src, csum), l.inner, inner.ip);
  }

  lemma SentPorts(a: Kernel, p: Bytes, l: Layout, inner: Inner, n: nat, ports: Ports)
    requires StampsByRoom(a, p, l, inner, n, ports)
    ensures inner.ip + 20 <= |p| && PortsAt(p, inner.ip, ports)
  {
    hide ParseIPv4InGenevePayload, ParseGeneve, Tiles, Denied, PortsAt;
    PortsExactlyWhen(p, inner.ip, ports);
  }

  /** Node to node: two nodes that loaded the same document. A frame one of them stamps (by opening room, with
      no identity option before and at most six option words) passes the other exactly when the document
      allows or redirects the inner flow as the identity list names it; later TCP segments pass. */
  lemma PolicyAcrossNodes(
    spec: PolicySpec, ids: seq<Identity>, rules: seq<PolicyRule>, budget: nat, a: Kernel, b: Kernel, p: Bytes,
    l: Layout, inner: Inner, n: nat, ports: Ports, csum: Bytes, ns: nat, ns': nat, ring: bool, ring': bool)
    requires Accepts(spec, ids) && IsCompiled(spec, ids, rules) && Ids.WellAddressed(ids)
    requires Loaded(a, rules, ids, budget) && Loaded(b, rules, ids, budget)
    requires StampsByRoom(a, p, l, inner, n, ports) && |csum| == 2 && l.words <= 6
    requires LooksLikeIPv4(p, l.outer) && Recovered(p, l.outer) == None
    ensures var q, ip := EgressStep(a, p, ns, ring, Grown, csum).packet, inner.ip;
            var flow := FlowInput(ids, Holder(ids, p[ip + 12..ip + 16]), p, ip);
            var wanted := NaiveEvaluate(spec, ids, Mode(b), flow);
            var action := IngressStep(b, q, ns', ring').action;
            if p[ip + 9] == 6 && !OpensAt(p, ip) then action == 0
            else wanted.Some? && (action == 0 <==> Passes(wanted.value))
  {
    hide Accepts, IsCompiled, Loaded, Enforced, NaiveEvaluate, Mode, HolderOf, Address, Holder, Ids.WellAddressed,
      UniquePolicies, OpensAt, Stamped, StampsByRoom, Recovered, IngressStep, EgressStep, ParseIngress, Established,
      LooksLikeIPv4;
    ReceivedFlow(a, b, p, l, inner, n, ports, csum, ns');
    var ip, src := inner.ip, HolderOf(a, Address(p, inner.ip + 12));
    SentPorts(a, p, l, inner, n, ports);
    EgressStampsRoom(a, p, l, inner, n, ports, ns, ring, csum);
    HolderIsIdentity(a, Address(p, ip + 12));
    CompiledUnique(spec, ids, rules);
    HoldersRead(a, rules, ids, budget, p, ip + 12);
    HoldersRead(b, rules, ids, budget, p, ip + 16);
    var q := Stamped(p, l, src, csum);
    var i := ParseIngress(q);
    EstablishedAsStated(b, q, i);
    var v := IngressStep(b, q, ns', ring');
    if Established(b, q, i) {
      StepPasses(b, q, i, Seen(b, q), ns', ring');
    } else {
      StepEnforces(b, q, i, Seen(b, q), ns', ring');
      var e := EventAt(b, q, ip + 8, ports, src, ns');
      DocumentDecides(spec, ids, rules, budget, b, Seen(b, q), v.kernel, v.action, v.mark, e, OpensAt(p, ip), 4, ring');
    }
  }

  lemma CompiledUnique(spec: PolicySpec, ids: seq<Identity>, rules: seq<PolicyRule>)
    requires Accepts(spec, ids) && IsCompiled(spec, ids, rules)
    ensures UniquePolicies(rules) && forall r :: r in rules ==> ValidRule(r)
  {
    CompiledRulesValid(spec, ids, rules);
  }

  /** A push on the policy channel never touches identity_map, not even half way. */
  lemma PolicyPushKeepsIdentities(prev: Snapshot, next: Snapshot, w: Datapath.State, n: nat)
    requires prev.identities == next.identities && UniqueIdentities(prev.identities)
    requires n <= |Datapath.Ops(Plan(prev, next))|
    ensures Datapath.ExecAll(Datapath.Ops(Plan(prev, next))[..n], w).identityMap == w.identityMap
  {
    var ids := prev.identities;
    var plan := Plan(prev, next);
    IdentityTableUnique(ids);
    NothingChanged(ids, IdentityTable(ids));
    NothingGone(ids, IdentityTable(ids).Keys);
    Ids.PolicyOpsFrame(Datapath.Ops(plan)[..n], w);
  }

  /** The action on a packet depends on the maps only through one policy key. */
  lemma ActionFromKey(a: Kernel, b: Kernel, p: Bytes, ns: nat, ring: bool, ns': nat, ring': bool)
    requires a.identityMap == b.identityMap && a.config == b.config
    requires ParseIngress(p).Enforce? ==>
               var f := IngressFlow(a, p, ParseIngress(p), ns);
               Lookup(a, f.e.srcID, f.e.dstID, f.port, f.e.flow.proto) ==
               Lookup(b, f.e.srcID, f.e.dstID, f.port, f.e.flow.proto)
    ensures IngressStep(a, p, ns, ring).action == IngressStep(b, p, ns', ring').action
  {
    hide ParseIngress, Account, TcpOpen, Address, FlowOf, Proto, LooksLikeIPv4;
  }

  /** Never in between: while a policy push is being applied, and also if it stops half way, the ingress
      program treats every packet as it did before the push or as it will after it. */
  lemma PacketSeesOldOrNew(
    w: Datapath.State, prev: Snapshot, next: Snapshot, n: nat, old_: Kernel, half: Kernel, new_: Kernel,
    p: Bytes, ns: nat, ring: bool)
    requires prev.identities == next.identities && UniqueIdentities(prev.identities) && UniquePolicies(next.policies)
    requires Pol.PoliciesInSync(w, prev) && n <= |Datapath.Ops(Plan(prev, next))|
    requires Holding(old_, w)
    requires Holding(half, Datapath.ExecAll(Datapath.Ops(Plan(prev, next))[..n], w))
    requires Holding(new_, Datapath.ExecAll(Datapath.Ops(Plan(prev, next)), w))
    requires old_.config == half.config == new_.config
    ensures var a := IngressStep(half, p, ns, ring).action;
            a == IngressStep(old_, p, ns, ring).action || a == IngressStep(new_, p, ns, ring).action
  {
    hide ParseIngress, IngressStep, Pol.PoliciesInSync, Datapath.Ops, Plan;
    var ops := Datapath.Ops(Plan(prev, next));
    assert ops[..|ops|] == ops;
    PolicyPushKeepsIdentities(prev, next, w, n);
    PolicyPushKeepsIdentities(prev, next, w, |ops|);
    if ParseIngress(p).Enforce? {
      var f := IngressFlow(half, p, ParseIngress(p), ns);
      var key := PolicyRuleKey(f.e.srcID, f.e.dstID, f.port, f.e.flow.proto, DIRECTION_INGRESS);
      assert TranslateKey(key) == PolicyMapKey(key.src, key.dst, key.port, key.proto, DIRECTION_INGRESS);
      Pol.OldOrNew(w, prev, next, n, key);
      Pol.InSyncPointwise(w, prev);
      Pol.ApplyRefines(w, prev, next);
      Pol.InSyncPointwise(Datapath.ExecAll(ops, w), next);
      if Pol.Read(Datapath.ExecAll(ops[..n], w), key) == Pol.Wanted(prev, key) {
        ActionFromKey(half, old_, p, ns, ring, ns, ring);
      } else {
        ActionFromKey(half, new_, p, ns, ring, ns, ring);
      }
    } else {
      ActionFromKey(half, old_, p, ns, ring, ns, ring);
    }
  }
}

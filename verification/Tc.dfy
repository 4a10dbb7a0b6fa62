/** The two tc programs (bpf/tc_ingress.c, bpf/tc_egress.c): identity lookup, policy enforcement,
    telemetry and deny accounting, with the packet rewrites of module Geneve. */
module Tc {
  import opened Wire
  import opened Translate
  import opened Packet
  import opened Geneve

  const TC_ACT_OK := 0
  const TC_ACT_SHOT := 2
  const TC_ACT_STOLEN := 4

  const REASON_POLICY_DENY := 1
  const REASON_POLICY_MISS := 2
  const REASON_UNKNOWN_IDENTITY := 3
  const REASON_INVALID_ACTION := 4
  const REASON_ENCAP_FAIL := 5

  datatype FlowKey = FlowKey(srcIP: U32, dstIP: U32, srcPort: U16, dstPort: U16, proto: U8)

  const ZERO_FLOW := FlowKey(0, 0, 0, 0, 0)

  datatype DenyInfo = DenyInfo(lastNs: nat, count: U32, reason: nat)

  datatype FlowEvent = FlowEvent(ns: nat, flow: FlowKey, verdict: U8, srcID: U32, dstID: U32, bytes: nat)

  datatype Metrics = Metrics(
    packets: nat, bytes: nat, allowed: nat, denied: nat, redirected: nat,
    ringDropped: nat, encapFail: nat, decodeFail: nat)

  /** Everything the programs share: the maps the agent writes, and what the programs count. */
  datatype Kernel = Kernel(
    identityMap: map<U32, IdentityID>,
    policyMap: map<PolicyMapKey, PolicyMapVerdict>,
    config: U32,
    metrics: Metrics,
    events: seq<FlowEvent>,
    denied: map<FlowKey, DenyInfo>,
    udpSeen: set<FlowKey>)

  predicate FailOpen(k: Kernel) {
    k.config % 2 == 1
  }

  /** 0 stands for "not in identity_map". */
  function IdentityOf(k: Kernel, addr: U32): IdentityID {
    if addr in k.identityMap then k.identityMap[addr] else IDENTITY_UNKNOWN
  }

  function Lookup(k: Kernel, src: IdentityID, dst: IdentityID, port: U16, proto: U8): Option<PolicyMapVerdict> {
    Get(k.policyMap, PolicyMapKey(src, dst, port, proto, DIRECTION_INGRESS))
  }

  /** How a flow with these identities is answered. */
  datatype Decision = PassUnknown | DropUnknown | Miss | Allow | Deny | Redirect | Invalid

  function Decide(k: Kernel, src: IdentityID, dst: IdentityID, port: U16, proto: U8): Decision {
    if src == IDENTITY_UNKNOWN || dst == IDENTITY_UNKNOWN then (if FailOpen(k) then PassUnknown else DropUnknown)
    else
      match Lookup(k, src, dst, port, proto)
      case None => Miss
      case Some(v) =>
        if v.action == ACTION_ALLOW then Allow
        else if v.action == ACTION_DENY then Deny
        else if v.action == ACTION_REDIRECT then Redirect
        else Invalid
  }

  function ActionFor(d: Decision, denyAction: int): int {
    match d
    case PassUnknown => TC_ACT_OK
    case Allow => TC_ACT_OK
    case Redirect => TC_ACT_OK
    case Deny => denyAction
    case _ => TC_ACT_SHOT
  }

  /** One flow event: submitted when the ring buffer has room, counted as dropped when not. */
  function Emit(k: Kernel, e: FlowEvent, ring: bool): Kernel {
    if ring then k.(events := k.events + [e])
    else k.(metrics := k.metrics.(ringDropped := k.metrics.ringDropped + 1))
  }

  function Upsert(k: Kernel, flow: FlowKey, reason: nat, ns: nat): Kernel {
    var count := if flow in k.denied then (k.denied[flow].count + 1) % 0x1_0000_0000 else 1;
    k.(denied := k.denied[flow := DenyInfo(ns, count, reason)])
  }

  function Refuse(k: Kernel, e: FlowEvent, reason: nat, ring: bool): Kernel {
    var k1 := Upsert(k, e.flow, reason, e.ns);
    Emit(k1.(metrics := k1.metrics.(denied := k1.metrics.denied + 1)), e, ring)
  }

  /** A flow as enforcement sees it; `e` carries everything but the verdict, `open` is a TCP SYN. */
  datatype Flow = Flow(e: FlowEvent, port: U16, open: bool)

  predicate FirstSight(k: Kernel, f: Flow) {
    || (f.e.flow.proto == IPPROTO_TCP && f.open)
    || (f.e.flow.proto == IPPROTO_UDP && f.e.flow !in k.udpSeen)
  }

  /** enforce_flow's bookkeeping for a decision. */
  function Account(k: Kernel, f: Flow, d: Decision, ring: bool): Kernel {
    var no := f.e.(verdict := ACTION_DENY);
    match d
    case PassUnknown => k
    case DropUnknown => Refuse(k, no, REASON_UNKNOWN_IDENTITY, ring)
    case Miss => Refuse(k, no, REASON_POLICY_MISS, ring)
    case Deny => Refuse(k, no, REASON_POLICY_DENY, ring)
    case Invalid => Refuse(k, no, REASON_INVALID_ACTION, ring)
    case Redirect =>
      Emit(k.(metrics := k.metrics.(redirected := k.metrics.redirected + 1)), f.e.(verdict := ACTION_REDIRECT), ring)
    case Allow =>
      if FirstSight(k, f) then
        var k1 := if f.e.flow.proto == IPPROTO_UDP then k.(udpSeen := k.udpSeen + {f.e.flow}) else k;
        Emit(k1.(metrics := k1.metrics.(allowed := k1.metrics.allowed + 1)), f.e.(verdict := ACTION_ALLOW), ring)
      else k
  }

  function DecisionFor(k: Kernel, f: Flow): Decision {
    Decide(k, f.e.srcID, f.e.dstID, f.port, f.e.flow.proto)
  }

  /** What ingress makes of a frame: pass it through, or enforce a flow. */
  datatype Ingress = Through | Enforce(ip: nat, ports: Ports, layout: Option<Layout>, tlv: Option<U32>)

  function ParseIngress(p: Bytes): (r: Ingress)
    ensures r.Enforce? ==> LooksLikeIPv4(p, r.ip) && ParseIPv4AfterEth(p, 0).Some?
    ensures r.Enforce? && r.layout.Some? ==> ParseGeneve(p, ParseIPv4AfterEth(p, 0).value) == r.layout
    ensures r.Enforce? && r.tlv.Some? ==> r.layout.Some?
  {
    match ParseIPv4AfterEth(p, 0)
    case None => Through
    case Some(outer) =>
      match ParseGeneve(p, outer)
      case None => if IsGeneveUdp(p, outer) then Through else WithPorts(p, outer, None, None)
      case Some(l) =>
        match ParseIPv4InGenevePayload(p, l.inner)
        case None => Through
        case Some(inner) =>
          WithPorts(p, inner.ip, Some(l), FindIdentity(p, l.geneve + 8, 4 * l.words, MAX_OPTS))
  }

  function WithPorts(p: Bytes, ip: nat, layout: Option<Layout>, tlv: Option<U32>): Ingress
    requires LooksLikeIPv4(p, ip)
  {
    match ParseL4Ports(p, ip)
    case None => Through
    case Some(ports) => Enforce(ip, ports, layout, tlv)
  }

  function FlowOf(p: Bytes, ip: nat, ports: Ports): FlowKey
    requires LooksLikeIPv4(p, ip)
  {
    FlowKey(Address(p, ip + 12), Address(p, ip + 16), ports.src, ports.dst, Proto(p, ip))
  }

  /** The source identity: the option's when there is one, else the map's. */
  function SourceID(k: Kernel, p: Bytes, i: Ingress): IdentityID
    requires i.Enforce? && LooksLikeIPv4(p, i.ip)
  {
    if i.tlv.Some? then i.tlv.value else IdentityOf(k, Address(p, i.ip + 12))
  }

  function IngressFlow(k: Kernel, p: Bytes, i: Ingress, ns: nat): Flow
    requires i.Enforce? && LooksLikeIPv4(p, i.ip)
  {
    var src, dst := SourceID(k, p, i), IdentityOf(k, Address(p, i.ip + 16));
    Flow(FlowEvent(ns, FlowOf(p, i.ip, i.ports), ACTION_DENY, src, dst, |p|),
         i.ports.dst, TcpOpen(p, i.ip))
  }

  function Counted(k: Kernel, bytes: nat): Kernel {
    k.(metrics := k.metrics.(packets := k.metrics.packets + 1, bytes := k.metrics.bytes + bytes))
  }

  /** Tunnelled TCP segments other than the opening SYN are let through once the source is known. */
  predicate Established(k: Kernel, p: Bytes, i: Ingress)
    requires i.Enforce? && LooksLikeIPv4(p, i.ip)
  {
    i.layout.Some? && Proto(p, i.ip) == IPPROTO_TCP && SourceID(k, p, i) != IDENTITY_UNKNOWN && !TcpOpen(p, i.ip)
  }

  /** The new state, the tc action, whether the option is to be removed, and whether the redirect mark is set. */
  datatype Verdict = Verdict(kernel: Kernel, action: int, strip: bool, mark: bool)

  /** meridian_tc_ingress, up to the packet rewrite it asks for. */
  function IngressStep(k: Kernel, p: Bytes, ns: nat, ring: bool): Verdict {
    var k1 := Counted(k, |p|);
    var i := ParseIngress(p);
    if i.Through? then Verdict(k1, TC_ACT_OK, false, false)
    else
      var undecoded := i.layout.Some? && i.tlv.None? && SourceID(k, p, i) == IDENTITY_UNKNOWN;
      var k2 := if undecoded then k1.(metrics := k1.metrics.(decodeFail := k1.metrics.decodeFail + 1)) else k1;
      if Established(k, p, i) then Verdict(k2, TC_ACT_OK, i.tlv.Some?, false)
      else
        var f := IngressFlow(k, p, i, ns);
        var d := DecisionFor(k, f);
        var action := ActionFor(d, if i.layout.Some? then TC_ACT_STOLEN else TC_ACT_SHOT);
        Verdict(Account(k2, f, d, ring), action, i.tlv.Some? && action == TC_ACT_OK, d == Redirect)
  }

  /** The frame after ingress: a strip that is refused leaves it alone. */
  function IngressPacket(k: Kernel, p: Bytes, ns: nat, ring: bool): Bytes {
    var i := ParseIngress(p);
    if IngressStep(k, p, ns, ring).strip && i.Enforce? && i.layout.Some? && |p| - i.layout.value.inner <= STRIP_MAX
    then var l := i.layout.value; Stripped(p, l.inner, l.outer, l.udp, l.geneve)
    else p
  }

  /** Whether a stored policy denies the pair outright; egress checks nothing else. */
  predicate Denied(k: Kernel, src: IdentityID, dst: IdentityID, port: U16, proto: U8) {
    dst != IDENTITY_UNKNOWN && Lookup(k, src, dst, port, proto).Some?
    && Lookup(k, src, dst, port, proto).value.action == ACTION_DENY
  }

  datatype Egress = Egress(kernel: Kernel, action: int, packet: Bytes)

  function EncapFail(k: Kernel, p: Bytes, e: Option<FlowEvent>, ring: bool): Egress {
    var k1 := k.(metrics := k.metrics.(encapFail := k.metrics.encapFail + 1));
    if FailOpen(k) then Egress(k1, TC_ACT_OK, p)
    else Egress(if e.Some? then Refuse(k1, e.value, REASON_ENCAP_FAIL, ring) else k1, TC_ACT_SHOT, p)
  }

  /** Traffic that is not Geneve: only an explicit deny between known identities stops it. */
  function EgressPlain(k: Kernel, p: Bytes, outer: nat, ns: nat, ring: bool): Egress
    requires LooksLikeIPv4(p, outer)
  {
    var ports := ParseL4Ports(p, outer);
    var src, dst := IdentityOf(k, Address(p, outer + 12)), IdentityOf(k, Address(p, outer + 16));
    var flow := if ports.Some? then FlowOf(p, outer, ports.value) else ZERO_FLOW;
    var port := if ports.Some? then ports.value.dst else 0;
    if src != IDENTITY_UNKNOWN && Denied(k, src, dst, port, Proto(p, outer))
    then Egress(Refuse(k, FlowEvent(ns, flow, ACTION_DENY, src, dst, |p|), REASON_POLICY_DENY, ring), TC_ACT_STOLEN, p)
    else Egress(k, TC_ACT_OK, p)
  }

  /** A Geneve frame with `count` options whose inner flow and source identity are known and not denied. */
  function EgressStamp(k: Kernel, p: Bytes, l: Layout, inner: Inner, count: nat, e: FlowEvent, ring: bool, head: Head,
                       csum: Bytes): Egress
    requires LooksLikeIPv4(p, l.outer) && ParseGeneve(p, l.outer) == Some(l) && |csum| == 2
    requires inner.reserved == 8 ==> l.inner + 8 <= |p|
  {
    if count >= MAX_OPTS then EncapFail(k, p, Some(e), ring)
    else if inner.reserved == 8 then Egress(k, TC_ACT_OK, WithIdentity(p, l.inner, l.geneve, l.words, e.srcID))
    else if !RoomFits(|p|, l.inner, l.outer) || head.Kept? then EncapFail(k, p, Some(e), ring)
    else if head.Stuck? then EncapFail(k, Pushed(p), Some(e), ring)
    else
      Egress(k, TC_ACT_OK,
             WithIdentity(Bumped(WithRoom(p, l.inner), l.outer, l.udp, csum), l.inner, l.geneve, l.words, e.srcID))
  }

  function EgressGeneve(k: Kernel, p: Bytes, l: Layout, ns: nat, ring: bool, head: Head, csum: Bytes): Egress
    requires LooksLikeIPv4(p, l.outer) && ParseGeneve(p, l.outer) == Some(l) && |csum| == 2
  {
    match OptionCount(p, l.geneve + 8, 4 * l.words, MAX_OPTS)
    case None => EncapFail(k, p, None, ring)
    case Some(count) =>
      match ParseIPv4InGenevePayload(p, l.inner)
      case None => Egress(k, TC_ACT_OK, p)
      case Some(inner) =>
        match ParseL4Ports(p, inner.ip)
        case None => EncapFail(k, p, None, ring)
        case Some(ports) =>
          var src, dst := IdentityOf(k, Address(p, inner.ip + 12)), IdentityOf(k, Address(p, inner.ip + 16));
          var e := FlowEvent(ns, FlowOf(p, inner.ip, ports), ACTION_DENY, src, dst, |p|);
          if src == IDENTITY_UNKNOWN then EncapFail(k, p, Some(e), ring)
          else if Denied(k, src, dst, ports.dst, Proto(p, inner.ip))
          then Egress(Refuse(k, e, REASON_POLICY_DENY, ring), TC_ACT_STOLEN, p)
          else EgressStamp(k, p, l, inner, count, e, ring, head, csum)
  }

  /** meridian_tc_egress. */
  function EgressStep(k: Kernel, p: Bytes, ns: nat, ring: bool, head: Head, csum: Bytes): Egress
    requires |csum| == 2
  {
    match ParseIPv4AfterEth(p, 0)
    case None => Egress(k, TC_ACT_OK, p)
    case Some(outer) =>
      if !IsGeneveUdp(p, outer) then EgressPlain(k, p, outer, ns, ring)
      else
        match ParseGeneve(p, outer)
        case None => EncapFail(k, p, None, ring)
        case Some(l) => EgressGeneve(k, p, l, ns, ring, head, csum)
  }

  /** The parsing half of meridian_tc_ingress, with the search for the identity option. */
  method ParseFrame(p: Bytes) returns (i: Ingress)
    ensures i == ParseIngress(p)
  {
    hide FindIdentity, ParseGeneve, ParseIPv4InGenevePayload, ParseIPv4AfterEth, ParseL4Ports, LooksLikeIPv4;
    var outer := ParseIPv4AfterEth(p, 0);
    if outer.None? { return Through; }
    var geneve := ParseGeneve(p, outer.value);
    if geneve.None? {
      if IsGeneveUdp(p, outer.value) { return Through; }
      return WithPorts(p, outer.value, None, None);
    }
    var l := geneve.value;
    var inner := ParseIPv4InGenevePayload(p, l.inner);
    if inner.None? { return Through; }
    var tlv := ParseGeneveIdentity(p, l.geneve + 8, 4 * l.words);
    i := WithPorts(p, inner.value.ip, Some(l), tlv);
  }

  /** The programs over the maps they share. */
  class Programs {
    var identityMap: map<U32, IdentityID>
    var policyMap: map<PolicyMapKey, PolicyMapVerdict>
    var config: U32
    var metrics: Metrics
    var events: seq<FlowEvent>
    var denied: map<FlowKey, DenyInfo>
    var udpSeen: set<FlowKey>

    function Abs(): Kernel
      reads this
    {
      Kernel(identityMap, policyMap, config, metrics, events, denied, udpSeen)
    }

    method EmitFlowEvent(e: FlowEvent, ring: bool)
      modifies this`events, this`metrics
      ensures Abs() == Emit(old(Abs()), e, ring)
    {
      if !ring {
        metrics := metrics.(ringDropped := metrics.ringDropped + 1);
        return;
      }
      events := events + [e];
    }

    method DeniedFlowUpsert(flow: FlowKey, reason: nat, ns: nat)
      modifies this`denied
      ensures Abs() == Upsert(old(Abs()), flow, reason, ns)
    {
      var count: U32 := 1;
      if flow in denied { count := (denied[flow].count + 1) % 0x1_0000_0000; }
      denied := denied[flow := DenyInfo(ns, count, reason)];
    }

    method RefuseFlow(e: FlowEvent, reason: nat, ring: bool)
      modifies this`events, this`metrics, this`denied
      ensures Abs() == Refuse(old(Abs()), e, reason, ring)
    {
      DeniedFlowUpsert(e.flow, reason, e.ns);
      metrics := metrics.(denied := metrics.denied + 1);
      EmitFlowEvent(e, ring);
    }

    method UdpFirstSight(flow: FlowKey) returns (first: bool)
      modifies this`udpSeen
      ensures first == (flow !in old(udpSeen)) && udpSeen == old(udpSeen) + {flow}
    {
      if flow in udpSeen { return false; }
      udpSeen := udpSeen + {flow};
      first := true;
    }

    method EnforceFlow(f: Flow, denyAction: int, ring: bool) returns (action: int, mark: bool)
      modifies this`events, this`metrics, this`denied, this`udpSeen
      ensures var d := DecisionFor(old(Abs()), f);
              && Abs() == Account(old(Abs()), f, d, ring)
              && action == ActionFor(d, denyAction) && mark == (d == Redirect)
    {
      var no := f.e.(verdict := ACTION_DENY);
      mark := false;
      if f.e.srcID == 0 || f.e.dstID == 0 {
        if config % 2 == 1 { return TC_ACT_OK, mark; }
        RefuseFlow(no, REASON_UNKNOWN_IDENTITY, ring);
        return TC_ACT_SHOT, mark;
      }
      var key := PolicyMapKey(f.e.srcID, f.e.dstID, f.port, f.e.flow.proto, DIRECTION_INGRESS);
      if key !in policyMap {
        RefuseFlow(no, REASON_POLICY_MISS, ring);
        return TC_ACT_SHOT, mark;
      }
      var verdict := policyMap[key].action;
      if verdict == ACTION_ALLOW {
        var first := f.e.flow.proto == IPPROTO_TCP && f.open;
        if f.e.flow.proto == IPPROTO_UDP { first := UdpFirstSight(f.e.flow); }
        if first {
          metrics := metrics.(allowed := metrics.allowed + 1);
          EmitFlowEvent(f.e.(verdict := ACTION_ALLOW), ring);
        }
        return TC_ACT_OK, mark;
      } else if verdict == ACTION_DENY {
        RefuseFlow(no, REASON_POLICY_DENY, ring);
        return denyAction, mark;
      } else if verdict == ACTION_REDIRECT {
        mark := true;
        metrics := metrics.(redirected := metrics.redirected + 1);
        EmitFlowEvent(f.e.(verdict := ACTION_REDIRECT), ring);
        return TC_ACT_OK, mark;
      } else {
        RefuseFlow(no, REASON_INVALID_ACTION, ring);
        return TC_ACT_SHOT, mark;
      }
    }

    method TcIngress(skb: Skb, ns: nat, ring: bool) returns (action: int, mark: bool)
      modifies this, skb.data
      ensures var v := IngressStep(old(Abs()), old(skb.data[..]), ns, ring);
              Abs() == v.kernel && action == v.action && mark == v.mark
      ensures skb.data[..] == IngressPacket(old(Abs()), old(skb.data[..]), ns, ring)
    {
      hide Stripped, FindIdentity, ParseGeneve, ParseIPv4InGenevePayload, ParseIPv4AfterEth, ParseIngress, Account;
      var p := skb.data[..];
      metrics := metrics.(packets := metrics.packets + 1, bytes := metrics.bytes + |p|);
      var i := ParseFrame(p);
      if i.Through? { return TC_ACT_OK, false; }
      var k := Abs();
      var src := SourceID(k, p, i);
      if i.layout.Some? && i.tlv.None? && src == IDENTITY_UNKNOWN {
        metrics := metrics.(decodeFail := metrics.decodeFail + 1);
      }
      if Established(k, p, i) {
        action, mark := TC_ACT_OK, false;
      } else {
        var denyAction := if i.layout.Some? then TC_ACT_STOLEN else TC_ACT_SHOT;
        action, mark := EnforceFlow(IngressFlow(k, p, i, ns), denyAction, ring);
      }
      if i.tlv.Some? && i.layout.Some? && action == TC_ACT_OK {
        var l := i.layout.value;
        var _ := skb.StripMeridianTlv(l.inner, l.outer, l.udp, l.geneve);
      }
    }

    /** encap_fail; `e` is the event of the inner flow when there is one. */
    method FailEncap(e: Option<FlowEvent>, ring: bool) returns (action: int)
      modifies this`events, this`metrics, this`denied
      ensures var r := EncapFail(old(Abs()), [], e, ring);
              Abs() == r.kernel && action == r.action
    {
      metrics := metrics.(encapFail := metrics.encapFail + 1);
      if config % 2 == 1 { return TC_ACT_OK; }
      if e.Some? { RefuseFlow(e.value, REASON_ENCAP_FAIL, ring); }
      action := TC_ACT_SHOT;
    }

    /** The tail of meridian_tc_egress: opens room unless a slot is reserved, and stamps. */
    method Stamp(skb: Skb, l: Layout, inner: Inner, count: nat, e: FlowEvent, ring: bool, head: Head, csum: Bytes)
      returns (action: int)
      requires LooksLikeIPv4(skb.data[..], l.outer) && ParseGeneve(skb.data[..], l.outer) == Some(l) && |csum| == 2
      requires inner.reserved == 8 ==> l.inner + 8 <= skb.data.Length
      modifies this, skb, skb.data
      ensures Egress(Abs(), action, skb.data[..]) ==
              EgressStamp(old(Abs()), old(skb.data[..]), l, inner, count, e, ring, head, csum)
    {
      hide WithIdentity, Bumped, WithRoom, Pushed, Refuse, ParseGeneve, LooksLikeIPv4;
      if count >= MAX_OPTS {
        action := FailEncap(Some(e), ring);
        return;
      }
      if inner.reserved != 8 {
        var failed := skb.InsertInnerTlvRoom(l.inner, l.outer, head);
        if failed {
          action := FailEncap(Some(e), ring);
          return;
        }
        skb.BumpLengths(l.outer, l.udp, csum);
      }
      skb.StampIdentityTlv(l.inner, l.geneve, l.words, e.srcID);
      action := TC_ACT_OK;
    }

    method EgressUntunnelled(p: Bytes, outer: nat, ns: nat, ring: bool) returns (action: int)
      requires LooksLikeIPv4(p, outer)
      modifies this`events, this`metrics, this`denied
      ensures var r := EgressPlain(old(Abs()), p, outer, ns, ring);
              Abs() == r.kernel && action == r.action
    {
      hide LooksLikeIPv4, Refuse, ParseL4Ports;
      var flow, port := ZERO_FLOW, 0;
      var ports := ParseL4Ports(p, outer);
      if ports.Some? { flow, port := FlowOf(p, outer, ports.value), ports.value.dst; }
      var src, dst := IdentityOf(Abs(), Address(p, outer + 12)), IdentityOf(Abs(), Address(p, outer + 16));
      if src == IDENTITY_UNKNOWN { return TC_ACT_OK; }
      if Denied(Abs(), src, dst, port, Proto(p, outer)) {
        RefuseFlow(FlowEvent(ns, flow, ACTION_DENY, src, dst, |p|), REASON_POLICY_DENY, ring);
        return TC_ACT_STOLEN;
      }
      action := TC_ACT_OK;
    }

    method EgressTunnelled(skb: Skb, l: Layout, ns: nat, ring: bool, head: Head, csum: Bytes) returns (action: int)
      requires LooksLikeIPv4(skb.data[..], l.outer) && ParseGeneve(skb.data[..], l.outer) == Some(l) && |csum| == 2
      modifies this, skb, skb.data
      ensures Egress(Abs(), action, skb.data[..]) ==
              EgressGeneve(old(Abs()), old(skb.data[..]), l, ns, ring, head, csum)
    {
      hide LooksLikeIPv4, ParseGeneve, ParseL4Ports, OptionCount, EgressStamp, Refuse;
      var p := skb.data[..];
      var count := ParseGeneveOptionCount(p, l.geneve + 8, 4 * l.words);
      if count.None? {
        action := FailEncap(None, ring);
        return;
      }
      var parsed := ParseIPv4InGenevePayload(p, l.inner);
      if parsed.None? { return TC_ACT_OK; }
      var inner := parsed.value;
      var ports := ParseL4Ports(p, inner.ip);
      if ports.None? {
        action := FailEncap(None, ring);
        return;
      }
      var src, dst := IdentityOf(Abs(), Address(p, inner.ip + 12)), IdentityOf(Abs(), Address(p, inner.ip + 16));
      var e := FlowEvent(ns, FlowOf(p, inner.ip, ports.value), ACTION_DENY, src, dst, |p|);
      if src == IDENTITY_UNKNOWN {
        action := FailEncap(Some(e), ring);
        return;
      }
      if Denied(Abs(), src, dst, ports.value.dst, Proto(p, inner.ip)) {
        RefuseFlow(e, REASON_POLICY_DENY, ring);
        return TC_ACT_STOLEN;
      }
      action := Stamp(skb, l, inner, count.value, e, ring, head, csum);
    }

    method TcEgress(skb: Skb, ns: nat, ring: bool, head: Head, csum: Bytes) returns (action: int)
      requires |csum| == 2
      modifies this, skb, skb.data
      ensures Egress(Abs(), action, skb.data[..]) == EgressStep(old(Abs()), old(skb.data[..]), ns, ring, head, csum)
    {
      hide LooksLikeIPv4, ParseGeneve, ParseIPv4AfterEth, IsGeneveUdp, EgressPlain, EgressGeneve, Refuse;
      var p := skb.data[..];
      var parsed := ParseIPv4AfterEth(p, 0);
      if parsed.None? { return TC_ACT_OK; }
      if !IsGeneveUdp(p, parsed.value) {
        action := EgressUntunnelled(p, parsed.value, ns, ring);
        EgressPlainKeeps(old(Abs()), p, parsed.value, ns, ring);
        return;
      }
      var layout := ParseGeneve(p, parsed.value);
      if layout.None? {
        action := FailEncap(None, ring);
        return;
      }
      action := EgressTunnelled(skb, layout.value, ns, ring, head, csum);
    }
  }

  lemma EgressPlainKeeps(k: Kernel, p: Bytes, outer: nat, ns: nat, ring: bool)
    requires LooksLikeIPv4(p, outer)
    ensures EgressPlain(k, p, outer, ns, ring).packet == p
  {
  }
}

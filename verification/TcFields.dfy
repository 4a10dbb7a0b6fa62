/** What the tc programs do with a packet, case by case, on the bytes of the frame and the entries of the
    maps. */
module TcFields {
  import opened Wire
  import opened Translate
  import opened Packet
  import opened PacketProofs
  import opened PacketBytes
  import opened Geneve
  import opened Tc

  /** A refusal: the flow's deny record is renewed with the reason and counted up, the flow is counted as
      denied, and an event with verdict 1 goes to the ring or is counted as lost. */
  predicate Refused(k: Kernel, k': Kernel, e: FlowEvent, reason: nat, ring: bool) {
    var times := 1 + if e.flow in k.denied then k.denied[e.flow].count else 0;
    k' == k.(denied := k.denied[e.flow := DenyInfo(e.ns, times % 0x1_0000_0000, reason)],
             events := if ring then k.events + [e.(verdict := 1)] else k.events,
             metrics := k.metrics.(denied := k.metrics.denied + 1,
                                   ringDropped := k.metrics.ringDropped + if ring then 0 else 1))
  }

  predicate Admitted(k: Kernel, k': Kernel, e: FlowEvent, ring: bool) {
    k' == k.(events := if ring then k.events + [e.(verdict := 0)] else k.events,
             metrics := k.metrics.(allowed := k.metrics.allowed + 1,
                                   ringDropped := k.metrics.ringDropped + if ring then 0 else 1),
             udpSeen := if e.flow.proto == 17 then k.udpSeen + {e.flow} else k.udpSeen)
  }

  predicate Diverted(k: Kernel, k': Kernel, e: FlowEvent, ring: bool) {
    k' == k.(events := if ring then k.events + [e.(verdict := 2)] else k.events,
             metrics := k.metrics.(redirected := k.metrics.redirected + 1,
                                   ringDropped := k.metrics.ringDropped + if ring then 0 else 1))
  }

  /** Enforcement of the flow of `e`: `stop` is the action of an explicit deny, `open` marks a connection's
      first segment. */
  predicate Enforced(k: Kernel, k': Kernel, action: int, mark: bool, e: FlowEvent, open: bool, stop: int, ring: bool) {
    var key := PolicyMapKey(e.srcID, e.dstID, e.flow.dstPort, e.flow.proto, 0);
    if e.srcID == 0 || e.dstID == 0 then
      !mark && if k.config % 2 == 1 then action == 0 && k' == k else action == 2 && Refused(k, k', e, 3, ring)
    else if key !in k.policyMap then !mark && action == 2 && Refused(k, k', e, 2, ring)
    else
      var stored := k.policyMap[key].action;
      if stored == 0 then
        && !mark && action == 0
        && if (e.flow.proto == 6 && open) || (e.flow.proto == 17 && e.flow !in k.udpSeen)
           then Admitted(k, k', e, ring) else k' == k
      else if stored == 1 then !mark && action == stop && Refused(k, k', e, 1, ring)
      else if stored == 2 then mark && action == 0 && Diverted(k, k', e, ring)
      else !mark && action == 2 && Refused(k, k', e, 4, ring)
  }

  lemma RefusedAsStated(k: Kernel, e: FlowEvent, reason: nat, ring: bool)
    ensures Refused(k, Refuse(k, e.(verdict := 1), reason, ring), e, reason, ring)
  {
  }

  lemma EnforcedAsStated(k: Kernel, k1: Kernel, f: Flow, stop: int, ring: bool)
    requires f.port == f.e.flow.dstPort && k1 == k.(metrics := k1.metrics)
    ensures var d := DecisionFor(k, f);
            Enforced(k1, Account(k1, f, d, ring), ActionFor(d, stop), d == Redirect, f.e, f.open, stop, ring)
  {
    hide Refuse, Refused;
    RefusedAsStated(k1, f.e, 1, ring);
    RefusedAsStated(k1, f.e, 2, ring);
    RefusedAsStated(k1, f.e, 3, ring);
    RefusedAsStated(k1, f.e, 4, ring);
  }

  /** The identity an address stands for, 0 when identity_map has none. */
  function HolderOf(k: Kernel, a: U32): IdentityID {
    if a in k.identityMap then k.identityMap[a] else 0
  }

  /** The flow of the packet at `ip`, sent by `src`. */
  function EventAt(k: Kernel, p: Bytes, ip: nat, ports: Ports, src: IdentityID, ns: nat): FlowEvent
    requires ip + 20 <= |p|
  {
    var flow := FlowKey(Address(p, ip + 12), Address(p, ip + 16), ports.src, ports.dst, p[ip + 9]);
    FlowEvent(ns, flow, 1, src, HolderOf(k, Address(p, ip + 16)), |p|)
  }

  function Seen(k: Kernel, p: Bytes): Kernel {
    k.(metrics := k.metrics.(packets := k.metrics.packets + 1, bytes := k.metrics.bytes + |p|))
  }

  /** An IPv4 packet outside a tunnel, with these ports. */
  predicate PlainAt(p: Bytes, ip: nat, ports: Ports) {
    OuterAt(p, ip) && !ToGenevePort(p, ip) && PortsAt(p, ip, ports)
  }

  lemma PlainParsed(p: Bytes, ip: nat, ports: Ports)
    requires PlainAt(p, ip, ports)
    ensures LooksLikeIPv4(p, ip) && ParseIngress(p) == Enforce(ip, ports, None, None)
  {
    LooksByByte(p, ip);
    OuterExactlyWhen(p, ip);
    GenevePortExactlyWhen(p, ip);
    PortsExactlyWhen(p, ip, ports);
    hide LooksLikeIPv4, ParseIPv4AfterEth, IsGeneveUdp, ParseL4Ports, OuterAt, PortsAt, ToGenevePort;
  }

  lemma HolderIsIdentity(k: Kernel, a: U32)
    ensures IdentityOf(k, a) == HolderOf(k, a)
  {
  }

  lemma FlowAsStated(k: Kernel, p: Bytes, i: Ingress, ns: nat)
    requires i.Enforce? && LooksLikeIPv4(p, i.ip)
    ensures IngressFlow(k, p, i, ns) ==
            Flow(EventAt(k, p, i.ip, i.ports, SourceID(k, p, i), ns), i.ports.dst, OpensAt(p, i.ip))
    ensures IngressFlow(k, p, i, ns).e.flow.dstPort == i.ports.dst
  {
    OpensExactlyWhen(p, i.ip);
    hide LooksLikeIPv4, OpensAt, TcpOpen, Address, SourceID;
  }

  /** The step of a packet that is enforced. */
  lemma StepEnforces(k: Kernel, p: Bytes, i: Ingress, k1: Kernel, ns: nat, ring: bool)
    requires ParseIngress(p) == i && i.Enforce? && !Established(k, p, i)
    requires var lost := i.layout.Some? && i.tlv.None? && SourceID(k, p, i) == 0;
             k1 == Seen(k, p).(metrics := Seen(k, p).metrics.(
                     decodeFail := k.metrics.decodeFail + if lost then 1 else 0))
    ensures var v, stop := IngressStep(k, p, ns, ring), if i.layout.Some? then 4 else 2;
            var e := EventAt(k, p, i.ip, i.ports, SourceID(k, p, i), ns);
            && Enforced(k1, v.kernel, v.action, v.mark, e, OpensAt(p, i.ip), stop, ring)
            && (v.strip <==> i.tlv.Some? && v.action == 0)
  {
    hide ParseIngress, LooksLikeIPv4, Account, Decide, Enforced, OpensAt, EventAt, IngressFlow, SourceID, Established;
    FlowAsStated(k, p, i, ns);
    EnforcedAsStated(k, k1, IngressFlow(k, p, i, ns), if i.layout.Some? then 4 else 2, ring);
  }

  /** Ingress outside a tunnel enforces the packet's own flow; a deny is dropped. */
  lemma PlainIngress(k: Kernel, p: Bytes, ip: nat, ports: Ports, ns: nat, ring: bool)
    requires PlainAt(p, ip, ports)
    ensures var v := IngressStep(k, p, ns, ring);
            var e := EventAt(k, p, ip, ports, HolderOf(k, Address(p, ip + 12)), ns);
            Enforced(Seen(k, p), v.kernel, v.action, v.mark, e, OpensAt(p, ip), 2, ring) && !v.strip
  {
    PlainParsed(p, ip, ports);
    hide ParseIngress, LooksLikeIPv4, IngressStep, Enforced, OpensAt, Address, PlainAt, EventAt, HolderOf, IdentityOf;
    var i := ParseIngress(p);
    HolderIsIdentity(k, Address(p, ip + 12));
    StepEnforces(k, p, i, Seen(k, p), ns, ring);
  }

  /** A Geneve frame with its inner packet and that packet's ports. */
  predicate TunnelAt(p: Bytes, l: Layout, inner: Inner, ports: Ports) {
    && OuterAt(p, l.outer) && GeneveAt(p, l) && InnerAt(p, l.inner, inner)
    && inner.ip + 20 <= |p| && PortsAt(p, inner.ip, ports)
  }

  lemma TunnelHeaders(p: Bytes, l: Layout)
    requires OuterAt(p, l.outer) && GeneveAt(p, l)
    ensures LooksLikeIPv4(p, l.outer) && ParseIPv4AfterEth(p, 0) == Some(l.outer)
    ensures IsGeneveUdp(p, l.outer) && ParseGeneve(p, l.outer) == Some(l)
  {
    LooksByByte(p, l.outer);
    OuterExactlyWhen(p, l.outer);
    GeneveExactlyWhen(p, l.outer, l);
    GenevePortExactlyWhen(p, l.outer);
    hide LooksLikeIPv4, ParseIPv4AfterEth, IsGeneveUdp, ParseGeneve;
  }

  lemma TunnelParsed(p: Bytes, l: Layout, inner: Inner, ports: Ports)
    requires TunnelAt(p, l, inner, ports)
    ensures LooksLikeIPv4(p, inner.ip)
    ensures ParseIngress(p) == Enforce(inner.ip, ports, Some(l), FindIdentity(p, l.geneve + 8, 4 * l.words, 4))
  {
    TunnelHeaders(p, l);
    InnerExactlyWhen(p, l.inner, inner);
    PortsExactlyWhen(p, inner.ip, ports);
    hide LooksLikeIPv4, ParseIPv4AfterEth, IsGeneveUdp, ParseGeneve, ParseIPv4InGenevePayload, ParseL4Ports, OuterAt,
      GeneveAt, InnerAt, PortsAt, FindIdentity;
  }

  /** Ingress in a tunnel: the option's identity comes before the map's; a frame that names no source is
      counted; TCP segments of a known source other than the first pass; every other inner flow is enforced,
      a deny is stolen; the option goes with every frame that passes. */
  lemma TunnelIngress(k: Kernel, p: Bytes, l: Layout, inner: Inner, ports: Ports, ns: nat, ring: bool)
    requires TunnelAt(p, l, inner, ports)
    ensures var v, ip := IngressStep(k, p, ns, ring), inner.ip;
            var tlv := FindIdentity(p, l.geneve + 8, 4 * l.words, 4);
            var src := if tlv.Some? then tlv.value else HolderOf(k, Address(p, ip + 12));
            var lost := tlv.None? && src == 0;
            var k1 := Seen(k, p).(metrics := Seen(k, p).metrics.(
                        decodeFail := k.metrics.decodeFail + if lost then 1 else 0));
            && (v.strip <==> tlv.Some? && v.action == 0)
            && if p[ip + 9] == 6 && src != 0 && !OpensAt(p, ip)
               then v.kernel == k1 && v.action == 0 && !v.mark
               else Enforced(k1, v.kernel, v.action, v.mark, EventAt(k, p, ip, ports, src, ns), OpensAt(p, ip), 4, ring)
  {
    TunnelParsed(p, l, inner, ports);
    var i, ip := ParseIngress(p), inner.ip;
    HolderIsIdentity(k, Address(p, ip + 12));
    hide ParseIngress, LooksLikeIPv4, Enforced, OpensAt, Address, TunnelAt, FindIdentity, EventAt, HolderOf, IdentityOf,
      InnerAt, PortsAt, Established, IngressStep;
    EstablishedAsStated(k, p, i);
    var lost := i.tlv.None? && SourceID(k, p, i) == 0;
    var k1 := Seen(k, p).(metrics := Seen(k, p).metrics.(
                decodeFail := k.metrics.decodeFail + if lost then 1 else 0));
    if Established(k, p, i) {
      StepPasses(k, p, i, k1, ns, ring);
    } else {
      StepEnforces(k, p, i, k1, ns, ring);
    }
  }

  lemma EstablishedAsStated(k: Kernel, p: Bytes, i: Ingress)
    requires i.Enforce? && i.layout.Some? && LooksLikeIPv4(p, i.ip)
    ensures Established(k, p, i) <==> p[i.ip + 9] == 6 && SourceID(k, p, i) != 0 && !OpensAt(p, i.ip)
  {
    OpensExactlyWhen(p, i.ip);
    hide LooksLikeIPv4, OpensAt, TcpOpen, SourceID;
  }

  lemma StepPasses(k: Kernel, p: Bytes, i: Ingress, k1: Kernel, ns: nat, ring: bool)
    requires ParseIngress(p) == i && i.Enforce? && Established(k, p, i)
    requires var lost := i.layout.Some? && i.tlv.None? && SourceID(k, p, i) == 0;
             k1 == Seen(k, p).(metrics := Seen(k, p).metrics.(
                     decodeFail := k.metrics.decodeFail + if lost then 1 else 0))
    ensures IngressStep(k, p, ns, ring) == Verdict(k1, 0, i.tlv.Some?, false)
  {
    hide ParseIngress, LooksLikeIPv4, Account, Decide, IngressFlow, SourceID, Established;
  }

  /** Two addresses of known identities, with a stored deny from the first to the second. */
  predicate StoredDeny(k: Kernel, src: U32, dst: U32, port: U16, proto: U8) {
    && src in k.identityMap && k.identityMap[src] != 0 && dst in k.identityMap && k.identityMap[dst] != 0
    && var key := PolicyMapKey(k.identityMap[src], k.identityMap[dst], port, proto, 0);
       key in k.policyMap && k.policyMap[key].action == 1
  }

  /** Egress outside a tunnel stops a packet, with action 4, exactly when both addresses are known and the
      policy stored for them denies it; anything else passes and leaves no trace. Unreadable ports count as
      port 0. */
  lemma PlainEgress(k: Kernel, p: Bytes, ip: nat, ns: nat, ring: bool, head: Head, csum: Bytes)
    requires OuterAt(p, ip) && !ToGenevePort(p, ip) && |csum| == 2
    ensures var r := EgressStep(k, p, ns, ring, head, csum);
            var port := if HasPorts(p, ip) && L4(p, ip) + 4 <= |p| then Word(p, L4(p, ip) + 2) else 0;
            && r.packet == p
            && if StoredDeny(k, Address(p, ip + 12), Address(p, ip + 16), port, p[ip + 9]) then r.action == 4
               else r.action == 0 && r.kernel == k
  {
    PlainHeaders(k, p, ip, ns, ring, head, csum);
    ReadPorts(p, ip);
    hide LooksLikeIPv4, EgressStep, ParseL4Ports, OuterAt, ToGenevePort, Refuse, Address, HasPorts, L4, Word;
  }

  lemma PlainHeaders(k: Kernel, p: Bytes, ip: nat, ns: nat, ring: bool, head: Head, csum: Bytes)
    requires OuterAt(p, ip) && !ToGenevePort(p, ip) && |csum| == 2
    ensures LooksLikeIPv4(p, ip) && EgressStep(k, p, ns, ring, head, csum) == EgressPlain(k, p, ip, ns, ring)
  {
    LooksByByte(p, ip);
    OuterExactlyWhen(p, ip);
    GenevePortExactlyWhen(p, ip);
    hide LooksLikeIPv4, ParseIPv4AfterEth, IsGeneveUdp, EgressPlain, OuterAt, ToGenevePort;
  }

  lemma ReadPorts(p: Bytes, ip: nat)
    requires LooksLikeIPv4(p, ip)
    ensures ParseL4Ports(p, ip) == if !HasPorts(p, ip) then Some(Ports(0, 0))
                                   else if L4(p, ip) + 4 > |p| then None
                                   else Some(Ports(Word(p, L4(p, ip)), Word(p, L4(p, ip) + 2)))
  {
    assert HeaderBytes(p, ip) == 4 * (p[ip] % 16);
    hide LooksLikeIPv4, HeaderBytes;
  }

  /** The record a stopped packet leaves. */
  lemma PlainEgressRefuses(k: Kernel, p: Bytes, ip: nat, ports: Ports, ns: nat, ring: bool, head: Head, csum: Bytes)
    requires PlainAt(p, ip, ports) && |csum| == 2
    requires StoredDeny(k, Address(p, ip + 12), Address(p, ip + 16), ports.dst, p[ip + 9])
    ensures var e := EventAt(k, p, ip, ports, HolderOf(k, Address(p, ip + 12)), ns);
            Refused(k, EgressStep(k, p, ns, ring, head, csum).kernel, e, 1, ring)
  {
    PlainHeaders(k, p, ip, ns, ring, head, csum);
    PortsExactlyWhen(p, ip, ports);
    var e := EventAt(k, p, ip, ports, HolderOf(k, Address(p, ip + 12)), ns);
    RefusedAsStated(k, e, 1, ring);
    hide LooksLikeIPv4, EgressStep, ParseL4Ports, OuterAt, PortsAt, ToGenevePort, Address, Refuse, Refused;
  }

  /** An encapsulation failure: counted; in the open posture the frame passes as it is, in the closed one it
      is dropped and its flow, where there is one, refused with reason 5. */
  predicate EncapFailed(k: Kernel, r: Egress, e: Option<FlowEvent>, ring: bool) {
    var k1 := k.(metrics := k.metrics.(encapFail := k.metrics.encapFail + 1));
    if k.config % 2 == 1 then r.action == 0 && r.kernel == k1
    else r.action == 2 && if e.Some? then Refused(k1, r.kernel, e.value, 5, ring) else r.kernel == k1
  }

  lemma EncapFailAsStated(k: Kernel, p: Bytes, e: Option<FlowEvent>, ring: bool)
    requires e.Some? ==> e.value.verdict == 1
    ensures EncapFailed(k, EncapFail(k, p, e, ring), e, ring)
  {
  }

  /** Egress in a tunnel, for a frame whose `n` options and inner flow can be read. Action 4 exactly on a stored
      deny between known identities; otherwise encapsulation fails exactly when the source is unknown, four
      options are already there, or room is needed and cannot be had; otherwise the frame goes out, and nothing
      is recorded. */
  lemma TunnelEgress(k: Kernel, p: Bytes, l: Layout, inner: Inner, ports: Ports, n: nat, ns: nat, ring: bool,
                     head: Head, csum: Bytes)
    requires TunnelAt(p, l, inner, ports) && Tiles(p, l.geneve + 8, 4 * l.words, n) && n <= 4 && |csum| == 2
    ensures var r, ip := EgressStep(k, p, ns, ring, head, csum), inner.ip;
            var src, dst := Address(p, ip + 12), Address(p, ip + 16);
            var e := EventAt(k, p, ip, ports, HolderOf(k, src), ns);
            var fits := l.inner < |p| && l.inner - l.outer <= 64 && l.inner <= 80;
            if StoredDeny(k, src, dst, ports.dst, p[ip + 9]) then
              r.action == 4 && r.packet == p && Refused(k, r.kernel, e, 1, ring)
            else if || HolderOf(k, src) == 0 || n == 4
                    || (inner.reserved != 8 && (!fits || head != Grown)) then
              EncapFailed(k, r, Some(e), ring)
            else r.action == 0 && r.kernel == k
  {
    TunnelHeaders(p, l);
    InnerExactlyWhen(p, l.inner, inner);
    PortsExactlyWhen(p, inner.ip, ports);
    CountedExactlyWhenTiled(p, l.geneve + 8, 4 * l.words, MAX_OPTS, n);
    GeneveTunnelEgress(k, p, l, inner, ports, n, ns, ring, head, csum);
    hide LooksLikeIPv4, ParseIPv4AfterEth, IsGeneveUdp, ParseGeneve, ParseIPv4InGenevePayload, ParseL4Ports, OuterAt,
      GeneveAt, InnerAt, PortsAt, OptionCount, Tiles, EgressGeneve, StoredDeny, Refused, EncapFailed, Address;
  }

  lemma GeneveTunnelEgress(k: Kernel, p: Bytes, l: Layout, inner: Inner, ports: Ports, n: nat, ns: nat, ring: bool,
                           head: Head, csum: Bytes)
    requires LooksLikeIPv4(p, l.outer) && ParseGeneve(p, l.outer) == Some(l) && |csum| == 2
    requires ParseIPv4InGenevePayload(p, l.inner) == Some(inner) && ParseL4Ports(p, inner.ip) == Some(ports)
    requires OptionCount(p, l.geneve + 8, 4 * l.words, MAX_OPTS) == Some(n) && n <= 4
    ensures var r, ip := EgressGeneve(k, p, l, ns, ring, head, csum), inner.ip;
            var src, dst := Address(p, ip + 12), Address(p, ip + 16);
            var e := EventAt(k, p, ip, ports, HolderOf(k, src), ns);
            var fits := l.inner < |p| && l.inner - l.outer <= 64 && l.inner <= 80;
            if StoredDeny(k, src, dst, ports.dst, p[ip + 9]) then
              r.action == 4 && r.packet == p && Refused(k, r.kernel, e, 1, ring)
            else if || HolderOf(k, src) == 0 || n == 4
                    || (inner.reserved != 8 && (!fits || head != Grown)) then
              EncapFailed(k, r, Some(e), ring)
            else r.action == 0 && r.kernel == k
  {
    hide LooksLikeIPv4, ParseGeneve, ParseIPv4InGenevePayload, ParseL4Ports, OptionCount, EncapFail, EncapFailed,
      WithIdentity, Bumped, WithRoom, Pushed, Address, Refuse, Refused;
    var e := EventAt(k, p, inner.ip, ports, HolderOf(k, Address(p, inner.ip + 12)), ns);
    RefusedAsStated(k, e, 1, ring);
    EncapFailAsStated(k, p, Some(e), ring);
    EncapFailAsStated(k, Pushed(p), Some(e), ring);
  }

  /** Both programs let a frame without an IPv4 header pass untouched. */
  lemma OtherFrames(k: Kernel, p: Bytes, ns: nat, ring: bool, head: Head, csum: Bytes)
    requires (forall ip :: 0 <= ip ==> !OuterAt(p, ip)) && |csum| == 2
    ensures IngressStep(k, p, ns, ring) == Verdict(Seen(k, p), 0, false, false)
    ensures EgressStep(k, p, ns, ring, head, csum) == Egress(k, 0, p)
  {
    var outer := ParseIPv4AfterEth(p, 0);
    if outer.Some? { OuterExactlyWhen(p, outer.value); }
    hide ParseIPv4AfterEth, OuterAt, Account, IngressFlow, EgressPlain, EgressGeneve, ParseGeneve;
  }

  /** A UDP datagram to the Geneve port that is no Geneve frame: ingress passes it, at egress encapsulation
      fails. */
  lemma BrokenTunnel(k: Kernel, p: Bytes, outer: nat, ns: nat, ring: bool, head: Head, csum: Bytes)
    requires OuterAt(p, outer) && ToGenevePort(p, outer) && |csum| == 2
    requires forall l: Layout :: l.outer == outer ==> !GeneveAt(p, l)
    ensures IngressStep(k, p, ns, ring) == Verdict(Seen(k, p), 0, false, false)
    ensures EncapFailed(k, EgressStep(k, p, ns, ring, head, csum), None, ring)
    ensures EgressStep(k, p, ns, ring, head, csum).packet == p
  {
    LooksByByte(p, outer);
    OuterExactlyWhen(p, outer);
    GenevePortExactlyWhen(p, outer);
    EncapFailAsStated(k, p, None, ring);
    var l := ParseGeneve(p, outer);
    if l.Some? { GeneveExactlyWhen(p, outer, l.value); }
    hide LooksLikeIPv4, ParseIPv4AfterEth, IsGeneveUdp, ParseGeneve, OuterAt, ToGenevePort, GeneveAt, EncapFailed;
  }

  /** The region holds whole options, at most four. */
  predicate UpToFour(p: Bytes, at: nat, len: nat) {
    exists n :: 0 <= n <= 4 && Tiles(p, at, len, n)
  }

  /** No inner flow can be read from the payload: it has no IPv4 header, or that packet lacks its ports. */
  ghost predicate Unread(p: Bytes, at: nat) {
    forall inner: Inner, ports: Ports ::
      InnerAt(p, at, inner) && inner.ip + 20 <= |p| ==> !PortsAt(p, inner.ip, ports)
  }

  ghost predicate NoInner(p: Bytes, at: nat) {
    forall inner: Inner :: !InnerAt(p, at, inner)
  }

  lemma UnreadExactlyWhen(p: Bytes, at: nat)
    ensures Unread(p, at) <==>
            var inner := ParseIPv4InGenevePayload(p, at);
            inner.None? || ParseL4Ports(p, inner.value.ip).None?
    ensures NoInner(p, at) <==> ParseIPv4InGenevePayload(p, at).None?
  {
    hide ParseIPv4InGenevePayload, ParseL4Ports, PortsAt, InnerAt;
    var found := ParseIPv4InGenevePayload(p, at);
    if found.Some? {
      var inner := found.value;
      InnerExactlyWhen(p, at, inner);
      if ParseL4Ports(p, inner.ip).Some? {
        var ports := ParseL4Ports(p, inner.ip).value;
        PortsExactlyWhen(p, inner.ip, ports);
        assert InnerAt(p, at, inner) && inner.ip + 20 <= |p| && PortsAt(p, inner.ip, ports);
      }
    }
    forall inner: Inner | InnerAt(p, at, inner) ensures found == Some(inner) {
      InnerExactlyWhen(p, at, inner);
    }
    if !Unread(p, at) {
      var inner: Inner, ports: Ports :| InnerAt(p, at, inner) && inner.ip + 20 <= |p| && PortsAt(p, inner.ip, ports);
      PortsExactlyWhen(p, inner.ip, ports);
    }
  }

  /** A Geneve frame whose options or inner flow cannot be read. Egress fails on options that do not tile into
      at most four and on missing ports, and passes a payload without IPv4; ingress passes the last two. */
  lemma BrokenInner(k: Kernel, p: Bytes, l: Layout, ns: nat, ring: bool, head: Head, csum: Bytes)
    requires OuterAt(p, l.outer) && GeneveAt(p, l) && |csum| == 2
    ensures var r := EgressStep(k, p, ns, ring, head, csum);
            && (Unread(p, l.inner) ==> IngressStep(k, p, ns, ring) == Verdict(Seen(k, p), 0, false, false))
            && if !UpToFour(p, l.geneve + 8, 4 * l.words) then EncapFailed(k, r, None, ring) && r.packet == p
               else if NoInner(p, l.inner) then r == Egress(k, 0, p)
               else Unread(p, l.inner) ==> EncapFailed(k, r, None, ring) && r.packet == p
  {
    hide IngressStep, OuterAt, GeneveAt, Unread, NoInner, ParseIPv4InGenevePayload, EncapFail, EncapFailed, UpToFour,
      LooksLikeIPv4, ParseIPv4AfterEth, IsGeneveUdp, ParseGeneve, EgressGeneve;
    TunnelHeaders(p, l);
    UnreadExactlyWhen(p, l.inner);
    OptionsTiled(p, l.geneve + 8, 4 * l.words);
    EncapFailAsStated(k, p, None, ring);
    BrokenEgress(k, p, l, ns, ring, head, csum);
    if Unread(p, l.inner) { BrokenIngress(k, p, l, ns, ring); }
    Untouched(k, p, None, ring);
  }

  lemma Untouched(k: Kernel, p: Bytes, e: Option<FlowEvent>, ring: bool)
    ensures EncapFail(k, p, e, ring).packet == p
  {
  }

  lemma BrokenEgress(k: Kernel, p: Bytes, l: Layout, ns: nat, ring: bool, head: Head, csum: Bytes)
    requires LooksLikeIPv4(p, l.outer) && ParseGeneve(p, l.outer) == Some(l) && |csum| == 2
    ensures var r, inner := EgressGeneve(k, p, l, ns, ring, head, csum), ParseIPv4InGenevePayload(p, l.inner);
            if OptionCount(p, l.geneve + 8, 4 * l.words, MAX_OPTS).None? then r == EncapFail(k, p, None, ring)
            else if inner.None? then r == Egress(k, 0, p)
            else ParseL4Ports(p, inner.value.ip).None? ==> r == EncapFail(k, p, None, ring)
  {
    hide LooksLikeIPv4, ParseGeneve, EncapFail, ParseIPv4InGenevePayload, ParseL4Ports, OptionCount, EgressStamp,
      Denied, Refuse, Address;
  }

  lemma BrokenIngress(k: Kernel, p: Bytes, l: Layout, ns: nat, ring: bool)
    requires OuterAt(p, l.outer) && GeneveAt(p, l) && Unread(p, l.inner)
    ensures IngressStep(k, p, ns, ring) == Verdict(Seen(k, p), 0, false, false)
  {
    TunnelHeaders(p, l);
    UnreadExactlyWhen(p, l.inner);
    hide LooksLikeIPv4, ParseIPv4AfterEth, IsGeneveUdp, ParseGeneve, OuterAt, GeneveAt, Unread, NoInner, FindIdentity,
      ParseIPv4InGenevePayload, ParseL4Ports, Account, IngressFlow, Established;
  }

  lemma OptionsTiled(p: Bytes, at: nat, len: nat)
    ensures OptionCount(p, at, len, MAX_OPTS).Some? <==> UpToFour(p, at, len)
  {
    forall n | 0 <= n <= 4 ensures OptionCount(p, at, len, MAX_OPTS) == Some(n) <==> Tiles(p, at, len, n) {
      CountedExactlyWhenTiled(p, at, len, MAX_OPTS, n);
    }
    if OptionCount(p, at, len, MAX_OPTS).Some? {
      CountedExactlyWhenTiled(p, at, len, MAX_OPTS, OptionCount(p, at, len, MAX_OPTS).value);
    }
  }
}

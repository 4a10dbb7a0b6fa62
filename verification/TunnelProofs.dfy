/** The identity option from the sending tc program to the receiving one. */
module TunnelProofs {
  import opened Wire
  import opened Translate
  import opened Packet
  import opened Geneve
  import opened GeneveProofs
  import opened Tc

  /** The inner flow has ports, a known source, and no policy against it. */
  predicate Forwarded(k: Kernel, p: Bytes, ip: nat, ports: Ports)
    requires LooksLikeIPv4(p, ip)
  {
    && ParseL4Ports(p, ip) == Some(ports)
    && SenderID(k, p, ip) != IDENTITY_UNKNOWN
    && !Denied(k, SenderID(k, p, ip), IdentityOf(k, Address(p, ip + 16)), ports.dst, Proto(p, ip))
  }

  /** The identity the sender's map gives the inner source. */
  function SenderID(k: Kernel, p: Bytes, ip: nat): IdentityID
    requires LooksLikeIPv4(p, ip)
  {
    IdentityOf(k, Address(p, ip + 12))
  }

  /** The frames egress stamps by opening room, with the inner flow it read. */
  predicate StampsByRoom(k: Kernel, p: Bytes, l: Layout, inner: Inner, n: nat, ports: Ports) {
    Stampable(p, l, inner, n) && RoomFits(|p|, l.inner, l.outer) && Forwarded(k, p, inner.ip, ports)
  }

  lemma EgressStampsRoom(k: Kernel, p: Bytes, l: Layout, inner: Inner, n: nat, ports: Ports, ns: nat, ring: bool,
                         csum: Bytes)
    requires StampsByRoom(k, p, l, inner, n, ports) && |csum| == 2
    ensures EgressStep(k, p, ns, ring, Grown, csum) ==
            Egress(k, TC_ACT_OK, Stamped(p, l, SenderID(k, p, inner.ip), csum))
  {
    hide EgressGeneve, ParseIPv4AfterEth, ParseIPv4InGenevePayload, LooksLikeIPv4, Tiles, Forwarded, Stamped;
    assert IsGeneveUdp(p, l.outer);
    GeneveStampsRoom(k, p, l, inner, n, ports, ns, ring, csum);
  }

  lemma GeneveStampsRoom(k: Kernel, p: Bytes, l: Layout, inner: Inner, n: nat, ports: Ports, ns: nat, ring: bool,
                         csum: Bytes)
    requires StampsByRoom(k, p, l, inner, n, ports) && |csum| == 2
    ensures EgressGeneve(k, p, l, ns, ring, Grown, csum) ==
            Egress(k, TC_ACT_OK, Stamped(p, l, SenderID(k, p, inner.ip), csum))
  {
    hide ParseIPv4AfterEth, ParseIPv4InGenevePayload, LooksLikeIPv4, ParseGeneve, OptionCount, WithIdentity, Bumped,
      WithRoom, Pushed, Denied, Tiles, ParseL4Ports, Address, Proto, EncapFail, Refuse;
    CountedExactlyWhenTiled(p, l.geneve + 8, 4 * l.words, MAX_OPTS, n);
  }

  /** The room limits admit at most seven option words, and seven only behind plain outer headers. */
  lemma AtMostSevenWords(k: Kernel, p: Bytes, l: Layout, inner: Inner, n: nat, ports: Ports)
    requires StampsByRoom(k, p, l, inner, n, ports)
    ensures l.words <= 7 && (l.words == 7 ==> l.outer == 14 && l.udp == 34)
  {
    hide ParseIPv4InGenevePayload, Tiles, Forwarded;
  }

  /** Exactly when the receiver recovers the identity from a frame egress sends after opening room: at most
      six option words before, and no earlier option that names another identity. */
  lemma SentRecoveredExactlyWhen(k: Kernel, p: Bytes, l: Layout, inner: Inner, n: nat, ports: Ports, ns: nat,
                                 ring: bool,
                                 csum: Bytes)
    requires StampsByRoom(k, p, l, inner, n, ports) && |csum| == 2
    ensures var q := EgressStep(k, p, ns, ring, Grown, csum).packet;
            var src := SenderID(k, p, inner.ip);
            && LooksLikeIPv4(q, l.outer)
            && (Recovered(q, l.outer) == Some(src) <==>
                l.words <= 6 && (Recovered(p, l.outer) == None || Recovered(p, l.outer) == Some(src)))
            && (l.words == 7 ==> ParseIngress(q) == Through)
  {
    hide Stamped, EgressStep, Recovered, ParseIPv4AfterEth, ParseIPv4InGenevePayload, ParseGeneve, FindIdentity, Tiles,
      Forwarded, LooksLikeIPv4;
    EgressStampsRoom(k, p, l, inner, n, ports, ns, ring, csum);
    RecoveredExactlyWhen(p, l, inner, n, SenderID(k, p, inner.ip), csum);
    IdentityRecovery(p, l, inner, n, SenderID(k, p, inner.ip), csum);
  }

  const QUIET := Metrics(0, 0, 0, 0, 0, 0, 0, 0)

  /** A node that knows address 0.0.0.0 as identity 1, and allows its traffic to itself. */
  function Node(): Kernel {
    var key := PolicyMapKey(1, 1, 0, 1, DIRECTION_INGRESS);
    Kernel(map[0 := 1], map[key := PolicyMapVerdict(ACTION_ALLOW, 0, 0)], 0, QUIET, [], map[], {})
  }

  lemma NodeKnows()
    ensures IdentityOf(Node(), 0) == 1 && !Denied(Node(), 1, 1, 0, 1) && Decide(Node(), 1, 1, 0, 1) == Allow
  {
  }

  /** A Geneve frame with one option of `words` words (none if zero), then an inner header `slot` bytes on,
      and `length` bytes in all. */
  function Sample(words: nat, slot: nat, length: nat): Bytes
    requires words <= 8
  {
    seq(length, i => SampleByte(words, slot, i))
  }

  function SampleByte(words: nat, slot: nat, i: int): U8
    requires words <= 8
  {
    if i == 12 then 8
    else if i == 14 then 0x45
    else if i == 23 then IPPROTO_UDP
    else if i == 36 then 0x17
    else if i == 37 then 0xc1
    else if i == 42 then words
    else if words > 0 && i == 53 then words - 1
    else if i == 50 + 4 * words + slot then 0x45
    else if i == 50 + 4 * words + slot + 9 then 1
    else 0
  }

  /** The bytes of a sample that the parsers look at. */
  predicate IsSample(p: Bytes, words: nat, slot: nat) {
    && words <= 8 && slot <= 8 && 70 + 4 * words + slot <= |p|
    && p[12] == 8 && p[13] == 0 && p[14] == 0x45 && p[23] == IPPROTO_UDP && p[36] == 0x17 && p[37] == 0xc1
    && p[42] == words && p[50] != 0x4d && (words > 0 ==> p[53] == words - 1)
    && IsHeader(p, 50 + 4 * words + slot)
  }

  /** A plain ICMP header from 0.0.0.0 to 0.0.0.0. */
  predicate IsHeader(p: Bytes, ip: nat) {
    && ip + 20 <= |p|
    && p[ip] == 0x45 && p[ip + 8] == 0 && p[ip + 9] == 1
    && Zeros(p, ip + 12) && Zeros(p, ip + 16)
  }

  predicate Zeros(p: Bytes, at: nat) {
    at + 4 <= |p| && p[at] == 0 && p[at + 1] == 0 && p[at + 2] == 0 && p[at + 3] == 0
  }

  lemma SampleBytes(words: nat, slot: nat, length: nat)
    requires words <= 8 && slot <= 8 && length >= 70 + 4 * words + slot
    ensures |Sample(words, slot, length)| == length && IsSample(Sample(words, slot, length), words, slot)
  {
  }

  lemma SampleOuter(p: Bytes, words: nat, slot: nat)
    requires IsSample(p, words, slot)
    ensures ParseIPv4AfterEth(p, 0) == Some(14)
    ensures ParseGeneve(p, 14) == Some(Layout(14, 34, 42, words, 50 + 4 * words))
  {
    assert Be16(p, 12) == ETH_P_IP && Be16(p, 36) == GENEVE_PORT;
    assert HeaderBytes(p, 14) == 20;
  }

  /** The sample has one option, or none, and it is not an identity option. */
  lemma SampleOptions(p: Bytes, words: nat, slot: nat)
    requires IsSample(p, words, slot)
    ensures Tiles(p, 50, 4 * words, if words == 0 then 0 else 1)
    ensures FindIdentity(p, 50, 4 * words, MAX_OPTS) == None
  {
    if words > 0 {
      assert OptionSize(p, 50) == 4 * words;
      assert Tiles(p, 50 + 4 * words, 0, 0);
      assert !IsIdentityOption(p, 50);
    }
  }

  lemma ZeroAddress(p: Bytes, at: nat)
    requires Zeros(p, at)
    ensures Address(p, at) == 0
  {
  }

  lemma NoPorts(p: Bytes, ip: nat)
    requires LooksLikeIPv4(p, ip) && Proto(p, ip) == 1
    ensures ParseL4Ports(p, ip) == Some(Ports(0, 0))
  {
  }

  lemma IcmpHeader(p: Bytes, ip: nat)
    requires IsHeader(p, ip)
    ensures LooksLikeIPv4(p, ip) && Proto(p, ip) == 1
  {
  }

  lemma FromNowhere(p: Bytes, ip: nat)
    requires IsHeader(p, ip)
    ensures Address(p, ip + 12) == 0
  {
    ZeroAddress(p, ip + 12);
  }

  lemma ToNowhere(p: Bytes, ip: nat)
    requires IsHeader(p, ip)
    ensures Address(p, ip + 16) == 0
  {
    ZeroAddress(p, ip + 16);
  }

  lemma SampleFlow(p: Bytes, ip: nat)
    requires IsHeader(p, ip)
    ensures LooksLikeIPv4(p, ip) && Forwarded(Node(), p, ip, Ports(0, 0)) && SenderID(Node(), p, ip) == 1
    ensures FlowOf(p, ip, Ports(0, 0)) == FlowKey(0, 0, 0, 0, 1)
  {
    hide Node, IsHeader, LooksLikeIPv4, ParseL4Ports, Proto, Address, Denied, IdentityOf;
    IcmpHeader(p, ip);
    NoPorts(p, ip);
    FromNowhere(p, ip);
    ToNowhere(p, ip);
    NodeKnows();
  }

  /** Without a slot, the sample's inner header is found where it is. */
  lemma SampleInner(p: Bytes, words: nat)
    requires IsSample(p, words, 0)
    ensures ParseIPv4InGenevePayload(p, 50 + 4 * words) == Some(Inner(50 + 4 * words, 0))
  {
  }

  lemma SampleStamps(p: Bytes, words: nat)
    requires IsSample(p, words, 0) && words <= 7 && 50 + 4 * words < |p|
    ensures StampsByRoom(Node(), p, Layout(14, 34, 42, words, 50 + 4 * words), Inner(50 + 4 * words, 0),
                         if words == 0 then 0 else 1, Ports(0, 0))
    ensures Recovered(p, 14) == None
  {
    hide Node, IsHeader, Tiles, ParseIPv4AfterEth, ParseGeneve, ParseIPv4InGenevePayload, Forwarded, FindIdentity,
      LooksLikeIPv4;
    SampleOuter(p, words, 0);
    SampleOptions(p, words, 0);
    SampleFlow(p, 50 + 4 * words);
    SampleInner(p, words);
  }

  /** Seven option words: egress stamps such a frame and ingress passes it by, option and all. */
  lemma SevenWordsLost(ns: nat, ring: bool, csum: Bytes) returns (p: Bytes, l: Layout, inner: Inner, ports: Ports)
    requires |csum| == 2
    ensures StampsByRoom(Node(), p, l, inner, 1, ports) && l.words == 7 && Recovered(p, l.outer) == None
    ensures EgressStep(Node(), p, ns, ring, Grown, csum).action == TC_ACT_OK
    ensures ParseIngress(EgressStep(Node(), p, ns, ring, Grown, csum).packet) == Through
  {
    hide Node, Sample, EgressStep, Stamped, StampsByRoom, Recovered, ParseIngress, SenderID;
    var words := 7;
    p, l, inner, ports := Sample(words, 0, 98), Layout(14, 34, 42, words, 78), Inner(78, 0), Ports(0, 0);
    SampleBytes(words, 0, 98);
    SampleStamps(p, words);
    EgressStampsRoom(Node(), p, l, inner, 1, ports, ns, ring, csum);
    SentRecoveredExactlyWhen(Node(), p, l, inner, 1, ports, ns, ring, csum);
  }

  /** The frames egress stamps in a reserved slot. */
  predicate StampsInSlot(k: Kernel, p: Bytes, l: Layout, n: nat, ports: Ports) {
    Slotted(p, l, n) && Forwarded(k, p, l.inner + 8, ports)
  }

  lemma EgressStampsSlot(k: Kernel, p: Bytes, l: Layout, n: nat, ports: Ports, ns: nat, ring: bool, head: Head,
                         csum: Bytes)
    requires StampsInSlot(k, p, l, n, ports) && |csum| == 2
    ensures EgressStep(k, p, ns, ring, head, csum) ==
            Egress(k, TC_ACT_OK, WithIdentity(p, l.inner, l.geneve, l.words, SenderID(k, p, l.inner + 8)))
  {
    hide EgressGeneve, ParseIPv4AfterEth, LooksLikeIPv4, Tiles, Forwarded, WithIdentity;
    assert IsGeneveUdp(p, l.outer);
    GeneveStampsSlot(k, p, l, n, ports, ns, ring, head, csum);
  }

  lemma SlotFound(p: Bytes, at: nat)
    requires LooksLikeIPv4(p, at + 8)
    ensures ParseIPv4InGenevePayload(p, at) == Some(Inner(at + 8, 8))
  {
  }

  lemma GeneveStampsSlot(k: Kernel, p: Bytes, l: Layout, n: nat, ports: Ports, ns: nat, ring: bool, head: Head,
                         csum: Bytes)
    requires StampsInSlot(k, p, l, n, ports) && |csum| == 2
    ensures EgressGeneve(k, p, l, ns, ring, head, csum) ==
            Egress(k, TC_ACT_OK, WithIdentity(p, l.inner, l.geneve, l.words, SenderID(k, p, l.inner + 8)))
  {
    hide ParseIPv4AfterEth, ParseIPv4InGenevePayload, LooksLikeIPv4, ParseGeneve, OptionCount, WithIdentity, Bumped,
      WithRoom, Pushed, Denied, Tiles, ParseL4Ports, Address, Proto, EncapFail, Refuse;
    CountedExactlyWhenTiled(p, l.geneve + 8, 4 * l.words, MAX_OPTS, n);
    SlotFound(p, l.inner);
  }

  /** The same for a frame stamped in its slot, which the room limits do not concern: with seven or eight
      option words the receiver passes it by. */
  lemma SlotRecoveredExactlyWhen(k: Kernel, p: Bytes, l: Layout, n: nat, ports: Ports, ns: nat, ring: bool, head: Head,
                                 csum: Bytes)
    requires StampsInSlot(k, p, l, n, ports) && |csum| == 2
    ensures var q := EgressStep(k, p, ns, ring, head, csum).packet;
            var src := SenderID(k, p, l.inner + 8);
            && LooksLikeIPv4(q, l.outer)
            && (Recovered(q, l.outer) == Some(src) <==>
                l.words <= 6 && (Recovered(p, l.outer) == None || Recovered(p, l.outer) == Some(src)))
            && (l.words > 6 ==> ParseIngress(q) == Through)
  {
    hide WithIdentity, EgressStep, ParseIPv4AfterEth, ParseIPv4InGenevePayload, ParseGeneve, FindIdentity, Tiles,
      Forwarded, LooksLikeIPv4;
    EgressStampsSlot(k, p, l, n, ports, ns, ring, head, csum);
    SlotRecovery(p, l, n, SenderID(k, p, l.inner + 8));
  }

  /** A frame without a slot whose inner header is read as one loses the first eight bytes of that header to
      the option, and nothing moves. */
  lemma MisreadOverwritten(k: Kernel, p: Bytes, l: Layout, n: nat, ports: Ports, ns: nat, ring: bool, head: Head,
                           csum: Bytes)
    requires StampsInSlot(k, p, l, n, ports) && LooksLikeIPv4(p, l.inner) && |csum| == 2
    ensures var q := EgressStep(k, p, ns, ring, head, csum).packet;
            && |q| == |p| && q[l.inner..l.inner + 8] == IdentityOption(SenderID(k, p, l.inner + 8))
            && q[l.inner + 8..] == p[l.inner + 8..]
  {
    hide EgressStep, WithIdentity, IdentityOption, Tiles, ParseIPv4AfterEth, Forwarded, LooksLikeIPv4;
    EgressStampsSlot(k, p, l, n, ports, ns, ring, head, csum);
    SlotParts(p, l, n, SenderID(k, p, l.inner + 8));
  }

  /** Eight option words and a slot: stamped, and lost. */
  lemma EightWordsLost(ns: nat, ring: bool, head: Head, csum: Bytes) returns (p: Bytes, l: Layout, ports: Ports)
    requires |csum| == 2
    ensures StampsInSlot(Node(), p, l, 1, ports) && l.words == 8
    ensures EgressStep(Node(), p, ns, ring, head, csum).action == TC_ACT_OK
    ensures ParseIngress(EgressStep(Node(), p, ns, ring, head, csum).packet) == Through
  {
    hide Node, Sample, EgressStep, WithIdentity, ParseIngress, SenderID, Tiles, ParseIPv4AfterEth, ParseGeneve,
      Forwarded, LooksLikeIPv4, FindIdentity, IsHeader;
    var words := 8;
    p, l, ports := Sample(words, 8, 110), Layout(14, 34, 42, words, 82), Ports(0, 0);
    SampleBytes(words, 8, 110);
    SampleOuter(p, words, 8);
    SampleOptions(p, words, 8);
    SampleFlow(p, 90);
    EgressStampsSlot(Node(), p, l, 1, ports, ns, ring, head, csum);
    SlotRecoveredExactlyWhen(Node(), p, l, 1, ports, ns, ring, head, csum);
  }

  /** The inner flow reads the same, eight bytes later. */
  lemma FlowShifted(p: Bytes, q: Bytes, from: nat, ip: nat)
    requires ShiftedCopy(p, q, from) && ip >= from && LooksLikeIPv4(p, ip)
    ensures LooksLikeIPv4(q, ip + 8)
    ensures ParseL4Ports(q, ip + 8) == ParseL4Ports(p, ip)
    ensures Proto(q, ip + 8) == Proto(p, ip)
    ensures Address(q, ip + 20) == Address(p, ip + 12) && Address(q, ip + 24) == Address(p, ip + 16)
  {
    hide Be16, LittleEndian32;
    LooksShifted(p, q, from, ip);
    assert q[ip + 8] == p[ip] && q[ip + 9 + 8] == p[ip + 9];
    assert q[ip + 20] == p[ip + 12] && q[ip + 21] == p[ip + 13] && q[ip + 22] == p[ip + 14] && q[ip + 23] == p[ip + 15];
    assert q[ip + 24] == p[ip + 16] && q[ip + 25] == p[ip + 17] && q[ip + 26] == p[ip + 18] && q[ip + 27] == p[ip + 19];
    var l4 := ip + HeaderBytes(p, ip);
    assert HeaderBytes(q, ip + 8) == HeaderBytes(p, ip);
    if l4 + 4 <= |p| {
      Be16Shifted(p, q, from, l4);
      Be16Shifted(p, q, from, l4 + 2);
    }
  }

  lemma Be16Shifted(p: Bytes, q: Bytes, from: nat, at: nat)
    requires ShiftedCopy(p, q, from) && at >= from && at + 2 <= |p|
    ensures Be16(q, at + 8) == Be16(p, at)
  {
    assert q[at + 8] == p[at] && q[at + 1 + 8] == p[at + 1];
  }

  /** The identity a stamped frame carries: an earlier option's, else the sender's. */
  function Carried(p: Bytes, l: Layout, src: IdentityID): IdentityID
    requires LooksLikeIPv4(p, l.outer)
  {
    if Recovered(p, l.outer).Some? then Recovered(p, l.outer).value else src
  }

  /** Node to node: with at most six option words before, a frame one node stamped is enforced by any other
      node as the same inner flow, with the identity the sender's map gave its source unless an earlier
      option names one; with seven it is passed by. */
  lemma IdentityCrossesNodes(k: Kernel, p: Bytes, l: Layout, inner: Inner, n: nat, ports: Ports, csum: Bytes)
    requires StampsByRoom(k, p, l, inner, n, ports) && |csum| == 2
    ensures var src := SenderID(k, p, inner.ip);
            var q := Stamped(p, l, src, csum);
            var l' := l.(words := l.words + 2, inner := l.inner + 8);
            && ParseIngress(q) ==
               (if l.words <= 6 then Enforce(inner.ip + 8, ports, Some(l'), Some(Carried(p, l, src))) else Through)
            && LooksLikeIPv4(q, inner.ip + 8)
            && FlowOf(q, inner.ip + 8, ports) == FlowOf(p, inner.ip, ports)
  {
    hide Stamped, FindIdentity, ParseGeneve, ParseIPv4AfterEth, ParseIPv4InGenevePayload, IsGeneveUdp, LooksLikeIPv4,
      ParseL4Ports, Tiles, Denied, SenderID, ShiftedCopy, Address, Proto;
    var src := SenderID(k, p, inner.ip);
    var q := Stamped(p, l, src, csum);
    IdentityRecovery(p, l, inner, n, src, csum);
    StampedParts(p, l, src, csum);
    FlowShifted(p, q, l.inner, inner.ip);
  }

  /** A stamped frame never equals the original, not even in its first bytes. */
  lemma StampedDiffers(p: Bytes, l: Layout, id: U32, csum: Bytes)
    requires l.outer + 20 <= l.udp && l.udp + 8 == l.geneve && l.inner == l.geneve + 8 + 4 * l.words <= |p|
    requires |csum| == 2 && l.words == p[l.geneve] <= MAX_OPT_WORDS
    ensures Stamped(p, l, id, csum)[..|p|] != p
  {
    hide Stamped;
    StampedParts(p, l, id, csum);
    assert Stamped(p, l, id, csum)[..|p|][l.geneve] == l.words + OPT_WORDS;
  }

  /** Sent and received: when the receiver lets a frame through and asks for the strip, it hands the frame on
      byte for byte as it was before egress, exactly when the payload is at most 256 bytes, there was no
      option, and the outer lengths and checksum were consistent. */
  lemma StripRestores(k: Kernel, k': Kernel, p: Bytes, l: Layout, inner: Inner, n: nat, ports: Ports, csum: Bytes,
                      ns: nat, ring: bool)
    requires StampsByRoom(k, p, l, inner, n, ports) && |csum| == 2
    requires IngressStep(k', Stamped(p, l, SenderID(k, p, inner.ip), csum), ns, ring).strip
    ensures var q := Stamped(p, l, SenderID(k, p, inner.ip), csum);
            IngressPacket(k', q, ns, ring)[..|p|] == p <==>
            |p| - l.inner <= STRIP_MAX && l.words == 0 && Consistent(p, l, csum)
  {
    hide Stamped, Stripped, IngressStep, ParseIngress, Tiles, Forwarded, SenderID, Consistent, Carried;
    IdentityCrossesNodes(k, p, l, inner, n, ports, csum);
    OnlyEnforcedStripped(k', Stamped(p, l, SenderID(k, p, inner.ip), csum), ns, ring);
    RoundTripExactlyWhen(p, l, SenderID(k, p, inner.ip), csum);
    StampedDiffers(p, l, SenderID(k, p, inner.ip), csum);
  }

  lemma OnlyEnforcedStripped(k: Kernel, q: Bytes, ns: nat, ring: bool)
    ensures IngressStep(k, q, ns, ring).strip ==> ParseIngress(q).Enforce? && ParseIngress(q).tlv.Some?
    ensures IngressStep(k, q, ns, ring).strip ==> IngressStep(k, q, ns, ring).action == TC_ACT_OK
  {
    hide ParseIngress, Account, Decide, IngressFlow, Established;
  }

  /** A longer payload is passed on with the option still in it. */
  lemma LongPayloadUnstripped(k: Kernel, k': Kernel, p: Bytes, l: Layout, inner: Inner, n: nat, ports: Ports,
                              csum: Bytes, ns: nat, ring: bool)
    requires StampsByRoom(k, p, l, inner, n, ports) && |csum| == 2 && |p| - l.inner > STRIP_MAX
    ensures var q := Stamped(p, l, SenderID(k, p, inner.ip), csum);
            && IngressPacket(k', q, ns, ring) == q
            && (IngressStep(k', q, ns, ring).strip ==> IngressStep(k', q, ns, ring).action == TC_ACT_OK)
  {
    hide Stamped, Stripped, ParseIngress, Tiles, Forwarded, SenderID, Carried, IngressStep;
    IdentityCrossesNodes(k, p, l, inner, n, ports, csum);
    OnlyEnforcedStripped(k', Stamped(p, l, SenderID(k, p, inner.ip), csum), ns, ring);
  }

  /** The frame without its slot: both outer lengths eight less, and no options announced. */
  function Unslotted(p: Bytes, l: Layout): (r: Bytes)
    requires l.outer + 20 <= l.udp && l.udp + 8 == l.geneve && l.geneve + 8 <= l.inner && l.inner + 8 <= |p|
    ensures |r| == |p| - 8
  {
    var bare := p[..l.inner] + p[l.inner + 8..];
    Write(Write(Write(bare, l.geneve, [0]), l.outer + 2, Lowered(p, l.outer + 2)), l.udp + 4, Lowered(p, l.udp + 4))
  }

  lemma UnslottedAt(p: Bytes, l: Layout, i: nat)
    requires l.outer + 20 <= l.udp && l.udp + 8 == l.geneve && l.geneve + 8 <= l.inner && l.inner + 8 <= |p|
    requires i < |p| - 8
    ensures Unslotted(p, l)[i] ==
            if i == l.geneve then 0
            else if l.outer + 2 <= i < l.outer + 4 then Lowered(p, l.outer + 2)[i - l.outer - 2]
            else if l.udp + 4 <= i < l.udp + 6 then Lowered(p, l.udp + 4)[i - l.udp - 4]
            else if i < l.inner then p[i] else p[i + 8]
  {
    hide Write, Lowered;
    var bare := p[..l.inner] + p[l.inner + 8..];
    var q1 := Write(bare, l.geneve, [0]);
    var q2 := Write(q1, l.outer + 2, Lowered(p, l.outer + 2));
    WriteAt(bare, l.geneve, [0], i);
    WriteAt(q1, l.outer + 2, Lowered(p, l.outer + 2), i);
    WriteAt(q2, l.udp + 4, Lowered(p, l.udp + 4), i);
  }

  /** What the strip makes of a frame stamped in its slot: the frame without the slot, whatever was in it. */
  lemma SlotStripped(p: Bytes, l: Layout, n: nat, id: U32)
    requires Slotted(p, l, n)
    ensures var q := WithIdentity(p, l.inner, l.geneve, l.words, id);
            Stripped(q, l.inner + 8, l.outer, l.udp, l.geneve)[..|p| - 8] == Unslotted(p, l)
  {
    hide WithIdentity, Stripped, Unslotted, Lowered, IdentityOption, Tiles, ParseIPv4AfterEth, LooksLikeIPv4;
    var q := WithIdentity(p, l.inner, l.geneve, l.words, id);
    var r := Stripped(q, l.inner + 8, l.outer, l.udp, l.geneve);
    SlotParts(p, l, n, id);
    LoweredSame(q, p, l.outer + 2);
    LoweredSame(q, p, l.udp + 4);
    forall i: nat | i < |p| - 8 ensures r[i] == Unslotted(p, l)[i] {
      StrippedAt(q, l.inner + 8, l.outer, l.udp, l.geneve, i);
      UnslottedAt(p, l, i);
    }
  }

  /** Sent and received, for a frame stamped in its slot: when the receiver asks for the strip and the payload
      behind the slot is at most 256 bytes, the slot is gone; a longer one keeps the option. */
  lemma SlotStripLeaves(k: Kernel, k': Kernel, p: Bytes, l: Layout, n: nat, ports: Ports, ns: nat, ring: bool)
    requires StampsInSlot(k, p, l, n, ports)
    requires IngressStep(k', WithIdentity(p, l.inner, l.geneve, l.words, SenderID(k, p, l.inner + 8)), ns, ring).strip
    ensures var q := WithIdentity(p, l.inner, l.geneve, l.words, SenderID(k, p, l.inner + 8));
            if |p| - l.inner - 8 <= STRIP_MAX then IngressPacket(k', q, ns, ring)[..|p| - 8] == Unslotted(p, l)
            else IngressPacket(k', q, ns, ring) == q
  {
    hide WithIdentity, Stripped, IngressStep, ParseIngress, Tiles, Forwarded, SenderID, Unslotted, FindIdentity,
      LooksLikeIPv4, ParseGeneve, ParseIPv4AfterEth;
    var id := SenderID(k, p, l.inner + 8);
    var q := WithIdentity(p, l.inner, l.geneve, l.words, id);
    SlotRecovery(p, l, n, id);
    OnlyEnforcedStripped(k', q, ns, ring);
    SlotStripped(p, l, n, id);
    assert ParseIngress(q).layout == ParseGeneve(q, l.outer);
  }

  /** A bare packet with 0x45 in its TTL byte, read as a slot: it is stamped over its first eight bytes. */
  lemma MisreadHappens(ns: nat, ring: bool, head: Head, csum: Bytes) returns (p: Bytes, l: Layout, ports: Ports)
    requires |csum| == 2
    ensures StampsInSlot(Node(), p, l, 0, ports) && LooksLikeIPv4(p, l.inner)
    ensures EgressStep(Node(), p, ns, ring, head, csum).action == TC_ACT_OK
    ensures EgressStep(Node(), p, ns, ring, head, csum).packet[l.inner] != p[l.inner]
  {
    hide Node, IsHeader, EgressStep, SenderID, Tiles, ParseIPv4AfterEth, ParseGeneve, Forwarded, FindIdentity,
      WithIdentity, LooksLikeIPv4, IdentityOption;
    var words, slot := 0, 8;
    p := MisreadSample(words, slot);
    l, ports := Layout(14, 34, 42, words, 50), Ports(0, 0);
    SampleOuter(p, words, slot);
    SampleOptions(p, words, slot);
    SampleFlow(p, 58);
    EgressStampsSlot(Node(), p, l, 0, ports, ns, ring, head, csum);
    MisreadOverwritten(Node(), p, l, 0, ports, ns, ring, head, csum);
    var q := EgressStep(Node(), p, ns, ring, head, csum).packet;
    OptionStarts(SenderID(Node(), p, 58));
    assert q[50] == q[50..58][0];
  }

  lemma MisreadSample(words: nat, slot: nat) returns (p: Bytes)
    requires words == 0 && slot == 8
    ensures |p| == 78 && IsSample(p, words, slot) && p[50] == 0x45 && LooksLikeIPv4(p, 50)
  {
    hide Sample;
    SampleBytes(words, slot, 78);
    p := Sample(words, slot, 78)[50 := 0x45];
  }

  lemma OptionStarts(id: U32)
    ensures IdentityOption(id)[0] == 0x4d
  {
  }

  /** Such a frame: 300 bytes of payload, allowed by the receiver and handed on as it came. */
  lemma LongPayloadPassed(ns: nat, ring: bool, csum: Bytes) returns (p: Bytes, l: Layout, inner: Inner, ports: Ports)
    requires |csum| == 2
    ensures StampsByRoom(Node(), p, l, inner, 0, ports) && |p| - l.inner > STRIP_MAX
    ensures var q := EgressStep(Node(), p, ns, ring, Grown, csum).packet;
            && IngressStep(Node(), q, ns, ring).action == TC_ACT_OK && IngressStep(Node(), q, ns, ring).strip
            && IngressPacket(Node(), q, ns, ring) == q
  {
    hide Node, Sample, EgressStep, Stamped, StampsByRoom, Recovered, ParseIngress, SenderID, IngressStep,
      IngressPacket, IsHeader;
    var words := 0;
    p, l, inner, ports := Sample(words, 0, 350), Layout(14, 34, 42, words, 50), Inner(50, 0), Ports(0, 0);
    SampleBytes(words, 0, 350);
    SampleStamps(p, words);
    SampleFlow(p, 50);
    EgressStampsRoom(Node(), p, l, inner, 0, ports, ns, ring, csum);
    var q := Stamped(p, l, SenderID(Node(), p, inner.ip), csum);
    IdentityCrossesNodes(Node(), p, l, inner, 0, ports, csum);
    LongPayloadUnstripped(Node(), Node(), p, l, inner, 0, ports, csum, ns, ring);
    AllowedHere(q, ns, ring);
  }

  /** The sample node allows a tunnelled packet of its own identity to itself. */
  lemma AllowedHere(q: Bytes, ns: nat, ring: bool)
    requires var i := ParseIngress(q);
             && i.Enforce? && i.layout.Some? && i.tlv == Some(1) && i.ports == Ports(0, 0)
             && FlowOf(q, i.ip, i.ports) == FlowKey(0, 0, 0, 0, 1)
    ensures IngressStep(Node(), q, ns, ring).action == TC_ACT_OK && IngressStep(Node(), q, ns, ring).strip
  {
    hide Node, ParseIngress, Account, TcpOpen, LooksLikeIPv4, Address, Proto, Decide, IdentityOf;
    NodeKnows();
    var i := ParseIngress(q);
    var f := IngressFlow(Node(), q, i, ns);
    assert f.e.srcID == 1 && f.e.dstID == 1 && f.port == 0 && f.e.flow.proto == 1;
    assert DecisionFor(Node(), f) == Allow;
  }
}

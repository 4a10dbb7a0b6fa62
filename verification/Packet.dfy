/** Bounds-checked packet parsing shared by the tc programs (bpf/include/meridian_parse.h). Offsets
    count from the start of the frame; a parser answers None where the program passes the frame through. */
module Packet {
  import opened Wire
  import opened Translate

  type Bytes = seq<U8>

  const ETH_P_IP := 0x0800
  const ETH_P_8021Q := 0x8100
  const IPPROTO_TCP: U8 := 6
  const IPPROTO_UDP: U8 := 17
  const GENEVE_PORT: U16 := 6081
  const GENEVE_CLASS := 0x4d52
  const OPT_IDENTITY: U8 := 1
  const MAX_OPTS := 4
  const MAX_OPT_WORDS := 8

  function ByteAt(p: Bytes, at: nat): int
    requires at < |p|
  {
    p[at]
  }

  function Be16(p: Bytes, at: nat): U16
    requires at + 2 <= |p|
  {
    0x100 * ByteAt(p, at) + ByteAt(p, at + 1)
  }

  function Be32(p: Bytes, at: nat): U32
    requires at + 4 <= |p|
  {
    0x100_0000 * ByteAt(p, at) + 0x1_0000 * ByteAt(p, at + 1) + 0x100 * ByteAt(p, at + 2) + ByteAt(p, at + 3)
  }

  /** An IPv4 address as the programs load it from the packet. */
  function Address(p: Bytes, at: nat): U32
    requires at + 4 <= |p|
  {
    LittleEndian32(p[at], p[at + 1], p[at + 2], p[at + 3])
  }

  /** Twenty bytes that say version 4 and a header length of 5 to 15 words. */
  predicate LooksLikeIPv4(p: Bytes, at: nat): (r: bool)
    ensures r ==> at + 20 <= |p|
  {
    at + 20 <= |p| && p[at] / 16 == 4 && p[at] % 16 >= 5
  }

  /** The IPv4 header after an Ethernet header with at most one 802.1Q tag. */
  function ParseIPv4AfterEth(p: Bytes, at: nat): (ip: Option<nat>)
    ensures ip.Some? ==> LooksLikeIPv4(p, ip.value) && (ip.value == at + 14 || ip.value == at + 18)
  {
    if at + 14 > |p| then None
    else if Be16(p, at + 12) == ETH_P_IP then
      if LooksLikeIPv4(p, at + 14) then Some(at + 14) else None
    else if Be16(p, at + 12) == ETH_P_8021Q then
      if at + 18 <= |p| && Be16(p, at + 16) == ETH_P_IP && LooksLikeIPv4(p, at + 18) then Some(at + 18) else None
    else None
  }

  datatype Inner = Inner(ip: nat, reserved: nat)

  /** The inner IPv4 header of a Geneve payload: after a reserved 8-byte slot, bare, or inside an
      inner Ethernet frame, tried in that order. */
  function ParseIPv4InGenevePayload(p: Bytes, at: nat): (r: Option<Inner>)
    ensures r.Some? ==> LooksLikeIPv4(p, r.value.ip) && r.value.ip >= at
  {
    if LooksLikeIPv4(p, at + 8) then Some(Inner(at + 8, 8))
    else if LooksLikeIPv4(p, at) then Some(Inner(at, 0))
    else
      match ParseIPv4AfterEth(p, at)
      case None => None
      case Some(ip) => Some(Inner(ip, 0))
  }

  function HeaderBytes(p: Bytes, ip: nat): (h: nat)
    requires LooksLikeIPv4(p, ip)
    ensures 20 <= h <= 60
  {
    (p[ip] % 16) * 4
  }

  function Proto(p: Bytes, ip: nat): U8
    requires LooksLikeIPv4(p, ip)
  {
    p[ip + 9]
  }

  datatype Ports = Ports(src: U16, dst: U16)

  /** TCP and UDP ports; other protocols have none and read as zero. */
  function ParseL4Ports(p: Bytes, ip: nat): Option<Ports>
    requires LooksLikeIPv4(p, ip)
  {
    var l4 := ip + HeaderBytes(p, ip);
    if Proto(p, ip) != IPPROTO_TCP && Proto(p, ip) != IPPROTO_UDP then Some(Ports(0, 0))
    else if l4 + 4 > |p| then None
    else Some(Ports(Be16(p, l4), Be16(p, l4 + 2)))
  }

  /** SYN without ACK. */
  predicate TcpOpen(p: Bytes, ip: nat)
    requires LooksLikeIPv4(p, ip)
  {
    var l4 := ip + HeaderBytes(p, ip);
    l4 + 14 <= |p| && (p[l4 + 13] / 2) % 2 == 1 && (p[l4 + 13] / 16) % 2 == 0
  }

  /** A UDP datagram to the Geneve port. */
  predicate IsGeneveUdp(p: Bytes, outer: nat)
    requires LooksLikeIPv4(p, outer)
  {
    var udp := outer + HeaderBytes(p, outer);
    Proto(p, outer) == IPPROTO_UDP && udp + 8 <= |p| && Be16(p, udp + 2) == GENEVE_PORT
  }

  /** Where the parts of a Geneve frame lie. */
  datatype Layout = Layout(outer: nat, udp: nat, geneve: nat, words: nat, inner: nat)

  /** Base header, version 0, at most eight option words, all inside the frame. */
  function ParseGeneve(p: Bytes, outer: nat): (r: Option<Layout>)
    requires LooksLikeIPv4(p, outer)
    ensures r.Some? ==>
              && r.value.outer == outer && r.value.udp == outer + HeaderBytes(p, outer)
              && r.value.geneve == r.value.udp + 8
              && r.value.inner == r.value.geneve + 8 + 4 * r.value.words <= |p|
              && r.value.words == p[r.value.geneve] <= MAX_OPT_WORDS
  {
    var udp := outer + HeaderBytes(p, outer);
    var geneve := udp + 8;
    if !IsGeneveUdp(p, outer) || geneve + 8 > |p| || p[geneve] / 64 != 0 then None
    else
      var words := p[geneve] % 64;
      if words > MAX_OPT_WORDS || geneve + 8 + 4 * words > |p| then None
      else Some(Layout(outer, udp, geneve, words, geneve + 8 + 4 * words))
  }
}

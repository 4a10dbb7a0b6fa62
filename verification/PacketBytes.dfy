/** What the parsers read, stated on the bytes of the frame alone. */
module PacketBytes {
  import opened Wire
  import opened Packet
  import opened PacketProofs

  /** Big-endian 16 bits. */
  function Word(p: Bytes, at: nat): nat
    requires at + 2 <= |p|
  {
    var hi: int, lo: int := p[at], p[at + 1];
    256 * hi + lo
  }

  /** An IPv4 header of 20 to 60 bytes. */
  predicate HeaderAt(p: Bytes, ip: nat) {
    ip + 20 <= |p| && 0x45 <= p[ip] <= 0x4f
  }

  /** It follows an Ethernet header at `at`: untagged, or with one 802.1Q tag. */
  predicate FramedAt(p: Bytes, at: nat, ip: nat) {
    && HeaderAt(p, ip)
    && (|| (ip == at + 14 && p[at + 12] == 0x08 && p[at + 13] == 0x00)
        || (ip == at + 18 && p[at + 12] == 0x81 && p[at + 13] == 0x00 && p[at + 16] == 0x08 && p[at + 17] == 0x00))
  }

  predicate OuterAt(p: Bytes, ip: nat) {
    FramedAt(p, 0, ip)
  }

  /** What a Geneve payload at `at` holds, the first of these that is there: a header behind an 8-byte slot, a
      bare header, a header in an Ethernet frame. */
  predicate InnerAt(p: Bytes, at: nat, inner: Inner) {
    if HeaderAt(p, at + 8) then inner == Inner(at + 8, 8)
    else if HeaderAt(p, at) then inner == Inner(at, 0)
    else FramedAt(p, at, inner.ip) && inner.reserved == 0
  }

  /** Where the transport header is. */
  function L4(p: Bytes, ip: nat): nat
    requires ip < |p|
  {
    ip + 4 * (p[ip] % 16)
  }

  predicate HasPorts(p: Bytes, ip: nat)
    requires ip + 20 <= |p|
  {
    p[ip + 9] == 6 || p[ip + 9] == 17
  }

  /** A UDP datagram to port 6081 at `ip`. */
  predicate ToGenevePort(p: Bytes, ip: nat)
    requires ip + 20 <= |p|
  {
    p[ip + 9] == 17 && L4(p, ip) + 8 <= |p| && Word(p, L4(p, ip) + 2) == 6081
  }

  lemma FramedExactlyWhen(p: Bytes, at: nat, ip: nat)
    ensures ParseIPv4AfterEth(p, at) == Some(ip) <==> FramedAt(p, at, ip)
  {
    LooksByByte(p, at + 14);
    LooksByByte(p, at + 18);
    hide LooksLikeIPv4;
    if |p| >= at + 14 { WordIs(p, at + 12, 0x08, 0x00); WordIs(p, at + 12, 0x81, 0x00); }
    if |p| >= at + 18 { WordIs(p, at + 16, 0x08, 0x00); }
  }

  lemma OuterExactlyWhen(p: Bytes, ip: nat)
    ensures ParseIPv4AfterEth(p, 0) == Some(ip) <==> OuterAt(p, ip)
  {
    FramedExactlyWhen(p, 0, ip);
  }

  lemma InnerExactlyWhen(p: Bytes, at: nat, inner: Inner)
    ensures ParseIPv4InGenevePayload(p, at) == Some(inner) <==> InnerAt(p, at, inner)
  {
    LooksByByte(p, at + 8);
    LooksByByte(p, at);
    FramedExactlyWhen(p, at, inner.ip);
    hide LooksLikeIPv4, ParseIPv4AfterEth, FramedAt;
  }

  lemma WordIs(p: Bytes, at: nat, hi: U8, lo: U8)
    requires at + 2 <= |p|
    ensures Be16(p, at) == 0x100 * hi + lo <==> p[at] == hi && p[at + 1] == lo
    ensures Be16(p, at) == Word(p, at)
  {
  }

  /** TCP and UDP ports are the first two 16-bit words behind the IPv4 header, where four bytes are there;
      every other protocol has ports zero. */
  predicate PortsAt(p: Bytes, ip: nat, ports: Ports)
    requires ip + 20 <= |p|
  {
    if HasPorts(p, ip) then
      L4(p, ip) + 4 <= |p| && ports.src == Word(p, L4(p, ip)) && ports.dst == Word(p, L4(p, ip) + 2)
    else
      ports.src == 0 && ports.dst == 0
  }

  lemma PortsExactlyWhen(p: Bytes, ip: nat, ports: Ports)
    requires LooksLikeIPv4(p, ip)
    ensures ParseL4Ports(p, ip) == Some(ports) <==> PortsAt(p, ip, ports)
  {
    assert HeaderBytes(p, ip) == 4 * (p[ip] % 16);
    hide LooksLikeIPv4, HeaderBytes;
  }

  lemma GenevePortExactlyWhen(p: Bytes, ip: nat)
    requires LooksLikeIPv4(p, ip)
    ensures IsGeneveUdp(p, ip) <==> ToGenevePort(p, ip)
  {
    assert HeaderBytes(p, ip) == 4 * (p[ip] % 16);
    hide LooksLikeIPv4, HeaderBytes;
  }

  /** A whole Geneve header whose first byte is at most 8 (version 0, up to eight option words), with its
      options inside the frame. */
  predicate GeneveAt(p: Bytes, l: Layout) {
    && l.outer + 20 <= |p| && ToGenevePort(p, l.outer)
    && l.udp == L4(p, l.outer) && l.geneve == l.udp + 8
    && l.geneve + 8 <= |p| && l.words == p[l.geneve] <= 8
    && l.inner == l.geneve + 8 + 4 * l.words <= |p|
  }

  lemma GeneveExactlyWhen(p: Bytes, ip: nat, l: Layout)
    requires LooksLikeIPv4(p, ip)
    ensures ParseGeneve(p, ip) == Some(l) <==> l.outer == ip && GeneveAt(p, l)
  {
    GenevePortExactlyWhen(p, ip);
    assert HeaderBytes(p, ip) == 4 * (p[ip] % 16);
    hide LooksLikeIPv4, HeaderBytes, IsGeneveUdp;
    if l.geneve < |p| { FirstByte(p[l.geneve]); }
    if L4(p, ip) + 8 < |p| { FirstByte(p[L4(p, ip) + 8]); }
  }

  lemma FirstByte(b: U8)
    ensures b / 64 == 0 && b % 64 <= 8 <==> b <= 8
    ensures b <= 8 ==> b % 64 == b
  {
  }

  /** A TCP segment whose flag byte has SYN (0x02) set and ACK (0x10) clear. */
  predicate OpensAt(p: Bytes, ip: nat)
    requires ip + 20 <= |p|
  {
    L4(p, ip) + 14 <= |p|
    && (p[L4(p, ip) + 13] as bv8) & 0x02 != 0 && (p[L4(p, ip) + 13] as bv8) & 0x10 == 0
  }

  lemma OpensExactlyWhen(p: Bytes, ip: nat)
    requires LooksLikeIPv4(p, ip)
    ensures TcpOpen(p, ip) <==> OpensAt(p, ip)
  {
    assert HeaderBytes(p, ip) == 4 * (p[ip] % 16);
    hide LooksLikeIPv4, HeaderBytes;
    if L4(p, ip) + 14 <= |p| { FlagBits(p[L4(p, ip) + 13]); }
  }

  lemma FlagBits(b: U8)
    ensures (b / 2) % 2 == 1 <==> (b as bv8) & 0x02 != 0
    ensures (b / 16) % 2 == 0 <==> (b as bv8) & 0x10 == 0
  {
  }
}

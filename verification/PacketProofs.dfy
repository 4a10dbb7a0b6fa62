/** When the Geneve payload parser finds the header that is really there. */
module PacketProofs {
  import opened Wire
  import opened Packet

  /** What a sender can put behind the options: a reserved slot and an IPv4 packet, an IPv4 packet, or an
      Ethernet frame that carries one. */
  datatype Payload = Slot | Bare | Framed

  /** Where the inner IPv4 header of such a payload is. */
  function TrueInner(p: Bytes, at: nat, kind: Payload): Option<Inner> {
    match kind
    case Slot => if LooksLikeIPv4(p, at + 8) then Some(Inner(at + 8, 8)) else None
    case Bare => if LooksLikeIPv4(p, at) then Some(Inner(at, 0)) else None
    case Framed =>
      match ParseIPv4AfterEth(p, at)
      case None => None
      case Some(ip) => Some(Inner(ip, 0))
  }

  /** A byte that starts an IPv4 header. */
  predicate StartsIPv4(b: U8) {
    0x45 <= b <= 0x4f
  }

  lemma LooksByByte(p: Bytes, at: nat)
    ensures LooksLikeIPv4(p, at) <==> at + 20 <= |p| && StartsIPv4(p[at])
  {
  }

  /** The parser finds the true header exactly when nothing it tries earlier looks like one: always behind a
      slot; in a bare packet unless its TTL byte, with 28 bytes present, starts a header; in a frame unless
      the first destination or the third source address byte does. */
  lemma InnerFoundExactlyWhen(p: Bytes, at: nat, kind: Payload)
    requires TrueInner(p, at, kind).Some?
    ensures ParseIPv4InGenevePayload(p, at) == TrueInner(p, at, kind) <==>
            match kind
            case Slot => true
            case Bare => !(at + 28 <= |p| && StartsIPv4(p[at + 8]))
            case Framed => !StartsIPv4(p[at]) && !StartsIPv4(p[at + 8])
  {
    LooksByByte(p, at);
    LooksByByte(p, at + 8);
    hide LooksLikeIPv4, StartsIPv4;
  }

  /** Otherwise it reads a bare packet as a slot with a packet behind it. */
  lemma MisreadAsSlot(p: Bytes, at: nat)
    requires LooksLikeIPv4(p, at) && at + 28 <= |p| && StartsIPv4(p[at + 8])
    ensures ParseIPv4InGenevePayload(p, at) == Some(Inner(at + 8, 8))
  {
    LooksByByte(p, at + 8);
  }
}

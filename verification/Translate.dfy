/** The wire-to-kernel translation of the datapath writer (translate.go): policy
    keys and verdicts are copied field for field, and an identity becomes the pair
    (pod IPv4 as the packet carries it, numeric ID). */
module Translate {
  import opened Wire

  datatype PolicyMapKey = PolicyMapKey(srcID: U32, dstID: U32, dstPort: U16, proto: U8, direction: U8)

  datatype PolicyMapVerdict = PolicyMapVerdict(action: U8, flags: bv8, pad: U16)

  function TranslateKey(k: PolicyRuleKey): PolicyMapKey {
    PolicyMapKey(k.src, k.dst, k.port, k.proto, k.dir)
  }

  /** The wire key a kernel key came from. */
  function WireKey(k: PolicyMapKey): PolicyRuleKey {
    PolicyRuleKey(k.srcID, k.dstID, k.dstPort, k.proto, k.direction)
  }

  function TranslateVerdict(v: PolicyVerdict): PolicyMapVerdict {
    PolicyMapVerdict(v.action, v.flags, 0)
  }

  /** Dotted-quad scan of netip.ParseAddr: `fields` are the finished octets, `val` and
      `digits` describe the octet being read. */
  function ParseFields(s: string, i: nat, fields: seq<U8>, val: U8, digits: nat): (r: Option<seq<U8>>)
    requires i <= |s| && |fields| <= 3
    ensures r.Some? ==> |r.value| == 4
    decreases |s| - i
  {
    if i == |s| then
      if |fields| < 3 then None else Some(fields + [val])
    else if '0' <= s[i] <= '9' then
      var v := val * 10 + (s[i] as int - '0' as int);
      if (digits == 1 && val == 0) || v > 255 then None
      else ParseFields(s, i + 1, fields, v, digits + 1)
    else if s[i] == '.' then
      if i == 0 || i == |s| - 1 || s[i - 1] == '.' || |fields| == 3 then None
      else ParseFields(s, i + 1, fields + [val], 0, 0)
    else
      None
  }

  /** Four octets in packet order, read as a little-endian 32-bit word. */
  function LittleEndian32(b0: U8, b1: U8, b2: U8, b3: U8): U32 {
    b0 + 0x100 * b1 + 0x1_0000 * b2 + 0x100_0000 * b3
  }

  /** The identity_map key of an identity: None when its address is missing or is not IPv4. */
  function NetworkKey(identity: Identity): Option<U32> {
    if identity.podIPv4 == "" then None
    else
      match ParseFields(identity.podIPv4, 0, [], 0, 0)
      case None => None
      case Some(b) => Some(LittleEndian32(b[0], b[1], b[2], b[3]))
  }
}

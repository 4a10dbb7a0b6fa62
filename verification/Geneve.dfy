/** The Geneve identity option (bpf/tc_egress.c, bpf/tc_ingress.c): the bounded option walks, and the
    in-place rewrites that open, stamp and remove an 8-byte option. */
module Geneve {
  import opened Wire
  import opened Packet

  const OPT_BYTES := 8
  const OPT_WORDS := 2
  const STRIP_MAX := 256

  function OptionSize(p: Bytes, at: nat): nat
    requires at + 4 <= |p|
  {
    4 + 4 * (p[at + 3] % 32)
  }

  /** The `len` bytes from `at` on are exactly n options laid end to end. */
  predicate Tiles(p: Bytes, at: nat, len: nat, n: nat)
    decreases n
  {
    if n == 0 then len == 0
    else
      && len > 0 && at + 4 <= |p| && OptionSize(p, at) <= len
      && Tiles(p, at + OptionSize(p, at), len - OptionSize(p, at), n - 1)
  }

  /** A Meridian identity option starts here. */
  predicate IsIdentityOption(p: Bytes, at: nat)
    requires at + 4 <= |p|
  {
    Be16(p, at) == GENEVE_CLASS && p[at + 2] == OPT_IDENTITY && p[at + 3] % 32 == 1
  }

  /** The first identity option among the next `fuel` options; None also when the region is malformed. */
  function FindIdentity(p: Bytes, at: nat, len: nat, fuel: nat): Option<U32>
    decreases fuel
  {
    if fuel == 0 || len == 0 || at + 4 > |p| || OptionSize(p, at) > len then None
    else if IsIdentityOption(p, at) then (if at + 8 <= |p| then Some(Be32(p, at + 4)) else None)
    else FindIdentity(p, at + OptionSize(p, at), len - OptionSize(p, at), fuel - 1)
  }

  /** The number of options in a region of at most `fuel` of them. */
  function OptionCount(p: Bytes, at: nat, len: nat, fuel: nat): Option<nat>
    decreases fuel
  {
    if len == 0 then Some(0)
    else if fuel == 0 || at + 4 > |p| || OptionSize(p, at) > len then None
    else Plus(1, OptionCount(p, at + OptionSize(p, at), len - OptionSize(p, at), fuel - 1))
  }

  function Plus(n: nat, c: Option<nat>): Option<nat> {
    match c case None => None case Some(m) => Some(n + m)
  }

  /** The bounded walk accepts exactly the regions that tile into at most `fuel` options. */
  lemma {:induction false} CountedExactlyWhenTiled(p: Bytes, at: nat, len: nat, fuel: nat, n: nat)
    ensures OptionCount(p, at, len, fuel) == Some(n) <==> n <= fuel && Tiles(p, at, len, n)
    decreases fuel
  {
    if len != 0 && fuel > 0 && at + 4 <= |p| && OptionSize(p, at) <= len && n > 0 {
      CountedExactlyWhenTiled(p, at + OptionSize(p, at), len - OptionSize(p, at), fuel - 1, n - 1);
    }
  }

  /** parse_geneve_option_count, with the loop bound as a parameter. */
  method CountOptions(p: Bytes, opts: nat, optBytes: nat, max: nat) returns (count: Option<nat>)
    ensures count == OptionCount(p, opts, optBytes, max)
  {
    hide OptionSize;
    var offset: nat, c: nat := 0, 0;
    for i := 0 to max
      invariant c == i
      invariant offset > optBytes ==> OptionCount(p, opts, optBytes, max) == None
      invariant offset <= optBytes ==>
                  OptionCount(p, opts, optBytes, max) ==
                  Plus(i, OptionCount(p, opts + offset, optBytes - offset, max - i))
    {
      if offset == optBytes { return Some(c); }
      if offset > optBytes { return None; }
      if opts + offset + 4 > |p| { return None; }
      offset := offset + OptionSize(p, opts + offset);
      c := c + 1;
    }
    if offset != optBytes { return None; }
    count := Some(c);
  }

  method ParseGeneveOptionCount(p: Bytes, opts: nat, optBytes: nat) returns (count: Option<nat>)
    ensures count == OptionCount(p, opts, optBytes, MAX_OPTS)
  {
    count := CountOptions(p, opts, optBytes, MAX_OPTS);
  }

  /** parse_geneve_identity, with the loop bound as a parameter. */
  method SearchIdentity(p: Bytes, opts: nat, optBytes: nat, max: nat) returns (id: Option<U32>)
    ensures id == FindIdentity(p, opts, optBytes, max)
  {
    hide OptionSize, IsIdentityOption, Be32;
    var offset: nat := 0;
    for i := 0 to max
      invariant offset <= optBytes
      invariant FindIdentity(p, opts, optBytes, max) == FindIdentity(p, opts + offset, optBytes - offset, max - i)
    {
      if offset >= optBytes { break; }
      if opts + offset + 4 > |p| { return None; }
      var size := OptionSize(p, opts + offset);
      if offset + size > optBytes { return None; }
      if IsIdentityOption(p, opts + offset) {
        if opts + offset + 8 > |p| { return None; }
        return Some(Be32(p, opts + offset + 4));
      }
      offset := offset + size;
    }
    id := None;
  }

  method ParseGeneveIdentity(p: Bytes, opts: nat, optBytes: nat) returns (id: Option<U32>)
    ensures id == FindIdentity(p, opts, optBytes, MAX_OPTS)
  {
    id := SearchIdentity(p, opts, optBytes, MAX_OPTS);
  }

  function ToBe16(n: nat): (r: Bytes)
    ensures |r| == 2
  {
    [(n / 0x100) % 0x100, n % 0x100]
  }

  function ToBe32(n: U32): (r: Bytes)
    ensures |r| == 4
  {
    [n / 0x100_0000, (n / 0x1_0000) % 0x100, (n / 0x100) % 0x100, n % 0x100]
  }

  /** The 8-byte option that carries an identity. */
  function IdentityOption(id: U32): (r: Bytes)
    ensures |r| == OPT_BYTES
  {
    [0x4d, 0x52, OPT_IDENTITY, 1] + ToBe32(id)
  }

  /** `s` with the bytes from `at` on replaced by `b`. */
  function Write(s: Bytes, at: nat, b: Bytes): (r: Bytes)
    requires at + |b| <= |s|
    ensures |r| == |s|
  {
    s[..at] + b + s[at + |b|..]
  }

  /** Eight bytes pushed in front, then the first `room` packet bytes copied back to the start. */
  function WithRoom(p: Bytes, room: nat): (r: Bytes)
    requires OPT_BYTES <= room <= |p|
    ensures |r| == |p| + OPT_BYTES
  {
    p[..room] + p[room - OPT_BYTES..room] + p[room..]
  }

  /** How the kernel answers the request for eight more bytes of head: no, yes, or yes with the data not
      pulled in afterwards. */
  datatype Head = Kept | Grown | Stuck

  predicate RoomFits(length: nat, room: nat, outer: nat) {
    0 < room < length && outer < room && room - outer <= 64 && room <= 80
  }

  function Pushed(p: Bytes): (r: Bytes)
    ensures |r| == |p| + OPT_BYTES
  {
    seq(OPT_BYTES, _ => 0) + p
  }

  /** Outer lengths recomputed from the frame length; `csum` is what the checksum helper leaves in the
      two bytes it is pointed at when the outer UDP checksum is in use. */
  function Bumped(p: Bytes, outer: nat, udp: nat, csum: Bytes): (r: Bytes)
    requires outer + 4 <= udp && udp + 8 <= |p| && |csum| == 2
    ensures |r| == |p|
  {
    var q := Write(Write(p, outer + 2, ToBe16(|p| - outer)), udp + 4, ToBe16(|p| - udp));
    if Be16(q, udp + 6) != 0 then Write(q, udp, csum) else q
  }

  /** The identity option written at `at`, and the option length of the base header raised by two words. */
  function WithIdentity(p: Bytes, at: nat, geneve: nat, words: nat, id: U32): (r: Bytes)
    requires at + OPT_BYTES <= |p| && geneve < |p| && words <= MAX_OPT_WORDS
    ensures |r| == |p|
  {
    var q := Write(p, at, IdentityOption(id));
    Write(q, geneve, [(q[geneve] / 64) * 64 + words + OPT_WORDS])
  }

  /** The bytes from `inner` on moved eight places towards the head; the tail keeps its last eight bytes. */
  function Shifted(p: Bytes, inner: nat): (r: Bytes)
    requires OPT_BYTES <= inner <= |p|
    ensures |r| == |p|
  {
    p[..inner - OPT_BYTES] + p[inner..] + p[|p| - OPT_BYTES..]
  }

  /** Sixteen-bit subtraction of the option length from a length field. */
  function Lowered(p: Bytes, at: nat): (r: Bytes)
    requires at + 2 <= |p|
    ensures |r| == 2
  {
    ToBe16((Be16(p, at) + 0x1_0000 - OPT_BYTES) % 0x1_0000)
  }

  /** What a successful strip leaves. */
  function Stripped(p: Bytes, inner: nat, outer: nat, udp: nat, geneve: nat): (r: Bytes)
    requires OPT_BYTES <= inner <= |p| && outer + 4 <= udp && udp + 8 <= geneve < |p|
    ensures |r| == |p|
  {
    var q0 := Shifted(p, inner);
    var q1 := Write(q0, geneve, [(q0[geneve] / 64) * 64]);
    var q2 := Write(q1, outer + 2, Lowered(q1, outer + 2));
    Write(q2, udp + 4, Lowered(q2, udp + 4))
  }

  /** The packet buffer. */
  class Skb {
    var data: array<U8>

    constructor (p: Bytes)
      ensures fresh(data) && data[..] == p
    {
      var a := new U8[|p|](i requires 0 <= i < |p| => p[i]);
      data := a;
      assert a[..] == p;
    }

    method Store(at: nat, b: Bytes)
      requires at + |b| <= data.Length
      modifies data
      ensures data[..] == Write(old(data[..]), at, b)
    {
      for i := 0 to |b|
        invariant forall j :: 0 <= j < data.Length ==> data[j] == if at <= j < at + i then b[j - at] else old(data[j])
      {
        data[at + i] := b[i];
      }
    }

    /** insert_inner_tlv_room: refuses, leaving the packet alone, or opens eight bytes at `room`; when the
        head has grown and the data cannot be pulled in, the eight bytes stay in front. */
    method InsertInnerTlvRoom(room: nat, outer: nat, head: Head) returns (failed: bool)
      modifies this, data
      ensures fresh(data) || data == old(data)
      ensures !failed <==> RoomFits(|old(data[..])|, room, outer) && head.Grown?
      ensures failed ==>
                data[..] == if RoomFits(|old(data[..])|, room, outer) && head.Stuck?
                            then Pushed(old(data[..])) else old(data[..])
      ensures !failed && room >= OPT_BYTES ==> data[..] == WithRoom(old(data[..]), room)
    {
      if room == 0 || room >= data.Length || outer >= room { return true; }
      if room - outer > 64 { return true; }
      if room > 80 { return true; }
      if head.Kept? { return true; }
      ghost var p := data[..];
      ChangeHead();
      if head.Stuck? { return true; }
      CopyBack(room);
      failed := false;
      assert room >= OPT_BYTES ==> data[..] == WithRoom(p, room);
    }

    /** bpf_skb_change_head: eight zero bytes in front of the packet. */
    method ChangeHead()
      modifies this
      ensures fresh(data) && data[..] == Pushed(old(data[..]))
    {
      var p := data[..];
      var n := |p| + OPT_BYTES;
      var a := new U8[n](i requires 0 <= i < n => if i < OPT_BYTES then 0 else p[i - OPT_BYTES]);
      data := a;
      assert a[..] == Pushed(p);
    }

    /** The first `room` bytes after the eight new ones move to the front, one byte at a time. */
    method CopyBack(room: nat)
      requires room + OPT_BYTES <= data.Length
      modifies data
      ensures forall j :: 0 <= j < data.Length ==>
                data[j] == if j < room then old(data[j + OPT_BYTES]) else old(data[j])
    {
      for i := 0 to room
        invariant forall j :: 0 <= j < data.Length ==>
                    data[j] == if j < i then old(data[j + OPT_BYTES]) else old(data[j])
      {
        data[i] := data[OPT_BYTES + i];
      }
    }

    /** bump_udp_geneve_lengths. */
    method BumpLengths(outer: nat, udp: nat, csum: Bytes)
      requires outer + 4 <= udp && udp + 8 <= data.Length && |csum| == 2
      modifies data
      ensures data[..] == Bumped(old(data[..]), outer, udp, csum)
    {
      hide Write, ToBe16;
      Store(outer + 2, ToBe16(data.Length - outer));
      Store(udp + 4, ToBe16(data.Length - udp));
      if data[udp + 6] != 0 || data[udp + 7] != 0 {
        Store(udp, csum);
      }
    }

    /** stamp_identity_tlv. */
    method StampIdentityTlv(at: nat, geneve: nat, words: nat, id: U32)
      requires at + OPT_BYTES <= data.Length && geneve < data.Length && words <= MAX_OPT_WORDS
      modifies data
      ensures data[..] == WithIdentity(old(data[..]), at, geneve, words, id)
    {
      Store(at, IdentityOption(id));
      Store(geneve, [(data[geneve] / 64) * 64 + words + OPT_WORDS]);
    }

    /** strip_meridian_tlv: refuses a payload over 256 bytes, else removes the eight bytes before `inner`. */
    method StripMeridianTlv(inner: nat, outer: nat, udp: nat, geneve: nat) returns (failed: bool)
      requires outer + 4 <= udp && udp + 8 <= geneve < data.Length
      modifies data
      ensures failed <==> inner < OPT_BYTES || inner > data.Length || data.Length - inner > STRIP_MAX
      ensures failed ==> data[..] == old(data[..])
      ensures !failed ==> data[..] == Stripped(old(data[..]), inner, outer, udp, geneve)
    {
      if inner < OPT_BYTES { return true; }
      if inner > data.Length { return true; }
      var len := data.Length - inner;
      if len > STRIP_MAX { return true; }
      hide Write, Shifted, Lowered;
      ShiftDown(inner, len);
      Store(geneve, [(data[geneve] / 64) * 64]);
      Store(outer + 2, Lowered(data[..], outer + 2));
      Store(udp + 4, Lowered(data[..], udp + 4));
      failed := false;
    }

    /** Moves `len` bytes from `inner` eight places down, in place and in order, at most 256 of them. */
    method ShiftDown(inner: nat, len: nat)
      requires OPT_BYTES <= inner && inner + len == data.Length && len <= STRIP_MAX
      modifies data
      ensures data[..] == Shifted(old(data[..]), inner)
    {
      var i: nat := 0;
      while i < STRIP_MAX && i < len
        invariant i <= len
        invariant forall j :: 0 <= j < data.Length ==>
                    data[j] == if inner - OPT_BYTES <= j < inner - OPT_BYTES + i
                               then old(data[j + OPT_BYTES]) else old(data[j])
      {
        data[inner - OPT_BYTES + i] := data[inner + i];
        i := i + 1;
      }
    }
  }
}

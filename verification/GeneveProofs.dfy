/** What survives stamping at egress and stripping at ingress. */
module GeneveProofs {
  import opened Wire
  import opened Packet
  import opened Geneve

  /** The frame egress leaves on the wire after opening room at the end of the options. */
  function Stamped(p: Bytes, l: Layout, id: U32, csum: Bytes): (q: Bytes)
    requires l.outer + 20 <= l.udp && l.udp + 8 == l.geneve && l.inner == l.geneve + 8 + 4 * l.words <= |p|
    requires l.words <= MAX_OPT_WORDS && |csum| == 2
    ensures |q| == |p| + OPT_BYTES
  {
    WithIdentity(Bumped(WithRoom(p, l.inner), l.outer, l.udp, csum), l.inner, l.geneve, l.words, id)
  }

  lemma WriteAt(s: Bytes, at: nat, b: Bytes, i: nat)
    requires at + |b| <= |s| && i < |s|
    ensures Write(s, at, b)[i] == if at <= i < at + |b| then b[i - at] else s[i]
  {
  }

  lemma RoomAt(p: Bytes, room: nat, i: nat)
    requires OPT_BYTES <= room <= |p| && i < |p| + OPT_BYTES
    ensures WithRoom(p, room)[i] == if i < room then p[i] else p[i - OPT_BYTES]
  {
  }

  /** Every byte of a stamped frame. */
  function StampedByte(p: Bytes, l: Layout, id: U32, csum: Bytes, i: nat): U8
    requires l.outer + 20 <= l.udp && l.udp + 8 == l.geneve && l.inner == l.geneve + 8 + 4 * l.words <= |p|
    requires |csum| == 2 && l.words == p[l.geneve] <= MAX_OPT_WORDS && i < |p| + OPT_BYTES
  {
    if i >= l.inner + OPT_BYTES then p[i - OPT_BYTES]
    else if i >= l.inner then IdentityOption(id)[i - l.inner]
    else if i == l.geneve then l.words + OPT_WORDS
    else if l.outer + 2 <= i < l.outer + 4 then ToBe16(|p| + OPT_BYTES - l.outer)[i - l.outer - 2]
    else if l.udp + 4 <= i < l.udp + 6 then ToBe16(|p| + OPT_BYTES - l.udp)[i - l.udp - 4]
    else if l.udp <= i < l.udp + 2 && Be16(p, l.udp + 6) != 0 then csum[i - l.udp]
    else p[i]
  }

  lemma BumpedAt(p: Bytes, outer: nat, udp: nat, csum: Bytes, i: nat)
    requires outer + 4 <= udp && udp + 8 <= |p| && |csum| == 2 && i < |p|
    ensures Bumped(p, outer, udp, csum)[i] ==
            if outer + 2 <= i < outer + 4 then ToBe16(|p| - outer)[i - outer - 2]
            else if udp + 4 <= i < udp + 6 then ToBe16(|p| - udp)[i - udp - 4]
            else if udp <= i < udp + 2 && Be16(p, udp + 6) != 0 then csum[i - udp]
            else p[i]
  {
    var a, b := ToBe16(|p| - outer), ToBe16(|p| - udp);
    var p1 := Write(p, outer + 2, a);
    var p2 := Write(p1, udp + 4, b);
    hide Write, ToBe16;
    forall j | 0 <= j < |p|
      ensures p2[j] == if outer + 2 <= j < outer + 4 then a[j - outer - 2]
                       else if udp + 4 <= j < udp + 6 then b[j - udp - 4] else p[j]
    {
      WriteAt(p, outer + 2, a, j);
      WriteAt(p1, udp + 4, b, j);
    }
    assert Be16(p2, udp + 6) == Be16(p, udp + 6);
    WriteAt(p2, udp, csum, i);
  }

  lemma StampedAt(p: Bytes, l: Layout, id: U32, csum: Bytes, i: nat)
    requires l.outer + 20 <= l.udp && l.udp + 8 == l.geneve && l.inner == l.geneve + 8 + 4 * l.words <= |p|
    requires |csum| == 2 && l.words == p[l.geneve] <= MAX_OPT_WORDS && i < |p| + OPT_BYTES
    ensures Stamped(p, l, id, csum)[i] == StampedByte(p, l, id, csum, i)
  {
    hide Write, WithRoom, Bumped, ToBe16, IdentityOption;
    var p1 := WithRoom(p, l.inner);
    var p2 := Bumped(p1, l.outer, l.udp, csum);
    var p3 := Write(p2, l.inner, IdentityOption(id));
    RoomAt(p, l.inner, i);
    RoomAt(p, l.inner, l.geneve);
    RoomAt(p, l.inner, l.udp + 6);
    RoomAt(p, l.inner, l.udp + 7);
    BumpedAt(p1, l.outer, l.udp, csum, i);
    BumpedAt(p1, l.outer, l.udp, csum, l.geneve);
    WriteAt(p2, l.inner, IdentityOption(id), i);
    WriteAt(p2, l.inner, IdentityOption(id), l.geneve);
    WriteAt(p3, l.geneve, [(p3[l.geneve] / 64) * 64 + l.words + OPT_WORDS], i);
  }

  lemma Be32OfBytes(n: U32)
    ensures 0x100_0000 * (n / 0x100_0000) + 0x1_0000 * ((n / 0x1_0000) % 0x100)
            + 0x100 * ((n / 0x100) % 0x100) + n % 0x100 == n
  {
    var a, b, c := n / 0x100, n / 0x1_0000, n / 0x100_0000;
    assert n == 0x100 * a + n % 0x100;
    assert b == a / 0x100 && a == 0x100 * b + a % 0x100;
    assert c == b / 0x100 && b == 0x100 * c + b % 0x100;
  }

  /** An identity option reads back as its identity. */
  lemma IdentityOptionReads(q: Bytes, at: nat, id: U32)
    requires at + 8 <= |q| && q[at..at + 8] == IdentityOption(id)
    ensures IsIdentityOption(q, at) && OptionSize(q, at) == 8 && Be32(q, at + 4) == id
  {
    forall j | 0 <= j < 8 ensures q[at + j] == IdentityOption(id)[j] {
      assert q[at..at + 8][j] == q[at + j];
    }
    assert q[at + 0] == 0x4d && q[at + 1] == 0x52 && q[at + 2] == OPT_IDENTITY && q[at + 3] == 1;
    assert q[at + 4] == ToBe32(id)[0] && q[at + 5] == ToBe32(id)[1];
    assert q[at + 6] == ToBe32(id)[2] && q[at + 7] == ToBe32(id)[3];
    Be32OfBytes(id);
  }

  /** The walk finds an option placed right after n well-formed ones, unless it stops earlier. */
  lemma {:induction false} FindPastTiles(p: Bytes, q: Bytes, at: nat, len: nat, n: nat, fuel: nat, id: U32)
    requires Tiles(p, at, len, n) && n < fuel
    requires at + len <= |p| && at + len + 8 <= |q|
    requires forall i :: at <= i < at + len ==> q[i] == p[i]
    requires q[at + len..at + len + 8] == IdentityOption(id)
    ensures FindIdentity(q, at, len + 8, fuel) ==
            (if FindIdentity(p, at, len, fuel).Some? then FindIdentity(p, at, len, fuel) else Some(id))
    decreases n
  {
    hide Be32, Be16, ToBe32, IdentityOption;
    if n == 0 {
      IdentityOptionReads(q, at, id);
    } else {
      SameOption(p, q, at, len);
      var size := OptionSize(p, at);
      if !IsIdentityOption(p, at) {
        FindPastTiles(p, q, at + size, len - size, n - 1, fuel - 1, id);
      }
    }
  }

  lemma SameOption(p: Bytes, q: Bytes, at: nat, len: nat)
    requires at + 4 <= |p| && OptionSize(p, at) <= len && at + len <= |p| && at + len <= |q|
    requires forall i :: at <= i < at + len ==> q[i] == p[i]
    ensures OptionSize(q, at) == OptionSize(p, at) && IsIdentityOption(q, at) == IsIdentityOption(p, at)
    ensures IsIdentityOption(p, at) ==> OptionSize(p, at) == 8 && Be32(q, at + 4) == Be32(p, at + 4)
  {
  }

  /** q is p with eight bytes inserted somewhere before `from`. */
  predicate ShiftedCopy(p: Bytes, q: Bytes, from: nat) {
    |q| == |p| + 8 && forall i :: from <= i < |p| ==> q[i + 8] == p[i]
  }

  lemma LooksShifted(p: Bytes, q: Bytes, from: nat, at: nat)
    requires ShiftedCopy(p, q, from) && at >= from
    ensures LooksLikeIPv4(q, at + 8) == LooksLikeIPv4(p, at)
  {
  }

  lemma EthShifted(p: Bytes, q: Bytes, at: nat)
    requires ShiftedCopy(p, q, at)
    ensures ParseIPv4AfterEth(q, at + 8) ==
            match ParseIPv4AfterEth(p, at) case None => None case Some(ip) => Some(ip + 8)
  {
    LooksShifted(p, q, at, at + 14);
    LooksShifted(p, q, at, at + 18);
    hide LooksLikeIPv4;
    if at + 14 <= |p| {
      assert q[at + 12 + 8] == p[at + 12] && q[at + 13 + 8] == p[at + 13];
      assert Be16(q, at + 8 + 12) == Be16(p, at + 12);
    }
    if at + 18 <= |p| {
      assert q[at + 16 + 8] == p[at + 16] && q[at + 17 + 8] == p[at + 17];
      assert Be16(q, at + 8 + 16) == Be16(p, at + 16);
    }
  }

  /** The payload parser moves with the payload. */
  lemma PayloadShifted(p: Bytes, q: Bytes, at: nat)
    requires ShiftedCopy(p, q, at)
    ensures ParseIPv4InGenevePayload(q, at + 8) ==
            match ParseIPv4InGenevePayload(p, at) case None => None case Some(i) => Some(Inner(i.ip + 8, i.reserved))
  {
    LooksShifted(p, q, at, at);
    LooksShifted(p, q, at, at + 8);
    EthShifted(p, q, at);
    hide LooksLikeIPv4, ParseIPv4AfterEth;
  }

  /** The frames whose option area can take one more option: Geneve, an inner header found without a
      reserved slot, and options that tile into fewer than four. */
  predicate Stampable(p: Bytes, l: Layout, inner: Inner, n: nat) {
    && ParseIPv4AfterEth(p, 0) == Some(l.outer) && ParseGeneve(p, l.outer) == Some(l)
    && ParseIPv4InGenevePayload(p, l.inner) == Some(inner) && inner.reserved == 0
    && Tiles(p, l.geneve + 8, 4 * l.words, n) && n < MAX_OPTS
  }

  /** What stamping keeps in front of the payload, after it, and in between. */
  lemma StampedParts(p: Bytes, l: Layout, id: U32, csum: Bytes)
    requires l.outer + 20 <= l.udp && l.udp + 8 == l.geneve && l.inner == l.geneve + 8 + 4 * l.words <= |p|
    requires |csum| == 2 && l.words == p[l.geneve] <= MAX_OPT_WORDS
    ensures var q := Stamped(p, l, id, csum);
            && ShiftedCopy(p, q, l.inner)
            && q[l.inner..l.inner + 8] == IdentityOption(id)
            && (forall i :: l.geneve + 8 <= i < l.inner ==> q[i] == p[i])
            && (forall i :: 0 <= i < l.udp + 4 && !(l.outer + 2 <= i < l.outer + 4) && !(l.udp <= i < l.udp + 2) ==>
                  q[i] == p[i])
            && q[l.geneve] == l.words + OPT_WORDS
  {
    hide Stamped, ToBe16, IdentityOption;
    var q := Stamped(p, l, id, csum);
    forall i: nat | i < |q| ensures q[i] == StampedByte(p, l, id, csum, i) { StampedAt(p, l, id, csum, i); }
    forall i | l.inner <= i < |p| ensures q[i + 8] == p[i] { assert q[i + 8] == StampedByte(p, l, id, csum, i + 8); }
    forall i | l.geneve + 8 <= i < l.inner ensures q[i] == p[i] { assert q[i] == StampedByte(p, l, id, csum, i); }
    forall j | 0 <= j < 8 ensures q[l.inner + j] == IdentityOption(id)[j] {
      assert q[l.inner + j] == StampedByte(p, l, id, csum, l.inner + j);
    }
    assert q[l.geneve] == StampedByte(p, l, id, csum, l.geneve);
    forall i | 0 <= i < l.udp + 4 && !(l.outer + 2 <= i < l.outer + 4) && !(l.udp <= i < l.udp + 2)
      ensures q[i] == p[i]
    {
      assert q[i] == StampedByte(p, l, id, csum, i);
    }
  }

  /** The outer headers still parse, and the option length is the old one plus two words. */
  lemma OuterSurvives(p: Bytes, l: Layout, inner: Inner, n: nat, id: U32, csum: Bytes)
    requires Stampable(p, l, inner, n) && |csum| == 2
    ensures var q := Stamped(p, l, id, csum);
            && ParseIPv4AfterEth(q, 0) == Some(l.outer)
            && IsGeneveUdp(q, l.outer)
            && ParseGeneve(q, l.outer) ==
               if l.words <= 6 then Some(l.(words := l.words + OPT_WORDS, inner := l.inner + 8)) else None
  {
    var q := Stamped(p, l, id, csum);
    StampedParts(p, l, id, csum);
    hide Stamped, Tiles, ParseIPv4InGenevePayload, ParseIPv4AfterEth, ParseGeneve;
    EthKept(p, q, l.outer);
    assert q[l.outer] == p[l.outer] && q[l.outer + 9] == p[l.outer + 9];
    assert q[l.udp + 2] == p[l.udp + 2] && q[l.udp + 3] == p[l.udp + 3];
    GeneveKept(p, q, l);
  }

  lemma GeneveKept(p: Bytes, q: Bytes, l: Layout)
    requires LooksLikeIPv4(p, l.outer) && ParseGeneve(p, l.outer) == Some(l)
    requires |q| >= |p| && l.inner + 8 <= |q| && q[l.outer] == p[l.outer] && q[l.outer + 9] == p[l.outer + 9]
    requires q[l.udp + 2] == p[l.udp + 2] && q[l.udp + 3] == p[l.udp + 3] && q[l.geneve] == l.words + OPT_WORDS
    ensures LooksLikeIPv4(q, l.outer) && IsGeneveUdp(q, l.outer)
    ensures ParseGeneve(q, l.outer) ==
            if l.words <= 6 then Some(l.(words := l.words + OPT_WORDS, inner := l.inner + 8)) else None
  {
    assert IsGeneveUdp(p, l.outer);
    assert HeaderBytes(q, l.outer) == HeaderBytes(p, l.outer);
    assert Be16(q, l.udp + 2) == Be16(p, l.udp + 2);
    hide HeaderBytes, LooksLikeIPv4, Be16, Proto;
    assert q[l.geneve] / 64 == 0 && q[l.geneve] % 64 == l.words + OPT_WORDS;
  }

  lemma EthKept(p: Bytes, q: Bytes, outer: nat)
    requires ParseIPv4AfterEth(p, 0) == Some(outer) && |q| >= |p|
    requires forall i :: 0 <= i <= outer ==> q[i] == p[i]
    ensures ParseIPv4AfterEth(q, 0) == Some(outer)
  {
    assert q[12] == p[12] && q[13] == p[13] && q[outer] == p[outer];
    assert Be16(q, 12) == Be16(p, 12);
    if outer == 18 { assert q[16] == p[16] && q[17] == p[17]; assert Be16(q, 16) == Be16(p, 16); }
  }

  /** Identity recovery: what ingress reads off a stamped frame, for every stampable frame. */
  lemma IdentityRecovery(p: Bytes, l: Layout, inner: Inner, n: nat, id: U32, csum: Bytes)
    requires Stampable(p, l, inner, n) && |csum| == 2
    ensures var q := Stamped(p, l, id, csum);
            && ParseIPv4AfterEth(q, 0) == Some(l.outer)
            && IsGeneveUdp(q, l.outer)
            && ParseGeneve(q, l.outer) ==
               (if l.words <= 6 then Some(l.(words := l.words + OPT_WORDS, inner := l.inner + 8)) else None)
            && ParseIPv4InGenevePayload(q, l.inner + 8) == Some(Inner(inner.ip + 8, 0))
            && FindIdentity(q, l.geneve + 8, 4 * l.words + 8, MAX_OPTS) ==
               match FindIdentity(p, l.geneve + 8, 4 * l.words, MAX_OPTS)
               case Some(earlier) => Some(earlier)
               case None => Some(id)
  {
    hide Stamped, Tiles, FindIdentity, ParseIPv4AfterEth, ParseGeneve, ParseIPv4InGenevePayload, IsGeneveUdp,
      IdentityOption, ShiftedCopy, LooksLikeIPv4;
    var q := Stamped(p, l, id, csum);
    OuterSurvives(p, l, inner, n, id, csum);
    StampedParts(p, l, id, csum);
    PayloadShifted(p, q, l.inner);
    FindPastTiles(p, q, l.geneve + 8, 4 * l.words, n, MAX_OPTS, id);
  }

  /** The identity ingress attributes to a frame: it must parse as Geneve and carry the option. */
  function Recovered(q: Bytes, outer: nat): Option<U32>
    requires LooksLikeIPv4(q, outer)
  {
    match ParseGeneve(q, outer)
    case None => None
    case Some(m) => FindIdentity(q, m.geneve + 8, 4 * m.words, MAX_OPTS)
  }

  /** Exactly when the stamped identity can be read back: at most six option words before stamping, and
      no earlier identity option with a different identity. */
  lemma RecoveredExactlyWhen(p: Bytes, l: Layout, inner: Inner, n: nat, id: U32, csum: Bytes)
    requires Stampable(p, l, inner, n) && |csum| == 2
    ensures LooksLikeIPv4(Stamped(p, l, id, csum), l.outer)
    ensures Recovered(Stamped(p, l, id, csum), l.outer) == Some(id) <==>
            l.words <= 6 && (Recovered(p, l.outer) == None || Recovered(p, l.outer) == Some(id))
  {
    hide Stamped, Tiles, FindIdentity, ParseIPv4AfterEth, ParseGeneve, ParseIPv4InGenevePayload, IsGeneveUdp,
      LooksLikeIPv4;
    IdentityRecovery(p, l, inner, n, id, csum);
  }

  /** A Geneve frame with a reserved slot in front of its inner header, and fewer than four options. */
  predicate Slotted(p: Bytes, l: Layout, n: nat) {
    && ParseIPv4AfterEth(p, 0) == Some(l.outer) && ParseGeneve(p, l.outer) == Some(l)
    && LooksLikeIPv4(p, l.inner + 8)
    && Tiles(p, l.geneve + 8, 4 * l.words, n) && n < MAX_OPTS
  }

  /** What writing the option into the slot changes. */
  lemma SlotParts(p: Bytes, l: Layout, n: nat, id: U32)
    requires Slotted(p, l, n)
    ensures var q := WithIdentity(p, l.inner, l.geneve, l.words, id);
            && |q| == |p| && q[l.inner..l.inner + 8] == IdentityOption(id) && q[l.geneve] == l.words + OPT_WORDS
            && forall i :: 0 <= i < |p| && i != l.geneve && !(l.inner <= i < l.inner + 8) ==> q[i] == p[i]
  {
    hide Tiles, ParseIPv4AfterEth, IdentityOption, Write;
    var q1 := Write(p, l.inner, IdentityOption(id));
    var b := [(q1[l.geneve] / 64) * 64 + l.words + OPT_WORDS];
    var q := Write(q1, l.geneve, b);
    forall i: nat | i < |p|
      ensures q[i] == if i == l.geneve then b[0]
                      else if l.inner <= i < l.inner + 8 then IdentityOption(id)[i - l.inner] else p[i]
    {
      WriteAt(p, l.inner, IdentityOption(id), i);
      WriteAt(q1, l.geneve, b, i);
    }
    WriteAt(p, l.inner, IdentityOption(id), l.geneve);
  }

  /** What ingress reads off a frame stamped in its slot: the option, and the inner header where it was
      unless the byte eight further on starts another one. */
  lemma SlotRecovery(p: Bytes, l: Layout, n: nat, id: U32)
    requires Slotted(p, l, n)
    ensures var q := WithIdentity(p, l.inner, l.geneve, l.words, id);
            && ParseIPv4AfterEth(q, 0) == Some(l.outer)
            && IsGeneveUdp(q, l.outer)
            && ParseGeneve(q, l.outer) ==
               (if l.words <= 6 then Some(l.(words := l.words + OPT_WORDS, inner := l.inner + 8)) else None)
            && ParseIPv4InGenevePayload(q, l.inner + 8) ==
               (if LooksLikeIPv4(p, l.inner + 16) then Some(Inner(l.inner + 16, 8)) else Some(Inner(l.inner + 8, 0)))
            && FindIdentity(q, l.geneve + 8, 4 * l.words + 8, MAX_OPTS) ==
               match FindIdentity(p, l.geneve + 8, 4 * l.words, MAX_OPTS)
               case Some(earlier) => Some(earlier)
               case None => Some(id)
  {
    hide WithIdentity, Tiles, FindIdentity, IdentityOption, ParseGeneve, ParseIPv4AfterEth, ParseIPv4InGenevePayload,
      IsGeneveUdp, LooksLikeIPv4;
    SlotOuter(p, l, n, id);
    SlotInner(p, l, n, id);
    SlotParts(p, l, n, id);
    FindPastTiles(p, WithIdentity(p, l.inner, l.geneve, l.words, id), l.geneve + 8, 4 * l.words, n, MAX_OPTS, id);
  }

  lemma SlotOuter(p: Bytes, l: Layout, n: nat, id: U32)
    requires Slotted(p, l, n)
    ensures var q := WithIdentity(p, l.inner, l.geneve, l.words, id);
            && ParseIPv4AfterEth(q, 0) == Some(l.outer)
            && IsGeneveUdp(q, l.outer)
            && ParseGeneve(q, l.outer) ==
               (if l.words <= 6 then Some(l.(words := l.words + OPT_WORDS, inner := l.inner + 8)) else None)
  {
    hide WithIdentity, Tiles, IdentityOption, ParseGeneve, ParseIPv4AfterEth, IsGeneveUdp;
    var q := WithIdentity(p, l.inner, l.geneve, l.words, id);
    SlotParts(p, l, n, id);
    EthKept(p, q, l.outer);
    assert q[l.outer + 9] == p[l.outer + 9] && q[l.udp + 2] == p[l.udp + 2] && q[l.udp + 3] == p[l.udp + 3];
    GeneveKept(p, q, l);
  }

  lemma SlotInner(p: Bytes, l: Layout, n: nat, id: U32)
    requires Slotted(p, l, n)
    ensures ParseIPv4InGenevePayload(WithIdentity(p, l.inner, l.geneve, l.words, id), l.inner + 8) ==
            if LooksLikeIPv4(p, l.inner + 16) then Some(Inner(l.inner + 16, 8)) else Some(Inner(l.inner + 8, 0))
  {
    hide WithIdentity, Tiles, IdentityOption, ParseGeneve, ParseIPv4AfterEth, IsGeneveUdp;
    var q := WithIdentity(p, l.inner, l.geneve, l.words, id);
    SlotParts(p, l, n, id);
    assert q[l.inner + 8] == p[l.inner + 8];
    assert l.inner + 16 < |p| ==> q[l.inner + 16] == p[l.inner + 16];
  }

  lemma ShiftedAt(q: Bytes, inner: nat, i: nat)
    requires OPT_BYTES <= inner <= |q| && i < |q|
    ensures Shifted(q, inner)[i] ==
            if i < inner - OPT_BYTES then q[i] else if i < |q| - OPT_BYTES then q[i + OPT_BYTES] else q[i]
  {
  }

  /** Every byte a strip leaves in front of the last eight. */
  lemma StrippedAt(q: Bytes, inner: nat, outer: nat, udp: nat, geneve: nat, i: nat)
    requires outer + 4 <= udp && udp + 8 <= geneve && geneve < inner - OPT_BYTES && inner <= |q| && i < |q| - OPT_BYTES
    ensures Stripped(q, inner, outer, udp, geneve)[i] ==
            if i >= inner - OPT_BYTES then q[i + OPT_BYTES]
            else if i == geneve then (q[geneve] / 64) * 64
            else if outer + 2 <= i < outer + 4 then Lowered(q, outer + 2)[i - outer - 2]
            else if udp + 4 <= i < udp + 6 then Lowered(q, udp + 4)[i - udp - 4]
            else q[i]
  {
    hide Write, Shifted, ToBe16, Lowered;
    var q0 := Shifted(q, inner);
    ShiftedAt(q, inner, i);
    ShiftedAt(q, inner, geneve);
    var g := [(q0[geneve] / 64) * 64];
    var q1 := Write(q0, geneve, g);
    WriteAt(q0, geneve, g, i);
    forall j: nat | j < geneve ensures q1[j] == q[j] {
      ShiftedAt(q, inner, j);
      WriteAt(q0, geneve, g, j);
    }
    LoweredSame(q1, q, outer + 2);
    var a := Lowered(q1, outer + 2);
    var q2 := Write(q1, outer + 2, a);
    WriteAt(q1, outer + 2, a, i);
    forall j: nat | udp <= j < geneve ensures q2[j] == q[j] { WriteAt(q1, outer + 2, a, j); }
    LoweredSame(q2, q, udp + 4);
    WriteAt(q2, udp + 4, Lowered(q2, udp + 4), i);
  }

  lemma LoweredSame(a: Bytes, b: Bytes, at: nat)
    requires at + 2 <= |a| && at + 2 <= |b| && a[at] == b[at] && a[at + 1] == b[at + 1]
    ensures Lowered(a, at) == Lowered(b, at)
  {
  }

  /** Lowering a length that was raised by eight gives the length of the original frame, modulo 2^16. */
  lemma LoweredAgain(q: Bytes, at: nat, n: nat)
    requires at + 2 <= |q| && q[at] == ToBe16(n + OPT_BYTES)[0] && q[at + 1] == ToBe16(n + OPT_BYTES)[1]
    ensures Lowered(q, at) == ToBe16(n % 0x1_0000)
  {
    Be16OfBytes(n + OPT_BYTES);
    LowerModulo(n);
  }

  lemma Be16OfBytes(n: nat)
    ensures 0x100 * ((n / 0x100) % 0x100) + n % 0x100 == n % 0x1_0000
  {
  }

  lemma LowerModulo(n: nat)
    ensures ((n + OPT_BYTES) % 0x1_0000 + 0x1_0000 - OPT_BYTES) % 0x1_0000 == n % 0x1_0000
  {
  }

  lemma Be16Bytes(p: Bytes, at: nat, n: U16)
    requires at + 2 <= |p|
    ensures p[at] == ToBe16(n)[0] && p[at + 1] == ToBe16(n)[1] <==> Be16(p, at) == n
  {
    if p[at] == ToBe16(n)[0] && p[at + 1] == ToBe16(n)[1] {
      assert Be16(p, at) == 0x100 * (n / 0x100) + n % 0x100;
    }
  }

  /** The outer length fields agree with the frame, and the checksum helper had nothing to do. */
  predicate Consistent(p: Bytes, l: Layout, csum: Bytes)
    requires l.outer + 20 <= l.udp && l.udp + 8 == l.geneve && l.geneve < |p| && |csum| == 2
  {
    && Be16(p, l.outer + 2) == (|p| - l.outer) % 0x1_0000
    && Be16(p, l.udp + 4) == (|p| - l.udp) % 0x1_0000
    && (Be16(p, l.udp + 6) == 0 || csum == p[l.udp..l.udp + 2])
  }

  /** Each byte of the original frame after stamping and stripping. */
  function RestoredByte(p: Bytes, l: Layout, csum: Bytes, i: nat): U8
    requires l.outer + 20 <= l.udp && l.udp + 8 == l.geneve && l.inner == l.geneve + 8 + 4 * l.words <= |p|
    requires |csum| == 2 && i < |p|
  {
    if i == l.geneve then 0
    else if l.outer + 2 <= i < l.outer + 4 then ToBe16((|p| - l.outer) % 0x1_0000)[i - l.outer - 2]
    else if l.udp + 4 <= i < l.udp + 6 then ToBe16((|p| - l.udp) % 0x1_0000)[i - l.udp - 4]
    else if l.udp <= i < l.udp + 2 && Be16(p, l.udp + 6) != 0 then csum[i - l.udp]
    else p[i]
  }

  lemma RestoredAt(p: Bytes, l: Layout, id: U32, csum: Bytes, i: nat)
    requires l.outer + 20 <= l.udp && l.udp + 8 == l.geneve && l.inner == l.geneve + 8 + 4 * l.words <= |p|
    requires |csum| == 2 && l.words == p[l.geneve] <= MAX_OPT_WORDS && i < |p|
    ensures Stripped(Stamped(p, l, id, csum), l.inner + 8, l.outer, l.udp, l.geneve)[i] == RestoredByte(p, l, csum, i)
  {
    hide Stamped, Stripped, ToBe16, Lowered, IdentityOption;
    var q := Stamped(p, l, id, csum);
    StrippedAt(q, l.inner + 8, l.outer, l.udp, l.geneve, i);
    StampedAt(p, l, id, csum, if i < l.inner then i else i + OPT_BYTES);
    StampedAt(p, l, id, csum, l.geneve);
    StampedAt(p, l, id, csum, l.outer + 2);
    StampedAt(p, l, id, csum, l.outer + 3);
    LoweredAgain(q, l.outer + 2, |p| - l.outer);
    StampedAt(p, l, id, csum, l.udp + 4);
    StampedAt(p, l, id, csum, l.udp + 5);
    LoweredAgain(q, l.udp + 4, |p| - l.udp);
  }

  /** Round trip: stamping then stripping gives back every original byte exactly when the frame had no
      options, its outer lengths were right, and the outer UDP checksum was zero or left as it was. */
  lemma RoundTripExactlyWhen(p: Bytes, l: Layout, id: U32, csum: Bytes)
    requires l.outer + 20 <= l.udp && l.udp + 8 == l.geneve && l.inner == l.geneve + 8 + 4 * l.words <= |p|
    requires |csum| == 2 && l.words == p[l.geneve] <= MAX_OPT_WORDS
    ensures Stripped(Stamped(p, l, id, csum), l.inner + 8, l.outer, l.udp, l.geneve)[..|p|] == p <==>
            l.words == 0 && Consistent(p, l, csum)
  {
    hide Stamped, Stripped, ToBe16;
    var r := Stripped(Stamped(p, l, id, csum), l.inner + 8, l.outer, l.udp, l.geneve);
    forall i: nat | i < |p| ensures r[..|p|][i] == RestoredByte(p, l, csum, i) { RestoredAt(p, l, id, csum, i); }
    if r[..|p|] == p {
      RestoredMeans(p, l, csum);
    }
    if l.words == 0 && Consistent(p, l, csum) {
      forall i: nat | i < |p| ensures RestoredByte(p, l, csum, i) == p[i] { MeansRestored(p, l, csum, i); }
      assert r[..|p|] == p;
    }
  }

  lemma RestoredMeans(p: Bytes, l: Layout, csum: Bytes)
    requires l.outer + 20 <= l.udp && l.udp + 8 == l.geneve && l.inner == l.geneve + 8 + 4 * l.words <= |p|
    requires |csum| == 2 && l.words == p[l.geneve] <= MAX_OPT_WORDS
    requires forall i: nat :: i < |p| ==> p[i] == RestoredByte(p, l, csum, i)
    ensures l.words == 0 && Consistent(p, l, csum)
  {
    hide ToBe16;
    assert p[l.geneve] == RestoredByte(p, l, csum, l.geneve);
    assert p[l.outer + 2] == RestoredByte(p, l, csum, l.outer + 2);
    assert p[l.outer + 3] == RestoredByte(p, l, csum, l.outer + 3);
    Be16Bytes(p, l.outer + 2, (|p| - l.outer) % 0x1_0000);
    assert p[l.udp + 4] == RestoredByte(p, l, csum, l.udp + 4) && p[l.udp + 5] == RestoredByte(p, l, csum, l.udp + 5);
    Be16Bytes(p, l.udp + 4, (|p| - l.udp) % 0x1_0000);
    if Be16(p, l.udp + 6) != 0 {
      assert p[l.udp] == RestoredByte(p, l, csum, l.udp) && p[l.udp + 1] == RestoredByte(p, l, csum, l.udp + 1);
      assert csum == p[l.udp..l.udp + 2];
    }
  }

  lemma MeansRestored(p: Bytes, l: Layout, csum: Bytes, i: nat)
    requires l.outer + 20 <= l.udp && l.udp + 8 == l.geneve && l.inner == l.geneve + 8 + 4 * l.words <= |p|
    requires |csum| == 2 && l.words == p[l.geneve] == 0 && Consistent(p, l, csum) && i < |p|
    ensures RestoredByte(p, l, csum, i) == p[i]
  {
    hide ToBe16;
    Be16Bytes(p, l.outer + 2, (|p| - l.outer) % 0x1_0000);
    Be16Bytes(p, l.udp + 4, (|p| - l.udp) % 0x1_0000);
    if Be16(p, l.udp + 6) != 0 && l.udp <= i < l.udp + 2 {
      assert csum[i - l.udp] == p[l.udp..l.udp + 2][i - l.udp];
    }
  }
}

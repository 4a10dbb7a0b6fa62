/** Which option the bounded search finds, stated on the bytes of the option region. */
module OptionBytes {
  import opened Wire
  import opened Packet
  import opened Geneve

  /** The header of a Meridian identity option: class 0x4d52, type 1, one word of data. */
  predicate HeadHere(p: Bytes, at: nat) {
    at + 4 <= |p| && p[at] == 0x4d && p[at + 1] == 0x52 && p[at + 2] == 1 && p[at + 3] % 32 == 1
  }

  lemma HeadExactlyWhen(p: Bytes, at: nat)
    requires at + 4 <= |p|
    ensures IsIdentityOption(p, at) <==> HeadHere(p, at)
    ensures HeadHere(p, at) ==> OptionSize(p, at) == 8
  {
  }

  /** The first identity option of a region starts `o` bytes in, behind `n` other options. */
  ghost predicate FirstAt(p: Bytes, at: nat, len: nat, n: nat, o: nat) {
    && Tiles(p, at, o, n) && o + 8 <= len && HeadHere(p, at + o)
    && forall n', o' :: 0 <= n' < n && 0 <= o' && Tiles(p, at, o', n') ==> !HeadHere(p, at + o')
  }

  lemma FirstHere(p: Bytes, at: nat, len: nat, n: nat, o: nat)
    requires FirstAt(p, at, len, n, o) && HeadHere(p, at)
    ensures n == 0 && o == 0
  {
    assert Tiles(p, at, 0, 0);
  }

  /** Behind an option that is not an identity, the first identity is that of the rest. */
  lemma FirstLater(p: Bytes, at: nat, len: nat, n: nat, o: nat)
    requires at + 4 <= |p| && !HeadHere(p, at) && OptionSize(p, at) <= len
    ensures FirstAt(p, at, len, n, o) <==>
            var size := OptionSize(p, at);
            n > 0 && o >= size && FirstAt(p, at + size, len - size, n - 1, o - size)
  {
    var size := OptionSize(p, at);
    assert size >= 4;
    hide OptionSize, HeadHere;
    var next := at + size;
    if n > 0 && o >= size {
      if FirstAt(p, at, len, n, o) {
        forall n', o' | 0 <= n' < n - 1 && 0 <= o' && Tiles(p, next, o', n') ensures !HeadHere(p, next + o') {
          assert Tiles(p, at, o' + size, n' + 1);
        }
      }
      if FirstAt(p, next, len - size, n - 1, o - size) {
        forall n', o' | 0 <= n' < n && 0 <= o' && Tiles(p, at, o', n') ensures !HeadHere(p, at + o') {
          if n' > 0 { assert Tiles(p, next, o' - size, n' - 1); }
        }
      }
    }
  }

  /** The search returns the value of the first identity option of the region, if that is among the first
      `fuel` options and lies whole in the frame, and nothing otherwise. */
  lemma {:induction false} FoundExactlyWhen(p: Bytes, at: nat, len: nat, fuel: nat, id: U32)
    ensures FindIdentity(p, at, len, fuel) == Some(id) <==>
            exists n, o :: 0 <= n < fuel && 0 <= o && FirstAt(p, at, len, n, o) && at + o + 8 <= |p| &&
                           Be32(p, at + o + 4) == id
    decreases fuel
  {
    if fuel > 0 && len > 0 && at + 4 <= |p| && OptionSize(p, at) <= len {
      HeadExactlyWhen(p, at);
      var size := OptionSize(p, at);
      hide IsIdentityOption, HeadHere, OptionSize, Be32;
      if HeadHere(p, at) {
        OnlyHere(p, at, len);
      } else {
        forall n, o | 0 <= n && 0 <= o
          ensures FirstAt(p, at, len, n, o) <==>
                  n > 0 && o >= size && FirstAt(p, at + size, len - size, n - 1, o - size)
        {
          FirstLater(p, at, len, n, o);
        }
        hide FirstAt;
        var next, left := at + size, len - size;
        FoundExactlyWhen(p, next, left, fuel - 1, id);
        if n, o :| 0 <= n < fuel - 1 && 0 <= o && FirstAt(p, next, left, n, o) && next + o + 8 <= |p| &&
                   Be32(p, next + o + 4) == id {
          assert FirstAt(p, at, len, n + 1, o + size);
        }
      }
    } else {
      forall n, o | 0 <= n < fuel && 0 <= o ensures !FirstAt(p, at, len, n, o) {
        if FirstAt(p, at, len, n, o) { FirstFits(p, at, len, n, o); }
      }
    }
  }

  lemma OnlyHere(p: Bytes, at: nat, len: nat)
    requires HeadHere(p, at) && 8 <= len
    ensures FirstAt(p, at, len, 0, 0)
    ensures forall n, o :: 0 <= n && 0 <= o && FirstAt(p, at, len, n, o) ==> n == 0 && o == 0
  {
    forall n, o | 0 <= n && 0 <= o && FirstAt(p, at, len, n, o) ensures n == 0 && o == 0 {
      FirstHere(p, at, len, n, o);
    }
  }

  lemma FirstFits(p: Bytes, at: nat, len: nat, n: nat, o: nat)
    requires FirstAt(p, at, len, n, o)
    ensures len > 0 && at + 4 <= |p| && OptionSize(p, at) <= len
  {
    if n == 0 { HeadExactlyWhen(p, at); }
  }
}

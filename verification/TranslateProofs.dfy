/** Address text and identity_map keys determine each other. */
module TranslateProofs {
  import opened Wire
  import opened Translate

  function Digit(n: nat): char
    requires n < 10
  {
    '0' + n as char
  }

  /** An octet in decimal, without leading zeros. */
  function Decimal(n: U8): string {
    if n < 10 then [Digit(n)]
    else if n < 100 then [Digit(n / 10), Digit(n % 10)]
    else [Digit(n / 100), Digit(n / 10 % 10), Digit(n % 10)]
  }

  /** Octets that a dot has ended. */
  function Ended(fields: seq<U8>): string {
    if fields == [] then "" else Ended(fields[..|fields| - 1]) + Decimal(fields[|fields| - 1]) + "."
  }

  function Dotted(b: seq<U8>): string
    requires |b| == 4
  {
    Ended(b[..3]) + Decimal(b[3])
  }

  /** The scan stands at `i`, having read exactly what its variables say. */
  predicate Scanned(s: string, i: nat, fields: seq<U8>, val: U8, digits: nat) {
    && i <= |s| && |fields| <= 3
    && s[..i] == Ended(fields) + (if digits == 0 then "" else Decimal(val))
    && (digits == 0 ==> val == 0 && if i == 0 then fields == [] else i < |s| && s[i - 1] == '.')
    && (digits != 0 ==> digits == |Decimal(val)|)
  }

  /** One more digit. */
  lemma DecimalGrows(val: U8, digits: nat, c: char)
    requires '0' <= c <= '9' && (if digits == 0 then val == 0 else digits == |Decimal(val)|)
    requires !(digits == 1 && val == 0) && val * 10 + (c as int - '0' as int) <= 255
    ensures Decimal(val * 10 + (c as int - '0' as int)) == (if digits == 0 then "" else Decimal(val)) + [c]
  {
    var d := c as int - '0' as int;
    assert Digit(d) == c;
    assert (val * 10 + d) / 10 == val && (val * 10 + d) % 10 == d && (val * 10 + d) / 100 == val / 10;
  }

  lemma EndedGrows(fields: seq<U8>, val: U8)
    ensures Ended(fields + [val]) == Ended(fields) + Decimal(val) + "."
  {
    assert (fields + [val])[..|fields|] == fields;
  }

  lemma DigitStep(s: string, i: nat, fields: seq<U8>, val: U8, digits: nat)
    requires Scanned(s, i, fields, val, digits) && i < |s| && '0' <= s[i] <= '9'
    requires !(digits == 1 && val == 0) && val * 10 + (s[i] as int - '0' as int) <= 255
    ensures Scanned(s, i + 1, fields, val * 10 + (s[i] as int - '0' as int), digits + 1)
  {
    hide Decimal, Ended;
    DecimalGrows(val, digits, s[i]);
    assert s[..i + 1] == s[..i] + [s[i]];
  }

  lemma DotStep(s: string, i: nat, fields: seq<U8>, val: U8, digits: nat)
    requires Scanned(s, i, fields, val, digits) && 0 < i < |s| - 1 && s[i] == '.' && s[i - 1] != '.' && |fields| < 3
    ensures Scanned(s, i + 1, fields + [val], 0, 0)
  {
    hide Decimal, Ended;
    EndedGrows(fields, val);
    assert s[..i + 1] == s[..i] + ".";
  }

  /** A scan that succeeds has read the canonical text of its octets. */
  lemma {:induction false} ScanSound(s: string, i: nat, fields: seq<U8>, val: U8, digits: nat)
    requires Scanned(s, i, fields, val, digits)
    ensures var r := ParseFields(s, i, fields, val, digits); r.Some? ==> s == Dotted(r.value)
    decreases |s| - i
  {
    hide Decimal, Ended;
    if i == |s| {
      if |fields| == 3 && digits != 0 {
        var r := fields + [val];
        assert s[..i] == s && r[..3] == fields && r[3] == val;
      }
    } else if '0' <= s[i] <= '9' {
      var v := val * 10 + (s[i] as int - '0' as int);
      if !((digits == 1 && val == 0) || v > 255) {
        DigitStep(s, i, fields, val, digits);
        ScanSound(s, i + 1, fields, v, digits + 1);
      }
    } else if s[i] == '.' {
      if !(i == 0 || i == |s| - 1 || s[i - 1] == '.' || |fields| == 3) {
        DotStep(s, i, fields, val, digits);
        ScanSound(s, i + 1, fields + [val], 0, 0);
      }
    }
  }

  /** Reading an octet's digits. */
  lemma ReadDecimal(s: string, i: nat, fields: seq<U8>, n: U8)
    requires |fields| <= 3 && i + |Decimal(n)| <= |s| && s[i..i + |Decimal(n)|] == Decimal(n)
    ensures ParseFields(s, i, fields, 0, 0) == ParseFields(s, i + |Decimal(n)|, fields, n, |Decimal(n)|)
  {
    forall j | 0 <= j < |Decimal(n)| ensures s[i + j] == Decimal(n)[j] {
      assert s[i..i + |Decimal(n)|][j] == s[i + j];
    }
    if n < 10 {
      assert s[i] == Digit(n);
    } else if n < 100 {
      assert s[i] == Digit(n / 10) && s[i + 1] == Digit(n % 10);
      assert ParseFields(s, i, fields, 0, 0) == ParseFields(s, i + 1, fields, n / 10, 1);
    } else {
      assert s[i] == Digit(n / 100) && s[i + 1] == Digit(n / 10 % 10) && s[i + 2] == Digit(n % 10);
      assert n / 100 * 10 + n / 10 % 10 == n / 10;
      assert ParseFields(s, i, fields, 0, 0) == ParseFields(s, i + 1, fields, n / 100, 1);
      assert ParseFields(s, i + 1, fields, n / 100, 1) == ParseFields(s, i + 2, fields, n / 10, 2);
    }
  }

  /** The rest of a canonical text, from the k-th octet on. */
  function From(b: seq<U8>, k: nat): string
    requires |b| == 4 && k <= 3
    decreases 3 - k
  {
    if k == 3 then Decimal(b[3]) else Decimal(b[k]) + "." + From(b, k + 1)
  }

  lemma DecimalEnds(n: U8)
    ensures Decimal(n) != "" && Decimal(n)[|Decimal(n)| - 1] != '.'
  {
  }

  lemma {:induction false} ScanComplete(s: string, i: nat, b: seq<U8>, k: nat)
    requires |b| == 4 && k <= 3 && i <= |s| && s[i..] == From(b, k)
    ensures ParseFields(s, i, b[..k], 0, 0) == Some(b)
    decreases 3 - k
  {
    hide Decimal;
    var t := From(b, k);
    var w := |Decimal(b[k])|;
    DecimalEnds(b[k]);
    assert t[..w] == Decimal(b[k]);
    assert s[i..i + w] == t[..w];
    ReadDecimal(s, i, b[..k], b[k]);
    assert b[..k] + [b[k]] == b[..k + 1];
    if k < 3 {
      DecimalEnds(b[k + 1]);
      assert From(b, k + 1) != "";
      assert s[i + w] == t[w] == '.';
      assert s[i + w - 1] == t[w - 1] != '.';
      assert s[i + w + 1..] == t[w + 1..] == From(b, k + 1);
      ScanComplete(s, i + w + 1, b, k + 1);
    } else {
      assert |s| == i + w && b[..4] == b;
    }
  }

  lemma Regroup(x: string, y: string, z: string)
    ensures (x + y + ".") + z == x + (y + "." + z)
  {
  }

  lemma {:induction false} EndedThenRest(b: seq<U8>, k: nat)
    requires |b| == 4 && k <= 3
    ensures Ended(b[..k]) + From(b, k) == From(b, 0)
  {
    if k == 0 {
      assert Ended(b[..0]) == "";
    } else {
      hide Decimal, Ended;
      EndedThenRest(b, k - 1);
      assert b[..k] == b[..k - 1] + [b[k - 1]];
      EndedGrows(b[..k - 1], b[k - 1]);
      Regroup(Ended(b[..k - 1]), Decimal(b[k - 1]), From(b, k));
    }
  }

  /** Round trip, both ways: text parses to four octets exactly when it is their canonical form. */
  lemma ParsedExactlyWhen(s: string, b: seq<U8>)
    requires |b| == 4
    ensures ParseFields(s, 0, [], 0, 0) == Some(b) <==> s == Dotted(b)
  {
    assert s[..0] == "";
    ScanSound(s, 0, [], 0, 0);
    if s == Dotted(b) {
      EndedThenRest(b, 3);
      assert s[0..] == s && b[..0] == [];
      ScanComplete(s, 0, b, 0);
    }
  }

  lemma LowByte(x: int, p: int, y: int, q: int)
    requires 0 <= x < 0x100 && 0 <= y < 0x100 && 0x100 * p + x == 0x100 * q + y
    ensures x == y && p == q
  {
  }

  lemma WordDetermines(a: seq<U8>, b: seq<U8>)
    requires |a| == 4 && |b| == 4
    requires LittleEndian32(a[0], a[1], a[2], a[3]) == LittleEndian32(b[0], b[1], b[2], b[3])
    ensures a == b
  {
    var a1: int, a2: int, a3: int := a[1], a[2], a[3];
    var b1: int, b2: int, b3: int := b[1], b[2], b[3];
    LowByte(a[0], a1 + 0x100 * a2 + 0x1_0000 * a3, b[0], b1 + 0x100 * b2 + 0x1_0000 * b3);
    LowByte(a1, a2 + 0x100 * a3, b1, b2 + 0x100 * b3);
    LowByte(a2, a3, b2, b3);
  }

  /** Two identities share an identity_map key if and only if they state the same, valid address. */
  lemma SharedKeyExactlyWhen(x: Identity, y: Identity)
    requires NetworkKey(x).Some? || NetworkKey(y).Some?
    ensures NetworkKey(x) == NetworkKey(y) <==> x.podIPv4 == y.podIPv4
  {
    if NetworkKey(x) == NetworkKey(y) {
      var a, b := ParseFields(x.podIPv4, 0, [], 0, 0).value, ParseFields(y.podIPv4, 0, [], 0, 0).value;
      WordDetermines(a, b);
      ParsedExactlyWhen(x.podIPv4, a);
      ParsedExactlyWhen(y.podIPv4, b);
    }
  }
}

/** The policy compiler (internal/control/compiler.go): selectors are resolved, expanded through
    five nested loops, deduplicated, checked for conflicts and sorted. */
module Compiler {
  import opened Wire
  import opened Verdicts

  /** unicode.IsSpace, as strings.TrimSpace uses it. */
  predicate IsSpace(c: char) {
    var n := c as int;
    0x09 <= n <= 0x0D || n == 0x20 || n == 0x85 || n == 0xA0 || n == 0x1680 || 0x2000 <= n <= 0x200A
    || n == 0x2028 || n == 0x2029 || n == 0x202F || n == 0x205F || n == 0x3000
  }

  predicate Blank(name: string) {
    forall i :: 0 <= i < |name| ==> IsSpace(name[i])
  }

  /** The compiler's name index; the last identity with a name wins. */
  function NameTable(ids: seq<Identity>): map<string, IdentityID> {
    if ids == [] then map[] else NameTable(ids[..|ids| - 1])[ids[|ids| - 1].spiffeID := ids[|ids| - 1].id]
  }

  predicate ConsistentIdentities(ids: seq<Identity>) {
    && (forall i :: 0 <= i < |ids| ==> ids[i].id != IDENTITY_UNKNOWN && ids[i].spiffeID != "")
    && (forall i, j :: 0 <= i < j < |ids| && ids[i].spiffeID == ids[j].spiffeID ==> ids[i].id == ids[j].id)
  }

  predicate NamesOk(names: seq<string>, table: map<string, IdentityID>) {
    names != [] && forall n :: n in names ==> !Blank(n) && n in table
  }

  predicate SelectorOk(sel: Selector, table: map<string, IdentityID>) {
    && NamesOk(sel.sources, table) && NamesOk(sel.destinations, table)
    && sel.ports != [] && sel.protocols != [] && sel.directions != []
    && ValidVerdict(sel.verdict)
    && forall d :: d in sel.directions ==> d == DIRECTION_INGRESS || d == DIRECTION_EGRESS
  }

  /** Some listed name stands for this identity. */
  predicate Means(names: seq<string>, table: map<string, IdentityID>, id: IdentityID) {
    exists n :: n in names && n in table && table[n] == id
  }

  predicate Selects(sel: Selector, table: map<string, IdentityID>, k: PolicyRuleKey) {
    && Means(sel.sources, table, k.src) && Means(sel.destinations, table, k.dst)
    && k.port in sel.ports && k.proto in sel.protocols && k.dir in sel.directions
  }

  /** Every rule of every policy, in order. */
  function Flat(policies: seq<Policy>): seq<Selector> {
    if policies == [] then [] else Flat(policies[..|policies| - 1]) + policies[|policies| - 1].rules
  }

  /** Some selector of the list gives this key this verdict. */
  predicate Assigns(sels: seq<Selector>, table: map<string, IdentityID>, k: PolicyRuleKey, v: PolicyVerdict) {
    exists i :: 0 <= i < |sels| && Selects(sels[i], table, k) && sels[i].verdict == v
  }

  ghost predicate NoConflict(sels: seq<Selector>, table: map<string, IdentityID>) {
    forall k, v, v' :: Assigns(sels, table, k, v) && Assigns(sels, table, k, v') ==> v == v'
  }

  /** What a caller must bring for the compiler to accept. */
  ghost predicate Accepts(spec: PolicySpec, ids: seq<Identity>) {
    && ConsistentIdentities(ids)
    && (forall sel :: sel in Flat(spec.policies) ==> SelectorOk(sel, NameTable(ids)))
    && NoConflict(Flat(spec.policies), NameTable(ids))
  }

  datatype CompileError =
    | UnknownIdentity(index: nat)
    | UnnamedIdentity(index: nat)
    | NameClash(index: nat)
    | EmptySelector(sel: Selector)
    | BadName(sel: Selector, name: string)
    | BadVerdict(sel: Selector)
    | BadDirection(sel: Selector, dir: U8)
    | VerdictClash(key: PolicyRuleKey, existing: PolicyVerdict, new_: PolicyVerdict)

  predicate HasEmptyList(sel: Selector) {
    sel.sources == [] || sel.destinations == [] || sel.ports == [] || sel.protocols == [] || sel.directions == []
  }

  /** What is wrong with the input when an error is reported. */
  ghost predicate Defect(spec: PolicySpec, ids: seq<Identity>, e: CompileError) {
    var table, sels := NameTable(ids), Flat(spec.policies);
    match e
    case UnknownIdentity(i) => i < |ids| && ids[i].id == IDENTITY_UNKNOWN
    case UnnamedIdentity(i) => i < |ids| && ids[i].spiffeID == ""
    case NameClash(i) =>
      i < |ids| && exists j :: 0 <= j < i && ids[j].spiffeID == ids[i].spiffeID && ids[j].id != ids[i].id
    case EmptySelector(sel) =>
      sel in sels && HasEmptyList(sel)
    case BadName(sel, n) => sel in sels && (n in sel.sources || n in sel.destinations) && (Blank(n) || n !in table)
    case BadVerdict(sel) => sel in sels && !ValidVerdict(sel.verdict)
    case BadDirection(sel, d) => sel in sels && d in sel.directions && d != DIRECTION_INGRESS && d != DIRECTION_EGRESS
    case VerdictClash(k, v, v') => v != v' && Assigns(sels, table, k, v) && Assigns(sels, table, k, v')
  }

  /** The comparison the compiler sorts with. */
  function Compare(a: PolicyRuleKey, b: PolicyRuleKey): int {
    if a.src != b.src then (if a.src < b.src then -1 else 1)
    else if a.dst != b.dst then (if a.dst < b.dst then -1 else 1)
    else if a.port != b.port then (if a.port < b.port then -1 else 1)
    else if a.proto != b.proto then (if a.proto < b.proto then -1 else 1)
    else if a.dir != b.dir then (if a.dir < b.dir then -1 else 1)
    else 0
  }

  predicate StrictlyIncreasing(ks: seq<PolicyRuleKey>) {
    forall i, j :: 0 <= i < j < |ks| ==> Compare(ks[i], ks[j]) < 0
  }

  function Keys(rules: seq<PolicyRule>): seq<PolicyRuleKey> {
    seq(|rules|, i requires 0 <= i < |rules| => rules[i].key)
  }

  /** The compiled form of a document: exactly the assigned rules, in strictly increasing key order. */
  ghost predicate IsCompiled(spec: PolicySpec, ids: seq<Identity>, rules: seq<PolicyRule>) {
    && StrictlyIncreasing(Keys(rules))
    && forall r :: r in rules <==> Assigns(Flat(spec.policies), NameTable(ids), r.key, r.verdict)
  }

  /** The product of five selector lists. */
  datatype Box = Box(srcs: seq<IdentityID>, dsts: seq<IdentityID>, ports: seq<U16>, protos: seq<U8>, dirs: seq<U8>)

  predicate In(b: Box, k: PolicyRuleKey) {
    k.src in b.srcs && k.dst in b.dsts && k.port in b.ports && k.proto in b.protos && k.dir in b.dirs
  }

  type Table = map<PolicyRuleKey, PolicyVerdict>

  /** `m'` is `m` with the whole box set to v, which contradicted nothing. */
  ghost predicate Filled(m: Table, b: Box, v: PolicyVerdict, m': Table) {
    forall k :: && Get(m', k) == (if In(b, k) then Some(v) else Get(m, k))
                && (In(b, k) ==> Get(m, k) == None || Get(m, k) == Some(v))
                && (In(b, k) ==> k.dir == DIRECTION_INGRESS || k.dir == DIRECTION_EGRESS)
  }

  /** The key that stopped the expansion. */
  predicate Stops(m: Table, b: Box, v: PolicyVerdict, k: PolicyRuleKey) {
    In(b, k) && ((k.dir != DIRECTION_INGRESS && k.dir != DIRECTION_EGRESS) || (k in m && m[k] != v))
  }

  /** Filling two halves of a box one after the other fills the box. */
  lemma FillHalves(m: Table, b1: Box, m1: Table, b2: Box, m2: Table, b: Box, v: PolicyVerdict)
    requires Filled(m, b1, v, m1) && Filled(m1, b2, v, m2)
    requires forall k :: In(b, k) <==> In(b1, k) || In(b2, k)
    ensures Filled(m, b, v, m2)
  {
    forall k
      ensures && Get(m2, k) == (if In(b, k) then Some(v) else Get(m, k))
              && (In(b, k) ==> Get(m, k) == None || Get(m, k) == Some(v))
              && (In(b, k) ==> k.dir == DIRECTION_INGRESS || k.dir == DIRECTION_EGRESS)
    {
      assert Get(m1, k) == (if In(b1, k) then Some(v) else Get(m, k));
      assert Get(m2, k) == (if In(b2, k) then Some(v) else Get(m1, k));
    }
  }

  lemma StopsEarlier(m: Table, b1: Box, m1: Table, b2: Box, b: Box, v: PolicyVerdict, k: PolicyRuleKey)
    requires Filled(m, b1, v, m1) && Stops(m1, b2, v, k) && In(b, k)
    ensures Stops(m, b, v, k)
  {
    assert Get(m1, k) == (if In(b1, k) then Some(v) else Get(m, k));
  }

  method FillDirections(m: Table, b: Box, v: PolicyVerdict) returns (r: Result<Table, PolicyRuleKey>)
    requires |b.srcs| == 1 && |b.dsts| == 1 && |b.ports| == 1 && |b.protos| == 1
    ensures r.Ok? ==> Filled(m, b, v, r.value)
    ensures r.Err? ==> Stops(m, b, v, r.error)
  {
    var m' := m;
    for i := 0 to |b.dirs|
      invariant Filled(m, b.(dirs := b.dirs[..i]), v, m')
    {
      ghost var done := b.(dirs := b.dirs[..i]);
      var key := PolicyRuleKey(b.srcs[0], b.dsts[0], b.ports[0], b.protos[0], b.dirs[i]);
      assert In(b, key);
      if key.dir != DIRECTION_INGRESS && key.dir != DIRECTION_EGRESS { return Err(key); }
      ghost var one := b.(dirs := [b.dirs[i]]);
      assert forall k :: In(one, k) <==> k == key;
      if key in m' {
        if m'[key] != v {
          StopsEarlier(m, done, m', one, b, v, key);
          return Err(key);
        }
        assert Filled(m', one, v, m');
        FillHalves(m, done, m', one, m', b.(dirs := b.dirs[..i + 1]), v);
        continue;
      }
      assert Filled(m', one, v, m'[key := v]);
      FillHalves(m, done, m', one, m'[key := v], b.(dirs := b.dirs[..i + 1]), v);
      m' := m'[key := v];
    }
    assert b.(dirs := b.dirs[..|b.dirs|]) == b;
    r := Ok(m');
  }

  method FillProtocols(m: Table, b: Box, v: PolicyVerdict) returns (r: Result<Table, PolicyRuleKey>)
    requires |b.srcs| == 1 && |b.dsts| == 1 && |b.ports| == 1
    ensures r.Ok? ==> Filled(m, b, v, r.value)
    ensures r.Err? ==> Stops(m, b, v, r.error)
  {
    var m' := m;
    for i := 0 to |b.protos|
      invariant Filled(m, b.(protos := b.protos[..i]), v, m')
    {
      var one := b.(protos := [b.protos[i]]);
      var s := FillDirections(m', one, v);
      ghost var done := b.(protos := b.protos[..i]);
      if s.Err? {
        StopsEarlier(m, done, m', one, b, v, s.error);
        return s;
      }
      FillHalves(m, done, m', one, s.value, b.(protos := b.protos[..i + 1]), v);
      m' := s.value;
    }
    assert b.(protos := b.protos[..|b.protos|]) == b;
    r := Ok(m');
  }

  method FillPorts(m: Table, b: Box, v: PolicyVerdict) returns (r: Result<Table, PolicyRuleKey>)
    requires |b.srcs| == 1 && |b.dsts| == 1
    ensures r.Ok? ==> Filled(m, b, v, r.value)
    ensures r.Err? ==> Stops(m, b, v, r.error)
  {
    var m' := m;
    for i := 0 to |b.ports|
      invariant Filled(m, b.(ports := b.ports[..i]), v, m')
    {
      var one := b.(ports := [b.ports[i]]);
      var s := FillProtocols(m', one, v);
      ghost var done := b.(ports := b.ports[..i]);
      if s.Err? {
        StopsEarlier(m, done, m', one, b, v, s.error);
        return s;
      }
      FillHalves(m, done, m', one, s.value, b.(ports := b.ports[..i + 1]), v);
      m' := s.value;
    }
    assert b.(ports := b.ports[..|b.ports|]) == b;
    r := Ok(m');
  }

  method FillDestinations(m: Table, b: Box, v: PolicyVerdict) returns (r: Result<Table, PolicyRuleKey>)
    requires |b.srcs| == 1
    ensures r.Ok? ==> Filled(m, b, v, r.value)
    ensures r.Err? ==> Stops(m, b, v, r.error)
  {
    var m' := m;
    for i := 0 to |b.dsts|
      invariant Filled(m, b.(dsts := b.dsts[..i]), v, m')
    {
      var one := b.(dsts := [b.dsts[i]]);
      var s := FillPorts(m', one, v);
      ghost var done := b.(dsts := b.dsts[..i]);
      if s.Err? {
        StopsEarlier(m, done, m', one, b, v, s.error);
        return s;
      }
      FillHalves(m, done, m', one, s.value, b.(dsts := b.dsts[..i + 1]), v);
      m' := s.value;
    }
    assert b.(dsts := b.dsts[..|b.dsts|]) == b;
    r := Ok(m');
  }

  /** The five nested loops: sources, destinations, ports, protocols, directions. */
  method Fill(m: Table, b: Box, v: PolicyVerdict) returns (r: Result<Table, PolicyRuleKey>)
    ensures r.Ok? ==> Filled(m, b, v, r.value)
    ensures r.Err? ==> Stops(m, b, v, r.error)
  {
    var m' := m;
    for i := 0 to |b.srcs|
      invariant Filled(m, b.(srcs := b.srcs[..i]), v, m')
    {
      var one := b.(srcs := [b.srcs[i]]);
      var s := FillDestinations(m', one, v);
      ghost var done := b.(srcs := b.srcs[..i]);
      if s.Err? {
        StopsEarlier(m, done, m', one, b, v, s.error);
        return s;
      }
      FillHalves(m, done, m', one, s.value, b.(srcs := b.srcs[..i + 1]), v);
      m' := s.value;
    }
    assert b.(srcs := b.srcs[..|b.srcs|]) == b;
    r := Ok(m');
  }

  lemma {:induction false} NameTableMembers(ids: seq<Identity>)
    ensures forall n :: n in NameTable(ids) <==> exists i :: 0 <= i < |ids| && ids[i].spiffeID == n
    ensures forall n :: n in NameTable(ids) ==>
        exists i :: 0 <= i < |ids| && ids[i].spiffeID == n && ids[i].id == NameTable(ids)[n]
  {
    if ids != [] {
      var front := ids[..|ids| - 1];
      assert forall i :: 0 <= i < |front| ==> front[i] == ids[i];
      NameTableMembers(front);
    }
  }

  /** Looking a name up among the identities before i finds one of them, and they all agree. */
  lemma NamedBefore(ids: seq<Identity>, i: nat)
    requires i < |ids| && ConsistentIdentities(ids[..i])
    ensures var n, table := ids[i].spiffeID, NameTable(ids[..i]);
            && (n in table ==> exists j :: 0 <= j < i && ids[j].spiffeID == n && ids[j].id == table[n])
            && (forall j :: 0 <= j < i && ids[j].spiffeID == n ==> n in table && ids[j].id == table[n])
  {
    var n, table := ids[i].spiffeID, NameTable(ids[..i]);
    NameTableMembers(ids[..i]);
    assert forall j :: 0 <= j < i ==> ids[..i][j] == ids[j];
    if n in table {
      var j :| 0 <= j < i && ids[..i][j].spiffeID == n && ids[..i][j].id == table[n];
      assert ids[j].spiffeID == n && ids[j].id == table[n];
      forall b | 0 <= b < i && ids[b].spiffeID == n ensures ids[b].id == table[n] {
        assert ids[..i][b].id == ids[..i][j].id;
      }
    }
  }

  method IndexIdentities(ids: seq<Identity>) returns (r: Result<map<string, IdentityID>, CompileError>)
    ensures r.Ok? ==> ConsistentIdentities(ids) && r.value == NameTable(ids)
    ensures r.Err? ==> Defect(PolicySpec([]), ids, r.error)
    ensures r.Err? ==> r.error.UnknownIdentity? || r.error.UnnamedIdentity? || r.error.NameClash?
  {
    var table: map<string, IdentityID> := map[];
    for i := 0 to |ids|
      invariant table == NameTable(ids[..i])
      invariant ConsistentIdentities(ids[..i])
    {
      var identity := ids[i];
      if identity.id == IDENTITY_UNKNOWN { return Err(UnknownIdentity(i)); }
      if identity.spiffeID == "" { return Err(UnnamedIdentity(i)); }
      NamedBefore(ids, i);
      if identity.spiffeID in table && table[identity.spiffeID] != identity.id { return Err(NameClash(i)); }
      assert ids[..i + 1][..i] == ids[..i];
      table := table[identity.spiffeID := identity.id];
    }
    assert ids[..|ids|] == ids;
    r := Ok(table);
  }

  lemma MeansAppend(names: seq<string>, name: string, table: map<string, IdentityID>)
    requires name in table
    ensures forall x :: Means(names + [name], table, x) <==> Means(names, table, x) || x == table[name]
  {
    forall x ensures Means(names + [name], table, x) <==> Means(names, table, x) || x == table[name] {
      assert forall n :: n in names + [name] <==> n in names || n == name;
      assert name in names + [name];
    }
  }

  /** The distinct identities a list of names stands for; None in the error is the empty list. */
  method ResolveIdentityNames(names: seq<string>, table: map<string, IdentityID>)
    returns (r: Result<seq<IdentityID>, Option<string>>)
    ensures r.Ok? ==> NamesOk(names, table) && forall id :: id in r.value <==> Means(names, table, id)
    ensures r.Ok? ==> r.value != [] && forall i, j :: 0 <= i < j < |r.value| ==> r.value[i] != r.value[j]
    ensures r == Err(None) ==> names == []
    ensures r.Err? && r.error.Some? ==>
              var n := r.error.value;
              n in names && (Blank(n) || n !in table || table[n] == IDENTITY_UNKNOWN)
  {
    if names == [] { return Err(None); }
    var resolved: seq<IdentityID> := [];
    var seen: set<IdentityID> := {};
    for i := 0 to |names|
      invariant forall n :: n in names[..i] ==> !Blank(n) && n in table
      invariant forall id :: id in resolved <==> Means(names[..i], table, id)
      invariant forall id :: id in resolved <==> id in seen
      invariant i > 0 ==> resolved != []
      invariant forall a, b :: 0 <= a < b < |resolved| ==> resolved[a] != resolved[b]
    {
      var name := names[i];
      assert names[..i + 1] == names[..i] + [name];
      if Blank(name) { return Err(Some(name)); }
      if name !in table { return Err(Some(name)); }
      var id := table[name];
      if id == IDENTITY_UNKNOWN { return Err(Some(name)); }
      MeansAppend(names[..i], name, table);
      if id in seen { continue; }
      seen := seen + {id};
      resolved := resolved + [id];
    }
    assert names[..|names|] == names;
    r := Ok(resolved);
  }

  /** The rules collected so far are exactly those the selectors assign. */
  ghost predicate Collected(m: Table, sels: seq<Selector>, table: map<string, IdentityID>) {
    forall k, v :: Get(m, k) == Some(v) <==> Assigns(sels, table, k, v)
  }

  /** What one declarative rule adds. */
  ghost predicate Expanded(m: Table, sel: Selector, table: map<string, IdentityID>, m': Table) {
    forall k :: && Get(m', k) == (if Selects(sel, table, k) then Some(sel.verdict) else Get(m, k))
                && (Selects(sel, table, k) ==> Get(m, k) == None || Get(m, k) == Some(sel.verdict))
  }

  method CompileRule(m: Table, sel: Selector, table: map<string, IdentityID>) returns (r: Result<Table, CompileError>)
    requires forall n :: n in table ==> table[n] != IDENTITY_UNKNOWN
    ensures r.Ok? ==> SelectorOk(sel, table) && Expanded(m, sel, table, r.value)
    ensures r.Err? ==> RuleDefect(m, sel, table, r.error)
  {
    var srcs := ResolveIdentityNames(sel.sources, table);
    if srcs.Err? {
      return Err(if srcs.error.None? then EmptySelector(sel) else BadName(sel, srcs.error.value));
    }
    var dsts := ResolveIdentityNames(sel.destinations, table);
    if dsts.Err? {
      return Err(if dsts.error.None? then EmptySelector(sel) else BadName(sel, dsts.error.value));
    }
    if sel.ports == [] { return Err(EmptySelector(sel)); }
    if sel.protocols == [] { return Err(EmptySelector(sel)); }
    if sel.directions == [] { return Err(EmptySelector(sel)); }
    if !ValidVerdict(sel.verdict) { return Err(BadVerdict(sel)); }
    var box := Box(srcs.value, dsts.value, sel.ports, sel.protocols, sel.directions);
    assert forall k :: In(box, k) <==> Selects(sel, table, k);
    var filled := Fill(m, box, sel.verdict);
    match filled
    case Err(k) =>
      r := Err(if k.dir != DIRECTION_INGRESS && k.dir != DIRECTION_EGRESS then BadDirection(sel, k.dir)
               else VerdictClash(k, m[k], sel.verdict));
    case Ok(m') =>
      DirectionsChecked(m, box, sel.verdict, m');
      r := Ok(m');
  }

  /** A filled non-empty product has looked at every direction. */
  lemma DirectionsChecked(m: Table, b: Box, v: PolicyVerdict, m': Table)
    requires Filled(m, b, v, m')
    requires b.srcs != [] && b.dsts != [] && b.ports != [] && b.protos != []
    ensures forall d :: d in b.dirs ==> d == DIRECTION_INGRESS || d == DIRECTION_EGRESS
  {
    forall d | d in b.dirs ensures d == DIRECTION_INGRESS || d == DIRECTION_EGRESS {
      assert In(b, PolicyRuleKey(b.srcs[0], b.dsts[0], b.ports[0], b.protos[0], d));
    }
  }

  /** What is wrong with one rule, given the rules already collected. */
  predicate RuleDefect(m: Table, sel: Selector, table: map<string, IdentityID>, e: CompileError) {
    match e
    case EmptySelector(s) =>
      s == sel && HasEmptyList(sel)
    case BadName(s, n) => s == sel && (n in sel.sources || n in sel.destinations) && (Blank(n) || n !in table)
    case BadVerdict(s) => s == sel && !ValidVerdict(sel.verdict)
    case BadDirection(s, d) => s == sel && d in sel.directions && d != DIRECTION_INGRESS && d != DIRECTION_EGRESS
    case VerdictClash(k, v, v') => v != v' && k in m && m[k] == v && Selects(sel, table, k) && v' == sel.verdict
    case _ => false
  }

  lemma CollectedStep(m: Table, m': Table, sels: seq<Selector>, sel: Selector, table: map<string, IdentityID>)
    requires Collected(m, sels, table) && Expanded(m, sel, table, m')
    ensures Collected(m', sels + [sel], table)
  {
    forall k, v ensures Get(m', k) == Some(v) <==> Assigns(sels + [sel], table, k, v) {
      AssignsAppend(sels, sel, table, k, v);
      assert Get(m, k) == Some(v) <==> Assigns(sels, table, k, v);
      assert Get(m', k) == (if Selects(sel, table, k) then Some(sel.verdict) else Get(m, k));
    }
  }

  lemma AssignsAppend(sels: seq<Selector>, sel: Selector, table: map<string, IdentityID>, k: PolicyRuleKey,
                      v: PolicyVerdict)
    ensures Assigns(sels + [sel], table, k, v) <==>
            Assigns(sels, table, k, v) || (Selects(sel, table, k) && sel.verdict == v)
  {
    var all := sels + [sel];
    if Selects(sel, table, k) && sel.verdict == v {
      assert all[|sels|] == sel;
    }
    if i :| 0 <= i < |sels| && Selects(sels[i], table, k) && sels[i].verdict == v {
      assert all[i] == sels[i];
    }
  }

  /** A defect of one rule is a defect of the document it is part of. */
  lemma RuleDefectIsDefect(spec: PolicySpec, ids: seq<Identity>, m: Table, done: seq<Selector>, sel: Selector,
                           rest: seq<Selector>, e: CompileError)
    requires Flat(spec.policies) == done + [sel] + rest
    requires Collected(m, done, NameTable(ids)) && RuleDefect(m, sel, NameTable(ids), e)
    ensures Defect(spec, ids, e)
  {
    var sels := Flat(spec.policies);
    assert sels[|done|] == sel;
    match e
    case VerdictClash(k, v, v') =>
      assert Get(m, k) == Some(v);
      assert Assigns(done, NameTable(ids), k, v);
      var i :| 0 <= i < |done| && Selects(done[i], NameTable(ids), k) && done[i].verdict == v;
      assert sels[i] == done[i];
    case _ =>
  }

  /** The rules of one policy, on top of those collected from the policies before it. */
  method CompilePolicy(spec: PolicySpec, ids: seq<Identity>, p: nat, m: Table) returns (r: Result<Table, CompileError>)
    requires p < |spec.policies| && ConsistentIdentities(ids)
    requires Collected(m, Flat(spec.policies[..p]), NameTable(ids))
    requires forall sel :: sel in Flat(spec.policies[..p]) ==> SelectorOk(sel, NameTable(ids))
    ensures r.Ok? ==> Collected(r.value, Flat(spec.policies[..p + 1]), NameTable(ids))
    ensures r.Ok? ==> forall sel :: sel in Flat(spec.policies[..p + 1]) ==> SelectorOk(sel, NameTable(ids))
    ensures r.Err? ==> Defect(spec, ids, r.error)
  {
    var table := NameTable(ids);
    NameTableMembers(ids);
    hide Collected, SelectorOk, RuleDefect, Defect, Expanded;
    var rules := spec.policies[p].rules;
    ghost var before := Flat(spec.policies[..p]);
    assert spec.policies[..p + 1][..p] == spec.policies[..p];
    assert Flat(spec.policies[..p + 1]) == before + rules;
    ghost var after := FlatSplit(spec.policies, p);
    var m' := m;
    assert before + rules[..0] == before;
    for i := 0 to |rules|
      invariant Collected(m', before + rules[..i], table)
      invariant forall sel :: sel in before + rules[..i] ==> SelectorOk(sel, table)
    {
      assert before + rules[..i + 1] == (before + rules[..i]) + [rules[i]];
      var s := CompileRule(m', rules[i], table);
      if s.Err? {
        assert rules == rules[..i] + [rules[i]] + rules[i + 1..];
        assert Flat(spec.policies) == (before + rules[..i]) + [rules[i]] + (rules[i + 1..] + after);
        RuleDefectIsDefect(spec, ids, m', before + rules[..i], rules[i], rules[i + 1..] + after, s.error);
        return s;
      }
      CollectedStep(m', s.value, before + rules[..i], rules[i], table);
      m' := s.value;
    }
    assert before + rules[..|rules|] == before + rules;
    r := Ok(m');
  }

  lemma {:induction false} FlatSplit(policies: seq<Policy>, p: nat) returns (after: seq<Selector>)
    requires p < |policies|
    ensures Flat(policies) == Flat(policies[..p]) + policies[p].rules + after
    decreases |policies|
  {
    var n := |policies| - 1;
    if p == n {
      after := [];
    } else {
      var a := FlatSplit(policies[..n], p);
      assert policies[..n][..p] == policies[..p];
      after := a + policies[n].rules;
    }
  }

  /** Where a new key belongs in a sorted list. */
  method InsertKey(ks: seq<PolicyRuleKey>, k: PolicyRuleKey) returns (out: seq<PolicyRuleKey>)
    requires StrictlyIncreasing(ks) && k !in ks
    ensures StrictlyIncreasing(out)
    ensures forall x :: x in out <==> x in ks || x == k
  {
    var i := |ks|;
    while i > 0 && Compare(k, ks[i - 1]) < 0
      invariant 0 <= i <= |ks|
      invariant forall j :: i <= j < |ks| ==> Compare(k, ks[j]) < 0
    {
      i := i - 1;
    }
    out := ks[..i] + [k] + ks[i..];
    InsertedSorted(ks, i, k);
  }

  lemma InsertedSorted(ks: seq<PolicyRuleKey>, i: nat, k: PolicyRuleKey)
    requires StrictlyIncreasing(ks) && k !in ks && i <= |ks|
    requires i > 0 ==> Compare(k, ks[i - 1]) >= 0
    requires forall j :: i <= j < |ks| ==> Compare(k, ks[j]) < 0
    ensures var out := ks[..i] + [k] + ks[i..];
            StrictlyIncreasing(out) && forall x :: x in out <==> x in ks || x == k
  {
    hide Compare;
    if i > 0 {
      assert ks[i - 1] in ks;
      CompareOrders(k, ks[i - 1]);
      forall j | 0 <= j < i ensures Compare(ks[j], k) < 0 {
        if j < i - 1 { CompareTransitive(ks[j], ks[i - 1], k); }
      }
    }
    assert ks == ks[..i] + ks[i..];
  }

  lemma CompareOrders(a: PolicyRuleKey, b: PolicyRuleKey)
    ensures Compare(a, b) == -Compare(b, a)
    ensures Compare(a, b) == 0 <==> a == b
  {
  }

  lemma CompareTransitive(a: PolicyRuleKey, b: PolicyRuleKey, c: PolicyRuleKey)
    requires Compare(a, b) < 0 && Compare(b, c) < 0
    ensures Compare(a, c) < 0
  {
  }

  /** The keys of a rule map, read in any order and sorted. */
  method SortedKeys(m: Table) returns (ks: seq<PolicyRuleKey>)
    ensures StrictlyIncreasing(ks)
    ensures forall k :: k in ks <==> k in m
  {
    ks := [];
    var todo := m.Keys;
    while todo != {}
      invariant todo <= m.Keys
      invariant StrictlyIncreasing(ks)
      invariant forall k :: k in ks <==> k in m && k !in todo
      decreases |todo|
    {
      var k :| k in todo;
      ks := InsertKey(ks, k);
      todo := todo - {k};
    }
  }

  /** Compile: succeeds exactly on acceptable input, with the document's compiled form. */
  method Compile(spec: PolicySpec, ids: seq<Identity>) returns (r: Result<seq<PolicyRule>, CompileError>)
    ensures r.Ok? ==> Accepts(spec, ids) && IsCompiled(spec, ids, r.value)
    ensures r.Err? ==> Defect(spec, ids, r.error)
  {
    var index := IndexIdentities(ids);
    if index.Err? { return Err(index.error); }
    var table := index.value;
    var rulesByKey: Table := map[];
    for p := 0 to |spec.policies|
      invariant Collected(rulesByKey, Flat(spec.policies[..p]), table)
      invariant forall sel :: sel in Flat(spec.policies[..p]) ==> SelectorOk(sel, table)
    {
      var s := CompilePolicy(spec, ids, p, rulesByKey);
      if s.Err? { return Err(s.error); }
      rulesByKey := s.value;
    }
    assert spec.policies[..|spec.policies|] == spec.policies;
    var keys := SortedKeys(rulesByKey);
    var compiled: seq<PolicyRule> := [];
    for i := 0 to |keys|
      invariant Keys(compiled) == keys[..i]
      invariant forall j :: 0 <= j < i ==> compiled[j] == PolicyRule(keys[j], rulesByKey[keys[j]])
    {
      assert keys[i] in keys;
      compiled := compiled + [PolicyRule(keys[i], rulesByKey[keys[i]])];
    }
    CompiledFrom(spec, ids, rulesByKey, keys, compiled);
    r := Ok(compiled);
  }

  lemma CompiledFrom(spec: PolicySpec, ids: seq<Identity>, m: Table, keys: seq<PolicyRuleKey>, rules: seq<PolicyRule>)
    requires Collected(m, Flat(spec.policies), NameTable(ids))
    requires StrictlyIncreasing(keys) && forall k :: k in keys <==> k in m
    requires |rules| == |keys| && forall j :: 0 <= j < |keys| ==> rules[j] == PolicyRule(keys[j], Get(m, keys[j]).value)
    ensures IsCompiled(spec, ids, rules) && NoConflict(Flat(spec.policies), NameTable(ids))
  {
    assert Keys(rules) == keys;
    forall r ensures r in rules <==> Assigns(Flat(spec.policies), NameTable(ids), r.key, r.verdict) {
      assert Get(m, r.key) == Some(r.verdict) <==> Assigns(Flat(spec.policies), NameTable(ids), r.key, r.verdict);
      if r in rules {
        var j :| 0 <= j < |rules| && rules[j] == r;
        assert keys[j] in keys;
      }
      if Get(m, r.key) == Some(r.verdict) {
        var j :| 0 <= j < |keys| && keys[j] == r.key;
        assert rules[j] == r;
      }
    }
  }
}

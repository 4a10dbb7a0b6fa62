/** The compiler's contract, written out on the document and the identity list alone. */
module CompiledFields {
  import opened Wire
  import opened Verdicts
  import opened Compiler
  import opened CompilerProofs

  lemma {:induction false} FlatMembers(policies: seq<Policy>, sel: Selector)
    ensures sel in Flat(policies) <==> exists p :: p in policies && sel in p.rules
  {
    if policies != [] {
      var front, last := policies[..|policies| - 1], policies[|policies| - 1];
      assert policies == front + [last];
      FlatMembers(front, sel);
    }
  }

  lemma MeansBorne(names: seq<string>, ids: seq<Identity>, id: IdentityID)
    requires ConsistentIdentities(ids)
    ensures Means(names, NameTable(ids), id) <==> exists d :: d in ids && d.spiffeID in names && d.id == id
  {
    hide ConsistentIdentities, NameTable;
    forall n ensures Get(NameTable(ids), n) == Some(id) <==> Named(ids, n, id) { TableIsNamed(ids, n, id); }
    if n :| n in names && n in NameTable(ids) && NameTable(ids)[n] == id {
      assert Get(NameTable(ids), n) == Some(id);
    }
    if d :| d in ids && d.spiffeID in names && d.id == id {
      assert Named(ids, d.spiffeID, id);
    }
  }

  lemma SelectsBorne(sel: Selector, ids: seq<Identity>, k: PolicyRuleKey)
    requires ConsistentIdentities(ids)
    ensures Selects(sel, NameTable(ids), k) <==>
            && (exists d :: d in ids && d.spiffeID in sel.sources && d.id == k.src)
            && (exists d :: d in ids && d.spiffeID in sel.destinations && d.id == k.dst)
            && k.port in sel.ports && k.proto in sel.protocols && k.dir in sel.directions
  {
    hide ConsistentIdentities, NameTable, Means;
    MeansBorne(sel.sources, ids, k.src);
    MeansBorne(sel.destinations, ids, k.dst);
  }

  lemma AssignsBorne(spec: PolicySpec, ids: seq<Identity>, k: PolicyRuleKey, v: PolicyVerdict)
    requires ConsistentIdentities(ids)
    ensures Assigns(Flat(spec.policies), NameTable(ids), k, v) <==>
            exists p, sel :: p in spec.policies && sel in p.rules && sel.verdict == v &&
                             Selects(sel, NameTable(ids), k)
  {
    hide ConsistentIdentities, NameTable, Selects, Flat;
    var table, sels := NameTable(ids), Flat(spec.policies);
    if Assigns(sels, table, k, v) {
      var i :| 0 <= i < |sels| && Selects(sels[i], table, k) && sels[i].verdict == v;
      FlatMembers(spec.policies, sels[i]);
    }
    if p, sel :| p in spec.policies && sel in p.rules && sel.verdict == v && Selects(sel, table, k) {
      FlatMembers(spec.policies, sel);
      var i :| 0 <= i < |sels| && sels[i] == sel;
    }
  }

  /** A rule is compiled if and only if some rule of the document has a source name borne by an identity with
      the key's source ID and a destination name borne by one with its destination ID, and lists its port,
      protocol and direction, and gives that verdict. */
  lemma CompiledExactlyWhen(spec: PolicySpec, ids: seq<Identity>, rules: seq<PolicyRule>, r: PolicyRule)
    requires ConsistentIdentities(ids) && IsCompiled(spec, ids, rules)
    ensures r in rules <==>
            exists p, sel :: && p in spec.policies && sel in p.rules && sel.verdict == r.verdict
              && (exists d :: d in ids && d.spiffeID in sel.sources && d.id == r.key.src)
              && (exists d :: d in ids && d.spiffeID in sel.destinations && d.id == r.key.dst)
              && r.key.port in sel.ports && r.key.proto in sel.protocols && r.key.dir in sel.directions
  {
    hide ConsistentIdentities, NameTable, Selects, Assigns, Flat, StrictlyIncreasing;
    AssignsBorne(spec, ids, r.key, r.verdict);
    if r in rules {
      var p, sel :| && p in spec.policies && sel in p.rules && sel.verdict == r.verdict
                    && Selects(sel, NameTable(ids), r.key);
      SelectsBorne(sel, ids, r.key);
    }
    if p, sel :| && p in spec.policies && sel in p.rules && sel.verdict == r.verdict
                 && (exists d :: d in ids && d.spiffeID in sel.sources && d.id == r.key.src)
                 && (exists d :: d in ids && d.spiffeID in sel.destinations && d.id == r.key.dst)
                 && r.key.port in sel.ports && r.key.proto in sel.protocols && r.key.dir in sel.directions {
      SelectsBorne(sel, ids, r.key);
    }
  }

  /** The output is ordered by source, destination, port, protocol and direction, and no key repeats. */
  lemma CompiledOrder(spec: PolicySpec, ids: seq<Identity>, rules: seq<PolicyRule>, i: nat, j: nat)
    requires IsCompiled(spec, ids, rules) && i < j < |rules|
    ensures var a, b := rules[i].key, rules[j].key;
            || a.src < b.src
            || (a.src == b.src && a.dst < b.dst)
            || (a.src == b.src && a.dst == b.dst && a.port < b.port)
            || (a.src == b.src && a.dst == b.dst && a.port == b.port && a.proto < b.proto)
            || (a.src == b.src && a.dst == b.dst && a.port == b.port && a.proto == b.proto && a.dir < b.dir)
  {
    assert Compare(Keys(rules)[i], Keys(rules)[j]) < 0;
  }

  /** The identity list is one the compiler takes. */
  predicate GoodIdentities(ids: seq<Identity>) {
    && (forall d :: d in ids ==> d.id != 0 && d.spiffeID != "")
    && (forall d, e :: d in ids && e in ids && d.spiffeID == e.spiffeID ==> d.id == e.id)
  }

  /** Every name has a character that is not white space, and somebody bears it. */
  predicate GoodNames(names: seq<string>, ids: seq<Identity>) {
    && names != []
    && forall n :: n in names ==> (exists c :: c in n && !IsSpace(c)) && exists d :: d in ids && d.spiffeID == n
  }

  predicate GoodRule(sel: Selector, ids: seq<Identity>) {
    && GoodNames(sel.sources, ids) && GoodNames(sel.destinations, ids)
    && sel.ports != [] && sel.protocols != [] && sel.directions != []
    && (forall dir :: dir in sel.directions ==> dir == 0 || dir == 1)
    && sel.verdict.action <= 2
    && (sel.verdict.flags in {0x00, 0x04, 0x10, 0x14} || (sel.verdict.flags == 0x02 && sel.verdict.action == 0))
  }

  /** Some identity is named by both lists. */
  predicate SharedBearer(a: seq<string>, b: seq<string>, ids: seq<Identity>) {
    exists d, e :: d in ids && e in ids && d.spiffeID in a && e.spiffeID in b && d.id == e.id
  }

  predicate Overlap<T(==)>(a: seq<T>, b: seq<T>) {
    exists x :: x in a && x in b
  }

  /** Two rules speak of a common flow and disagree on it. */
  predicate Clash(a: Selector, b: Selector, ids: seq<Identity>) {
    && SharedBearer(a.sources, b.sources, ids) && SharedBearer(a.destinations, b.destinations, ids)
    && Overlap(a.ports, b.ports) && Overlap(a.protocols, b.protocols) && Overlap(a.directions, b.directions)
    && a.verdict != b.verdict
  }

  lemma GoodIdentitiesExactlyWhen(ids: seq<Identity>)
    ensures ConsistentIdentities(ids) <==> GoodIdentities(ids)
  {
    if ConsistentIdentities(ids) {
      forall d, e | d in ids && e in ids && d.spiffeID == e.spiffeID ensures d.id == e.id {
        var i :| 0 <= i < |ids| && ids[i] == d;
        var j :| 0 <= j < |ids| && ids[j] == e;
      }
    }
    if GoodIdentities(ids) {
      assert forall i :: 0 <= i < |ids| ==> ids[i] in ids;
    }
  }

  lemma GoodNamesExactlyWhen(names: seq<string>, ids: seq<Identity>)
    ensures NamesOk(names, NameTable(ids)) <==> GoodNames(names, ids)
  {
    NameTableMembers(ids);
    hide NameTable, IsSpace;
    forall n | n in names
      ensures (!Blank(n) && n in NameTable(ids)) <==>
              (exists c :: c in n && !IsSpace(c)) && exists d :: d in ids && d.spiffeID == n
    {
      if !Blank(n) {
        var i :| 0 <= i < |n| && !IsSpace(n[i]);
        assert n[i] in n;
      }
      if n in NameTable(ids) {
        var i :| 0 <= i < |ids| && ids[i].spiffeID == n;
        assert ids[i] in ids;
      }
    }
  }

  lemma GoodRuleExactlyWhen(sel: Selector, ids: seq<Identity>)
    ensures SelectorOk(sel, NameTable(ids)) <==> GoodRule(sel, ids)
  {
    GoodNamesExactlyWhen(sel.sources, ids);
    GoodNamesExactlyWhen(sel.destinations, ids);
    AcceptedVerdicts(sel.verdict);
    hide NamesOk, GoodNames, NameTable, ValidVerdict;
  }

  lemma SharedExactlyWhen(a: seq<string>, b: seq<string>, ids: seq<Identity>)
    requires ConsistentIdentities(ids)
    ensures SharedBearer(a, b, ids) <==>
            exists id: IdentityID :: Means(a, NameTable(ids), id) && Means(b, NameTable(ids), id)
  {
    hide ConsistentIdentities, NameTable, Means;
    if d, e :| d in ids && e in ids && d.spiffeID in a && e.spiffeID in b && d.id == e.id {
      MeansBorne(a, ids, d.id);
      MeansBorne(b, ids, d.id);
    }
    if id: IdentityID :| Means(a, NameTable(ids), id) && Means(b, NameTable(ids), id) {
      MeansBorne(a, ids, id);
      MeansBorne(b, ids, id);
    }
  }

  /** Two selectors with different verdicts clash exactly when some key lies in both. */
  lemma ClashExactlyWhen(a: Selector, b: Selector, ids: seq<Identity>)
    requires ConsistentIdentities(ids)
    ensures Clash(a, b, ids) <==>
            a.verdict != b.verdict && exists k :: Selects(a, NameTable(ids), k) && Selects(b, NameTable(ids), k)
  {
    SharedExactlyWhen(a.sources, b.sources, ids);
    SharedExactlyWhen(a.destinations, b.destinations, ids);
    hide ConsistentIdentities, NameTable, Means, SharedBearer;
    var table := NameTable(ids);
    if Clash(a, b, ids) {
      var src: IdentityID :| Means(a.sources, table, src) && Means(b.sources, table, src);
      var dst: IdentityID :| Means(a.destinations, table, dst) && Means(b.destinations, table, dst);
      var port :| port in a.ports && port in b.ports;
      var proto :| proto in a.protocols && proto in b.protocols;
      var dir :| dir in a.directions && dir in b.directions;
      var k := PolicyRuleKey(src, dst, port, proto, dir);
      assert Selects(a, table, k) && Selects(b, table, k);
    }
  }

  lemma ClashAssigns(sels: seq<Selector>, a: Selector, b: Selector, ids: seq<Identity>) returns (k: PolicyRuleKey)
    requires ConsistentIdentities(ids) && a in sels && b in sels && Clash(a, b, ids)
    ensures Assigns(sels, NameTable(ids), k, a.verdict) && Assigns(sels, NameTable(ids), k, b.verdict)
    ensures a.verdict != b.verdict
  {
    ClashExactlyWhen(a, b, ids);
    hide ConsistentIdentities, NameTable, Selects, Clash;
    k :| Selects(a, NameTable(ids), k) && Selects(b, NameTable(ids), k);
    var i :| 0 <= i < |sels| && sels[i] == a;
    var j :| 0 <= j < |sels| && sels[j] == b;
  }

  lemma NoConflictExactlyWhen(sels: seq<Selector>, ids: seq<Identity>)
    requires ConsistentIdentities(ids)
    ensures NoConflict(sels, NameTable(ids)) <==> forall a, b :: a in sels && b in sels ==> !Clash(a, b, ids)
  {
    hide ConsistentIdentities, NameTable, Selects, Clash;
    var table := NameTable(ids);
    if NoConflict(sels, table) {
      forall a, b | a in sels && b in sels ensures !Clash(a, b, ids) {
        if Clash(a, b, ids) { var k := ClashAssigns(sels, a, b, ids); }
      }
    } else {
      var k, v, v' :| Assigns(sels, table, k, v) && Assigns(sels, table, k, v') && v != v';
      var i :| 0 <= i < |sels| && Selects(sels[i], table, k) && sels[i].verdict == v;
      var j :| 0 <= j < |sels| && Selects(sels[j], table, k) && sels[j].verdict == v';
      ClashExactlyWhen(sels[i], sels[j], ids);
      assert sels[i] in sels && sels[j] in sels;
    }
  }

  lemma RulesGoodExactlyWhen(policies: seq<Policy>, ids: seq<Identity>)
    ensures (forall sel :: sel in Flat(policies) ==> SelectorOk(sel, NameTable(ids))) <==>
            (forall p, sel :: p in policies && sel in p.rules ==> GoodRule(sel, ids))
  {
    hide NameTable, GoodRule, SelectorOk, Flat;
    if p, sel :| p in policies && sel in p.rules && !GoodRule(sel, ids) {
      FlatMembers(policies, sel);
      GoodRuleExactlyWhen(sel, ids);
    } else if sel :| sel in Flat(policies) && !SelectorOk(sel, NameTable(ids)) {
      FlatMembers(policies, sel);
      GoodRuleExactlyWhen(sel, ids);
    }
  }

  lemma NoClashExactlyWhen(policies: seq<Policy>, ids: seq<Identity>)
    ensures (forall a, b :: a in Flat(policies) && b in Flat(policies) ==> !Clash(a, b, ids)) <==>
            (forall p, q, a, b :: p in policies && q in policies && a in p.rules && b in q.rules ==>
               !Clash(a, b, ids))
  {
    hide Clash, Flat;
    if p, q, a, b :| p in policies && q in policies && a in p.rules && b in q.rules && Clash(a, b, ids) {
      FlatMembers(policies, a);
      FlatMembers(policies, b);
    } else if a, b :| a in Flat(policies) && b in Flat(policies) && Clash(a, b, ids) {
      FlatMembers(policies, a);
      FlatMembers(policies, b);
    }
  }

  /** The compiler accepts exactly these: identities with a name and an ID and one ID per name; rules with no
      empty list, no unresolved or blank name, directions 0 and 1 and an admissible verdict; and no two rules
      that overlap in all five lists and disagree. */
  lemma AcceptedExactlyWhen(spec: PolicySpec, ids: seq<Identity>)
    ensures Accepts(spec, ids) <==>
            && GoodIdentities(ids)
            && (forall p, sel :: p in spec.policies && sel in p.rules ==> GoodRule(sel, ids))
            && (forall p, q, a, b :: p in spec.policies && q in spec.policies && a in p.rules && b in q.rules ==>
                  !Clash(a, b, ids))
  {
    GoodIdentitiesExactlyWhen(ids);
    if ConsistentIdentities(ids) {
      hide ConsistentIdentities, NameTable, GoodRule, SelectorOk, Clash, NoConflict, GoodIdentities, Flat;
      NoConflictExactlyWhen(Flat(spec.policies), ids);
      RulesGoodExactlyWhen(spec.policies, ids);
      NoClashExactlyWhen(spec.policies, ids);
    }
  }
}

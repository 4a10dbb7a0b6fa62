/** What the compiler promises: it rejects exactly the unacceptable documents, its output means what
    the document means, and it does not depend on how the document is written down. */
module CompilerProofs {
  import Diff
  import opened Wire
  import opened Compiler
  import opened Evaluator

  /** A reported defect always makes the input unacceptable, so with Compile's contract it succeeds
      if and only if the input is acceptable. */
  lemma DefectRefutes(spec: PolicySpec, ids: seq<Identity>, e: CompileError)
    requires Defect(spec, ids, e)
    ensures !Accepts(spec, ids)
  {
  }

  /** The oracle's lookup and the compiler's index agree on every name. */
  lemma {:induction false} BearerIsTable(ids: seq<Identity>, n: string)
    ensures Bearer(ids, n) == Get(NameTable(ids), n)
  {
    if ids != [] { BearerIsTable(ids[..|ids| - 1], n); }
  }

  /** A rule lists a flow, name by name, exactly when the compiler's selector covers it. */
  lemma ListedExactlyWhen(r: Selector, ids: seq<Identity>, flow: Input)
    ensures (exists n :: n in r.sources && Bearer(ids, n) == Some(flow.src)) <==>
            Means(r.sources, NameTable(ids), flow.src)
    ensures (exists n :: n in r.destinations && Bearer(ids, n) == Some(flow.dst)) <==>
            Means(r.destinations, NameTable(ids), flow.dst)
    ensures (exists n :: n in r.sources + r.destinations && Bearer(ids, n) == None) <==>
            exists n :: n in r.sources + r.destinations && n !in NameTable(ids)
  {
    forall n ensures Bearer(ids, n) == Get(NameTable(ids), n) { BearerIsTable(ids, n); }
    hide Bearer, NameTable;
  }

  lemma {:induction false} FirstMatchAssigns(sels: seq<Selector>, ids: seq<Identity>, flow: Input)
    requires forall sel :: sel in sels ==> SelectorOk(sel, NameTable(ids))
    ensures match InRules(sels, ids, flow)
            case Unresolved => false
            case Match(v) => Assigns(sels, NameTable(ids), flow, v)
            case NoMatch => !exists v :: Assigns(sels, NameTable(ids), flow, v)
  {
    if sels != [] {
      var table, rest := NameTable(ids), sels[1..];
      ListedExactlyWhen(sels[0], ids, flow);
      assert SelectorOk(sels[0], table);
      assert forall n :: n in sels[0].sources + sels[0].destinations ==>
          n in sels[0].sources || n in sels[0].destinations;
      hide Means, SelectorOk, Bearer, NameTable;
      assert sels[0] in sels && forall sel :: sel in rest ==> sel in sels;
      FirstMatchAssigns(rest, ids, flow);
      forall v ensures Assigns(sels, table, flow, v) <==>
                       (Selects(sels[0], table, flow) && sels[0].verdict == v) || Assigns(rest, table, flow, v)
      {
        AssignsSplit(sels, table, flow, v);
      }
    }
  }

  lemma AssignsSplit(sels: seq<Selector>, table: map<string, IdentityID>, k: PolicyRuleKey, v: PolicyVerdict)
    requires sels != []
    ensures Assigns(sels, table, k, v) <==>
            (Selects(sels[0], table, k) && sels[0].verdict == v) || Assigns(sels[1..], table, k, v)
  {
    hide Selects;
    var rest := sels[1..];
    if i :| 0 <= i < |sels| && Selects(sels[i], table, k) && sels[i].verdict == v {
      if i > 0 { assert rest[i - 1] == sels[i]; }
    }
    if i :| 0 <= i < |rest| && Selects(rest[i], table, k) && rest[i].verdict == v {
      assert sels[i + 1] == rest[i];
    }
  }

  lemma {:induction false} InRulesAppend(a: seq<Selector>, b: seq<Selector>, ids: seq<Identity>, flow: Input)
    ensures InRules(a + b, ids, flow) ==
            if InRules(a, ids, flow).NoMatch? then InRules(b, ids, flow) else InRules(a, ids, flow)
  {
    hide Bearer;
    if a == [] {
      assert a + b == b;
    } else {
      assert (a + b)[1..] == a[1..] + b;
      InRulesAppend(a[1..], b, ids, flow);
    }
  }

  /** Searching policy by policy is searching all rules in order. */
  lemma {:induction false} InPoliciesFlat(policies: seq<Policy>, ids: seq<Identity>, flow: Input)
    ensures InPolicies(policies, ids, flow) == InRules(Flat(policies), ids, flow)
  {
    if policies != [] {
      FlatSplit(policies);
      InPoliciesFlat(policies[1..], ids, flow);
      InRulesAppend(policies[0].rules, Flat(policies[1..]), ids, flow);
    }
  }

  lemma {:induction false} FlatSplit(policies: seq<Policy>)
    requires policies != []
    ensures Flat(policies) == policies[0].rules + Flat(policies[1..])
  {
    if |policies| > 1 {
      FlatSplit(policies[..|policies| - 1]);
      assert policies[..|policies| - 1][1..] == policies[1..][..|policies| - 2];
    } else {
      assert policies[..0] == [];
    }
  }

  lemma KeysDistinct(rules: seq<PolicyRule>)
    requires StrictlyIncreasing(Keys(rules))
    ensures Diff.UniquePolicies(rules)
  {
    forall i, j | 0 <= i < j < |rules| ensures rules[i].key != rules[j].key {
      assert Compare(Keys(rules)[i], Keys(rules)[j]) < 0;
    }
  }

  /** Compiled rules always build an evaluator. */
  lemma CompiledRulesValid(spec: PolicySpec, ids: seq<Identity>, rules: seq<PolicyRule>)
    requires Accepts(spec, ids) && IsCompiled(spec, ids, rules)
    ensures Diff.UniquePolicies(rules) && forall r :: r in rules ==> ValidRule(r)
  {
    KeysDistinct(rules);
    NameTableMembers(ids);
    var table, sels := NameTable(ids), Flat(spec.policies);
    forall r | r in rules ensures ValidRule(r) {
      assert Assigns(sels, table, r.key, r.verdict);
      var i :| 0 <= i < |sels| && Selects(sels[i], table, r.key) && sels[i].verdict == r.verdict;
      assert sels[i] in sels;
    }
  }

  /** Meaning is preserved: on every flow and in both postures, the evaluator built from the compiled
      rules answers as the document does. */
  lemma MeaningPreserved(spec: PolicySpec, ids: seq<Identity>, rules: seq<PolicyRule>, e: MapEvaluator, flow: Input)
    requires Accepts(spec, ids) && IsCompiled(spec, ids, rules)
    requires Holds(e.rules, rules)
    ensures NaiveEvaluate(spec, ids, e.unknownMode, flow) == Some(Evaluate(e, flow))
  {
    var table, sels := NameTable(ids), Flat(spec.policies);
    InPoliciesFlat(spec.policies, ids, flow);
    FirstMatchAssigns(sels, ids, flow);
    hide InRules, InPolicies, Assigns, NameTable, Flat;
    forall v ensures Get(e.rules, flow) == Some(v) <==> Assigns(sels, table, flow, v) {
      assert PolicyRule(flow, v) in rules <==>
          Assigns(sels, table, PolicyRule(flow, v).key, PolicyRule(flow, v).verdict);
    }
  }

  /** The compiled form of a document is unique. */
  lemma {:induction false} Canonical(a: seq<PolicyRule>, b: seq<PolicyRule>)
    requires StrictlyIncreasing(Keys(a)) && StrictlyIncreasing(Keys(b))
    requires forall r :: r in a <==> r in b
    ensures a == b
  {
    assert a != [] ==> a[0] in b;
    assert b != [] ==> b[0] in a;
    if a != [] && b != [] {
      var m, n := |a| - 1, |b| - 1;
      SameLast(a, b);
      assert Keys(a[..m]) == Keys(a)[..m] && Keys(b[..n]) == Keys(b)[..n];
      assert a == a[..m] + [a[m]] && b == b[..n] + [b[n]];
      KeysDistinct(a);
      KeysDistinct(b);
      forall r ensures r in a[..m] <==> r in b[..n] {
        assert r in a[..m] <==> r in a && r != a[m];
        assert r in b[..n] <==> r in b && r != b[n];
      }
      Canonical(a[..m], b[..n]);
    }
  }

  lemma SameLast(a: seq<PolicyRule>, b: seq<PolicyRule>)
    requires a != [] && b != []
    requires StrictlyIncreasing(Keys(a)) && StrictlyIncreasing(Keys(b))
    requires forall r :: r in a <==> r in b
    ensures a[|a| - 1] == b[|b| - 1]
  {
    var m, n := |a| - 1, |b| - 1;
    assert a[m] in b && b[n] in a;
    var i :| 0 <= i <= n && b[i] == a[m];
    var j :| 0 <= j <= m && a[j] == b[n];
    if i < n && j < m {
      assert Compare(Keys(b)[i], Keys(b)[n]) < 0 && Compare(Keys(a)[j], Keys(a)[m]) < 0;
      CompareOrders(a[m].key, b[n].key);
      assert false;
    }
  }

  /** Two lists with the same entries, up to order and repetition. */
  predicate SameEntries<T(==)>(a: seq<T>, b: seq<T>) {
    (forall x :: x in a ==> x in b) && (forall x :: x in b ==> x in a)
  }

  predicate SameSelector(a: Selector, b: Selector) {
    && SameEntries(a.sources, b.sources) && SameEntries(a.destinations, b.destinations)
    && SameEntries(a.ports, b.ports) && SameEntries(a.protocols, b.protocols) && SameEntries(a.directions, b.directions)
    && a.verdict == b.verdict
  }

  predicate ContainedIn(a: seq<Selector>, b: seq<Selector>) {
    forall s :: s in a ==> exists t :: t in b && SameSelector(s, t)
  }

  /** The same rules in any order, grouping and repetition, each with its entries in any order and
      repetition; names of policies and rules do not matter. */
  predicate SameDocument(a: PolicySpec, b: PolicySpec) {
    ContainedIn(Flat(a.policies), Flat(b.policies)) && ContainedIn(Flat(b.policies), Flat(a.policies))
  }

  predicate Named(ids: seq<Identity>, n: string, id: IdentityID) {
    exists d :: d in ids && d.spiffeID == n && d.id == id
  }

  /** The same name-to-ID pairs, up to order and repetition. */
  ghost predicate SameNames(a: seq<Identity>, b: seq<Identity>) {
    forall n, id :: Named(a, n, id) <==> Named(b, n, id)
  }

  lemma TableIsNamed(ids: seq<Identity>, n: string, id: IdentityID)
    requires ConsistentIdentities(ids)
    ensures Get(NameTable(ids), n) == Some(id) <==> Named(ids, n, id)
  {
    NameTableMembers(ids);
    if n in NameTable(ids) {
      var i :| 0 <= i < |ids| && ids[i].spiffeID == n && ids[i].id == NameTable(ids)[n];
      assert ids[i] in ids;
      if d :| d in ids && d.spiffeID == n && d.id == id {
        var j :| 0 <= j < |ids| && ids[j] == d;
        assert ids[i].id == ids[j].id;
      }
    }
  }

  lemma ConsistentFromNames(a: seq<Identity>, b: seq<Identity>)
    requires ConsistentIdentities(a) && SameNames(a, b)
    ensures ConsistentIdentities(b)
  {
    forall i | 0 <= i < |b|
      ensures Named(a, b[i].spiffeID, b[i].id) && b[i].id != IDENTITY_UNKNOWN && b[i].spiffeID != ""
    {
      assert b[i] in b;
      assert Named(b, b[i].spiffeID, b[i].id);
    }
    forall i, j | 0 <= i < j < |b| && b[i].spiffeID == b[j].spiffeID ensures b[i].id == b[j].id {
      assert Named(a, b[i].spiffeID, b[i].id) && Named(a, b[j].spiffeID, b[j].id);
      TableIsNamed(a, b[i].spiffeID, b[i].id);
      TableIsNamed(a, b[j].spiffeID, b[j].id);
    }
  }

  lemma SameNameTable(a: seq<Identity>, b: seq<Identity>)
    requires ConsistentIdentities(a) && SameNames(a, b)
    ensures ConsistentIdentities(b) && NameTable(b) == NameTable(a)
  {
    ConsistentFromNames(a, b);
    hide ConsistentIdentities, NameTable, Named;
    forall n ensures Get(NameTable(a), n) == Get(NameTable(b), n) {
      forall id: IdentityID ensures Get(NameTable(a), n) == Some(id) <==> Get(NameTable(b), n) == Some(id) {
        TableIsNamed(a, n, id);
        TableIsNamed(b, n, id);
      }
      if n in NameTable(a) { assert Get(NameTable(a), n) == Some(NameTable(a)[n]); }
      if n in NameTable(b) { assert Get(NameTable(b), n) == Some(NameTable(b)[n]); }
    }
    SameLookups(NameTable(a), NameTable(b));
  }

  lemma SameSelects(a: Selector, b: Selector, table: map<string, IdentityID>)
    requires SameSelector(a, b)
    ensures forall k :: Selects(a, table, k) <==> Selects(b, table, k)
    ensures SelectorOk(a, table) ==> SelectorOk(b, table)
  {
    if SelectorOk(a, table) {
      assert a.sources[0] in b.sources && a.destinations[0] in b.destinations;
      assert a.ports[0] in b.ports && a.protocols[0] in b.protocols && a.directions[0] in b.directions;
    }
  }

  lemma AssignsContained(a: seq<Selector>, b: seq<Selector>, table: map<string, IdentityID>, k: PolicyRuleKey,
                         v: PolicyVerdict)
    requires ContainedIn(a, b) && Assigns(a, table, k, v)
    ensures Assigns(b, table, k, v)
  {
    var i :| 0 <= i < |a| && Selects(a[i], table, k) && a[i].verdict == v;
    assert a[i] in a;
    var t :| t in b && SameSelector(a[i], t);
    SameSelects(a[i], t, table);
    var j :| 0 <= j < |b| && b[j] == t;
  }

  /** Writing an accepted document or identity list down differently changes neither acceptance nor a
      single byte of the output. */
  lemma RewritingChangesNothing(
    spec: PolicySpec, ids: seq<Identity>, spec': PolicySpec, ids': seq<Identity>,
    rules: seq<PolicyRule>, rules': seq<PolicyRule>)
    requires Accepts(spec, ids) && SameDocument(spec, spec') && SameNames(ids, ids')
    requires IsCompiled(spec, ids, rules) && IsCompiled(spec', ids', rules')
    ensures Accepts(spec', ids') && rules == rules'
  {
    SameNameTable(ids, ids');
    var table, a, b := NameTable(ids), Flat(spec.policies), Flat(spec'.policies);
    AssignedAlike(a, b, table);
    assert forall r :: r in rules <==> r in rules' by {
      forall r ensures r in rules <==> r in rules' {
        assert r in rules <==> Assigns(a, table, r.key, r.verdict);
        assert r in rules' <==> Assigns(b, table, r.key, r.verdict);
      }
    }
    Canonical(rules, rules');
    SelectorsAlike(a, b, table);
  }

  lemma AssignedAlike(a: seq<Selector>, b: seq<Selector>, table: map<string, IdentityID>)
    requires ContainedIn(a, b) && ContainedIn(b, a)
    ensures forall k, v :: Assigns(a, table, k, v) <==> Assigns(b, table, k, v)
  {
    forall k, v ensures Assigns(a, table, k, v) <==> Assigns(b, table, k, v) {
      if Assigns(a, table, k, v) { AssignsContained(a, b, table, k, v); }
      if Assigns(b, table, k, v) { AssignsContained(b, a, table, k, v); }
    }
  }

  lemma SelectorsAlike(a: seq<Selector>, b: seq<Selector>, table: map<string, IdentityID>)
    requires ContainedIn(b, a) && forall s :: s in a ==> SelectorOk(s, table)
    ensures forall t :: t in b ==> SelectorOk(t, table)
  {
    forall t | t in b ensures SelectorOk(t, table) {
      var s :| s in a && SameSelector(t, s);
      assert SameSelector(s, t);
      SameSelects(s, t, table);
    }
  }
}

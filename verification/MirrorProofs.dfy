/** What the mirror keeps over every run of informer events, whatever the resolver answers each time. */
module MirrorProofs {
  import opened Wire
  import opened Mirror

  lemma Covered(protocols: seq<string>, proto: U8)
    requires forall p :: p in protocols ==> p == "tcp" || p == "udp"
    ensures Covers(protocols, proto) <==>
            || (proto == 6 && (protocols == [] || "tcp" in protocols))
            || (proto == 17 && "udp" in protocols)
  {
    if protocols != [] && Covers(protocols, proto) {
      var i :| 0 <= i < |protocols| && ProtocolNumber(protocols[i]) == proto;
      assert protocols[i] in protocols;
    }
    if "tcp" in protocols {
      var i :| 0 <= i < |protocols| && protocols[i] == "tcp";
      assert ProtocolNumber(protocols[i]) == 6;
    }
    if "udp" in protocols {
      var i :| 0 <= i < |protocols| && protocols[i] == "udp";
      assert ProtocolNumber(protocols[i]) == 17;
    }
  }

  /** Which rules an object has, field by field: action 0 for "allow" and 1 for "deny", no flags, ingress, one
      for every source, selected destination, port and protocol, TCP being 6, UDP 17 and the default TCP. */
  lemma ExpandedExactlyWhen(spec: Spec, resolver: Resolver, rules: seq<PolicyRule>, r: PolicyRule)
    requires IsExpansion(spec, resolver, Some(rules))
    ensures resolver.selected.Some?
    ensures r in rules <==>
            && r.verdict == PolicyVerdict(if spec.action == "allow" then 0 else 1, 0)
            && (exists s :: s in spec.sources && resolver.identity(s) == Some(r.key.src))
            && r.key.dst in resolver.selected.value && r.key.port in spec.ports && r.key.dir == 0
            && (|| (r.key.proto == 6 && (spec.protocols == [] || "tcp" in spec.protocols))
                || (r.key.proto == 17 && "udp" in spec.protocols))
  {
    Covered(spec.protocols, r.key.proto);
    hide Covers, ProductSize;
  }

  /** Which objects have rules at all. */
  lemma ExpandsExactlyWhen(spec: Spec, resolver: Resolver, rules: Option<seq<PolicyRule>>)
    requires IsExpansion(spec, resolver, rules)
    ensures rules.Some? <==>
            && (spec.action == "allow" || spec.action == "deny") && spec.namespace != ""
            && 1 <= |spec.sources| <= 64
            && (forall s :: s in spec.sources ==> |s| > 9 && s[..9] == "spiffe://" && resolver.identity(s).Some?)
            && 1 <= |spec.ports| <= 64 && 0 !in spec.ports
            && (forall p :: p in spec.protocols ==> p == "tcp" || p == "udp")
            && resolver.selected.Some?
            && var protocols := if spec.protocols == [] then 1 else |spec.protocols|;
               |spec.sources| * |resolver.selected.value| * |spec.ports| * protocols <= 65536
    ensures rules.Some? ==>
              var protocols := if spec.protocols == [] then 1 else |spec.protocols|;
              |rules.value| == |spec.sources| * |resolver.selected.value| * |spec.ports| * protocols
  {
    hide InProduct;
    forall s | s in spec.sources ensures SCHEME < s <==> |s| > 9 && s[..9] == "spiffe://" { Prefixed(s); }
  }

  lemma Prefixed(s: string)
    ensures SCHEME < s <==> |s| > 9 && s[..9] == "spiffe://"
  {
    if SCHEME < s { assert s[..9] == SCHEME; }
    if |s| > 9 && s[..9] == "spiffe://" { assert forall i :: 0 <= i < 9 ==> s[i] == s[..9][i]; }
  }

  lemma {:induction false} PutAllAt(store: map<PolicyRuleKey, PolicyVerdict>, rules: seq<PolicyRule>, refused: set<nat>,
                                    k: PolicyRuleKey)
    ensures Get(PutAll(store, rules, refused), k) ==
            if LandedIn(rules, refused, k).Some? then LandedIn(rules, refused, k) else Get(store, k)
    ensures k in Landed(rules, refused) <==> LandedIn(rules, refused, k).Some?
  {
    if rules != [] {
      PutAllAt(store, rules[..|rules| - 1], refused, k);
    }
  }

  lemma {:induction false} LandedProduced(rules: seq<PolicyRule>, refused: set<nat>, k: PolicyRuleKey)
    ensures LandedIn(rules, refused, k).Some? ==> k in Produced(rules)
    ensures VerdictIn(rules, k).Some? <==> k in Produced(rules)
    ensures refused == {} ==> LandedIn(rules, refused, k) == VerdictIn(rules, k)
  {
    if rules != [] {
      var n := |rules| - 1;
      LandedProduced(rules[..n], refused, k);
      assert rules[..n + 1] == rules;
      ProducedStep(rules, n);
    }
  }

  lemma RemovedWhenAccepted(keys: seq<PolicyRuleKey>, kept: set<PolicyRuleKey>, first: nat, k: PolicyRuleKey)
    ensures k in Removed(keys, kept, first, {}) <==> k in keys && k !in kept
  {
    if k in keys && k !in kept {
      var j :| 0 <= j < |keys| && keys[j] == k;
    }
  }

  /** The keys an upsert deletes. */
  function Stale(s: State, e: Event): set<PolicyRuleKey>
    requires e.rules.Some?
  {
    Removed(Recorded(s, e.name), Produced(e.rules.value), |e.rules.value|, e.refused)
  }

  function Deleted(s: State, e: Event): set<PolicyRuleKey> {
    Removed(DeleteList(s, e.name, e.rules), {}, 0, e.refused)
  }

  /** The store's value for one key after one event. */
  lemma AfterAt(s: State, e: Event, k: PolicyRuleKey)
    ensures e.Upsert? && e.rules.Some? ==>
              var landed := LandedIn(e.rules.value, e.refused, k);
              && (landed.Some? ==> k !in Stale(s, e))
              && Get(After(s, e).store, k) ==
                 (if landed.Some? then landed else if k in Stale(s, e) then None else Get(s.store, k))
              && (k in Recorded(After(s, e), e.name) <==> landed.Some?)
    ensures e.Delete? ==> Get(After(s, e).store, k) == if k in Deleted(s, e) then None else Get(s.store, k)
  {
    if e.rules.Some? {
      PutAllAt(s.store, e.rules.value, e.refused, k);
      LandedProduced(e.rules.value, e.refused, k);
    }
  }

  /** The same terms when the store refuses nothing. */
  lemma AcceptedAt(s: State, e: Event, k: PolicyRuleKey)
    requires e.refused == {}
    ensures e.Upsert? && e.rules.Some? ==>
              && LandedIn(e.rules.value, e.refused, k) == VerdictIn(e.rules.value, k)
              && (k in Stale(s, e) <==> k in Recorded(s, e.name) && VerdictIn(e.rules.value, k).None?)
    ensures e.Delete? ==> (k in Deleted(s, e) <==> k in DeleteList(s, e.name, e.rules))
    ensures e.Delete? && e.name !in s.applied ==>
              (k in DeleteList(s, e.name, e.rules) <==> e.rules.Some? && VerdictIn(e.rules.value, k).Some?)
  {
    if e.rules.Some? {
      LandedProduced(e.rules.value, {}, k);
      PutAllAt(s.store, e.rules.value, {}, k);
      RemovedWhenAccepted(Recorded(s, e.name), Produced(e.rules.value), |e.rules.value|, k);
    }
    RemovedWhenAccepted(DeleteList(s, e.name, e.rules), {}, 0, k);
  }

  /** Some write or delete of the key was accepted. */
  ghost predicate Served(s: State, e: Event, k: PolicyRuleKey) {
    match e
    case Upsert(_, None, _) => false
    case Upsert(_, Some(rules), refused) => LandedIn(rules, refused, k).Some? || k in Stale(s, e)
    case Delete(_, _, _) => k in Deleted(s, e)
  }

  ghost predicate RecordedBy(s: State, name: string, k: PolicyRuleKey) {
    name in s.applied && k in s.applied[name]
  }

  ghost predicate RecordedByOther(s: State, name: string, k: PolicyRuleKey) {
    exists n :: n != name && RecordedBy(s, n, k)
  }

  /** Nothing is in the store that no record would clean up. */
  ghost predicate Contained(s: State) {
    forall k :: k in s.store ==> exists n :: RecordedBy(s, n, k)
  }

  /** The store holds exactly what the records say. */
  ghost predicate Exact(s: State) {
    forall k :: k in s.store <==> exists n :: RecordedBy(s, n, k)
  }

  lemma OthersKept(s: State, e: Event, n: string, k: PolicyRuleKey)
    requires n != e.name
    ensures RecordedBy(After(s, e), n, k) <==> RecordedBy(s, n, k)
  {
  }

  lemma OthersKeptAll(s: State, e: Event, k: PolicyRuleKey)
    ensures RecordedByOther(After(s, e), e.name, k) <==> RecordedByOther(s, e.name, k)
  {
    forall n | n != e.name ensures RecordedBy(After(s, e), n, k) <==> RecordedBy(s, n, k) {
      OthersKept(s, e, n, k);
    }
  }

  lemma SplitRecorded(s: State, name: string, k: PolicyRuleKey)
    ensures (exists n :: RecordedBy(s, n, k)) <==> RecordedBy(s, name, k) || RecordedByOther(s, name, k)
  {
  }

  /** For one key: it is accounted for after the event unless the store refused every operation on it while
      the object handled was the only one to record it. */
  lemma AccountedAt(s: State, e: Event, k: PolicyRuleKey)
    requires k in s.store ==> exists n :: RecordedBy(s, n, k)
    requires !(e.Upsert? && e.rules.None?)
    ensures (k in After(s, e).store ==> exists n :: RecordedBy(After(s, e), n, k)) <==>
            (k in s.store && !RecordedByOther(s, e.name, k) ==> Served(s, e, k))
  {
    hide After;
    var t := After(s, e);
    AfterAt(s, e, k);
    OthersKeptAll(s, e, k);
    SplitRecorded(s, e.name, k);
    SplitRecorded(t, e.name, k);
    hide RecordedByOther;
    assert RecordedBy(t, e.name, k) <==> k in Recorded(t, e.name);
    if e.Delete? { DeleteForgets(s, e); }
  }

  lemma DeleteForgets(s: State, e: Event)
    requires e.Delete?
    ensures e.name !in After(s, e).applied
  {
  }

  /** No leak, exactly: after an event that changes anything, every stored key is still on record if and
      only if the store accepted some operation on each key that this object alone had on record. */
  lemma ContainedExactlyWhen(s: State, e: Event)
    requires Contained(s) && !(e.Upsert? && e.rules.None?)
    ensures Contained(After(s, e)) <==>
            forall k :: k in s.store && !RecordedByOther(s, e.name, k) ==> Served(s, e, k)
  {
    forall k
      ensures (k in After(s, e).store ==> exists n :: RecordedBy(After(s, e), n, k)) <==>
              (k in s.store && !RecordedByOther(s, e.name, k) ==> Served(s, e, k))
    {
      AccountedAt(s, e, k);
    }
  }

  /** A store that refuses nothing serves every key the object has on record. */
  lemma AcceptedServes(s: State, e: Event, k: PolicyRuleKey)
    requires e.refused == {} && RecordedBy(s, e.name, k) && !(e.Upsert? && e.rules.None?)
    ensures Served(s, e, k)
  {
    AcceptedAt(s, e, k);
  }

  /** A run: the states between events, from the empty mirror. */
  predicate IsRun(ss: seq<State>, es: seq<Event>) {
    && |ss| == |es| + 1
    && ss[0] == START
    && forall i :: 0 <= i < |es| ==> ss[i + 1] == After(ss[i], es[i])
  }

  predicate NothingRefused(es: seq<Event>) {
    forall i :: 0 <= i < |es| ==> es[i].refused == {}
  }

  /** Over every run on a store that accepts every write, whatever the objects compile to each time, no
      stored key is ever outside the records. */
  lemma {:induction false} NoLeak(ss: seq<State>, es: seq<Event>, i: nat)
    requires IsRun(ss, es) && NothingRefused(es) && i < |ss|
    ensures Contained(ss[i])
  {
    if i > 0 {
      NoLeak(ss, es, i - 1);
      var s, e := ss[i - 1], es[i - 1];
      if !(e.Upsert? && e.rules.None?) {
        ContainedExactlyWhen(s, e);
        forall k | k in s.store && !RecordedByOther(s, e.name, k) ensures Served(s, e, k) {
          var n :| RecordedBy(s, n, k);
          AcceptedServes(s, e, k);
        }
      }
    }
  }

  /** The keys an event takes out of the store. */
  ghost predicate Removes(s: State, e: Event, k: PolicyRuleKey) {
    match e
    case Upsert(name, None, _) => false
    case Upsert(name, Some(rules), _) => k in Recorded(s, name) && VerdictIn(rules, k).None?
    case Delete(name, rules, _) => k in DeleteList(s, name, rules)
  }

  lemma ExactAt(s: State, e: Event, k: PolicyRuleKey)
    requires k in s.store <==> exists n :: RecordedBy(s, n, k)
    requires e.refused == {}
    ensures (k in After(s, e).store <==> exists n :: RecordedBy(After(s, e), n, k)) <==>
            !(Removes(s, e, k) && RecordedByOther(s, e.name, k))
  {
    if !(e.Upsert? && e.rules.None?) {
      hide After;
      var t := After(s, e);
      AfterAt(s, e, k);
      AcceptedAt(s, e, k);
      OthersKeptAll(s, e, k);
      SplitRecorded(s, e.name, k);
      SplitRecorded(t, e.name, k);
      hide RecordedByOther;
      assert RecordedBy(t, e.name, k) <==> k in Recorded(t, e.name);
      if e.Delete? { DeleteForgets(s, e); }
    }
  }

  /** The store stays equal to the records if and only if the event removes no key that another object
      has on record. */
  lemma ExactExactlyWhen(s: State, e: Event)
    requires Exact(s) && e.refused == {}
    ensures Exact(After(s, e)) <==> forall k :: Removes(s, e, k) ==> !RecordedByOther(s, e.name, k)
  {
    forall k
      ensures (k in After(s, e).store <==> exists n :: RecordedBy(After(s, e), n, k)) <==>
              !(Removes(s, e, k) && RecordedByOther(s, e.name, k))
    {
      ExactAt(s, e, k);
    }
  }

  /** Two objects that expand to the same key: deleting one takes the other's rule out of the store. */
  lemma OverlapLosesRules(rule: PolicyRule)
    ensures var es := [Upsert("ns/a", Some([rule]), {}), Upsert("ns/b", Some([rule]), {}), Delete("ns/a", None, {})];
            var t := After(After(After(START, es[0]), es[1]), es[2]);
            RecordedBy(t, "ns/b", rule.key) && rule.key !in t.store
  {
    var e0, e1, e2 := Upsert("ns/a", Some([rule]), {}), Upsert("ns/b", Some([rule]), {}), Delete("ns/a", None, {});
    var s0 := START;
    var s1 := After(s0, e0);
    var s2 := After(s1, e1);
    AfterAt(s0, e0, rule.key);
    AfterAt(s1, e1, rule.key);
    AfterAt(s2, e2, rule.key);
    assert VerdictIn([rule], rule.key) == Some(rule.verdict);
    assert RecordedBy(s1, "ns/a", rule.key);
    OthersKept(s1, e1, "ns/a", rule.key);
    assert RecordedBy(s2, "ns/b", rule.key);
    OthersKept(s2, e2, "ns/b", rule.key);
  }

  /** What an object last compiled to, if it has compiled since it was last deleted. */
  function Live(es: seq<Event>, name: string): Option<seq<PolicyRule>> {
    if es == [] then None
    else
      var e := es[|es| - 1];
      if e.name != name || (e.Upsert? && e.rules.None?) then Live(es[..|es| - 1], name)
      else if e.Upsert? then e.rules
      else None
  }

  /** Objects do not overlap: every key an object ever expands to belongs to it. */
  ghost predicate Owns(e: Event, owner: PolicyRuleKey -> string) {
    e.rules.Some? ==> forall k :: VerdictIn(e.rules.value, k).Some? ==> owner(k) == e.name
  }

  /** What the store should hold for a key: the verdict its owner's last good compile gives it. */
  function Mirrored(es: seq<Event>, owner: PolicyRuleKey -> string, k: PolicyRuleKey): Option<PolicyVerdict> {
    var live := Live(es, owner(k));
    if live.Some? then VerdictIn(live.value, k) else None
  }

  ghost predicate RecordsAgree(s: State, es: seq<Event>) {
    forall n :: Get(s.applied, n) ==
                (var live := Live(es, n); if live.Some? then Some(Landed(live.value, {})) else None)
  }

  ghost predicate OwnedKeys(es: seq<Event>, owner: PolicyRuleKey -> string) {
    forall i :: 0 <= i < |es| ==> Owns(es[i], owner)
  }

  lemma {:induction false} LiveOwned(es: seq<Event>, owner: PolicyRuleKey -> string, name: string, k: PolicyRuleKey)
    requires OwnedKeys(es, owner)
    ensures Live(es, name).Some? && VerdictIn(Live(es, name).value, k).Some? ==> owner(k) == name
  {
    if es != [] {
      assert Owns(es[|es| - 1], owner);
      LiveOwned(es[..|es| - 1], owner, name, k);
    }
  }

  lemma LiveStep(es: seq<Event>, e: Event, name: string)
    ensures Live(es + [e], name) ==
            if e.name != name || (e.Upsert? && e.rules.None?) then Live(es, name)
            else if e.Upsert? then e.rules
            else None
  {
    assert (es + [e])[..|es|] == es;
  }

  lemma RecordsStep(s: State, es: seq<Event>, e: Event)
    requires RecordsAgree(s, es) && e.refused == {}
    ensures RecordsAgree(After(s, e), es + [e])
  {
    forall n
      ensures Get(After(s, e).applied, n) ==
              (var live := Live(es + [e], n); if live.Some? then Some(Landed(live.value, {})) else None)
    {
      LiveStep(es, e, n);
      hide Live, Landed, PutAll, Stale;
      assert Get(s.applied, n) == if Live(es, n).Some? then Some(Landed(Live(es, n).value, {})) else None;
    }
  }

  /** One event, one key. */
  lemma MirroredStep(s: State, es: seq<Event>, e: Event, owner: PolicyRuleKey -> string, k: PolicyRuleKey)
    requires RecordsAgree(s, es) && OwnedKeys(es, owner) && Owns(e, owner) && e.refused == {}
    requires Get(s.store, k) == Mirrored(es, owner, k)
    ensures Get(After(s, e).store, k) == Mirrored(es + [e], owner, k)
  {
    LiveStep(es, e, owner(k));
    LiveOwned(es, owner, e.name, k);
    var live := Live(es, e.name);
    assert Get(s.applied, e.name) == if live.Some? then Some(Landed(live.value, {})) else None;
    if live.Some? {
      PutAllAt(map[], live.value, {}, k);
      LandedProduced(live.value, {}, k);
    }
    if !(e.Upsert? && e.rules.None?) {
      hide After, Live, Landed, OwnedKeys, RecordsAgree;
      AfterAt(s, e, k);
      AcceptedAt(s, e, k);
    }
  }

  /** The mirror, over every run whose objects do not overlap: the records are each object's last good
      compile, and the store maps every key to the verdict of its owner's last good compile, and to
      nothing where there is none. */
  lemma {:induction false} MirrorsLastGoodCompile(ss: seq<State>, es: seq<Event>, owner: PolicyRuleKey -> string,
                                                  i: nat, k: PolicyRuleKey)
    requires IsRun(ss, es) && NothingRefused(es) && OwnedKeys(es, owner) && i < |ss|
    ensures RecordsAgree(ss[i], es[..i])
    ensures Get(ss[i].store, k) == Mirrored(es[..i], owner, k)
  {
    if i > 0 {
      MirrorsLastGoodCompile(ss, es, owner, i - 1, k);
      assert es[..i] == es[..i - 1] + [es[i - 1]];
      assert OwnedKeys(es[..i - 1], owner);
      RecordsStep(ss[i - 1], es[..i - 1], es[i - 1]);
      MirroredStep(ss[i - 1], es[..i - 1], es[i - 1], owner, k);
    }
  }
}

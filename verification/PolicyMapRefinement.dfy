/** What a commit plan does to policy_map: completely, half way, and after a failure. */
module PolicyMapRefinement {
  import opened Wire
  import opened Translate
  import opened Diff
  import opened Datapath

  /** policy_map as it should read for a keyed policy list. */
  function KernelPolicies(table: map<PolicyRuleKey, PolicyRule>): map<PolicyMapKey, PolicyMapVerdict> {
    map k | k in table :: TranslateKey(k) := TranslateVerdict(table[k].verdict)
  }

  /** What policy_map holds for a wire key. */
  function Read(w: State, k: PolicyRuleKey): Option<PolicyMapVerdict> {
    Get(w.policyMap, TranslateKey(k))
  }

  function Wanted(s: Snapshot, k: PolicyRuleKey): Option<PolicyMapVerdict> {
    match Get(PolicyTable(s.policies), k)
    case None => None
    case Some(r) => Some(TranslateVerdict(r.verdict))
  }

  predicate Touches(op: Op, k: PolicyRuleKey) {
    (op.PutPolicy? && op.rule.key == k) || (op.DropPolicy? && op.key == k)
  }

  function Effect(op: Op): Option<PolicyMapVerdict> {
    if op.PutPolicy? then Some(TranslateVerdict(op.rule.verdict)) else None
  }

  lemma {:induction false} ExecAllAppend(a: seq<Op>, b: seq<Op>, w: State)
    ensures ExecAll(a + b, w) == ExecAll(b, ExecAll(a, w))
  {
    if a == [] {
      assert a + b == b;
    } else {
      assert (a + b)[1..] == a[1..] + b;
      ExecAllAppend(a[1..], b, Exec(a[0], w));
    }
  }

  /** A run stopped anywhere has executed exactly a prefix of its entries. */
  lemma {:induction false} RunIsPrefix(ops: seq<Op>, w: State, budget: nat) returns (n: nat)
    ensures n <= |ops|
    ensures Run(ops, w, budget).state == ExecAll(ops[..n], w)
    ensures Run(ops, w, budget).ok ==> n == |ops|
  {
    if ops == [] || !Translatable(ops[0]) || (NeedsKernel(ops[0], w) && budget == 0) {
      n := 0;
    } else {
      var w' := Exec(ops[0], w);
      var m := RunIsPrefix(ops[1..], w', if NeedsKernel(ops[0], w) then budget - 1 else budget);
      n := m + 1;
      assert ops[..n][0] == ops[0] && ops[..n][1..] == ops[1..][..m];
    }
  }

  /** If every entry that mentions k agrees on its effect, k reads as that effect once one of
      them has run, and as before until then. */
  lemma {:induction false} ReadAfter(ops: seq<Op>, w: State, k: PolicyRuleKey, e: Option<PolicyMapVerdict>)
    requires forall i :: 0 <= i < |ops| && Touches(ops[i], k) ==> Effect(ops[i]) == e
    ensures Read(ExecAll(ops, w), k) ==
            if exists i :: 0 <= i < |ops| && Touches(ops[i], k) then e else Read(w, k)
  {
    if ops != [] {
      var rest := ops[1..];
      assert forall i :: 0 <= i < |rest| ==> rest[i] == ops[i + 1];
      ReadAfter(rest, Exec(ops[0], w), k, e);
      if exists i :: 0 <= i < |ops| && Touches(ops[i], k) {
        var i :| 0 <= i < |ops| && Touches(ops[i], k);
        if i > 0 { assert Touches(rest[i - 1], k); }
      } else {
        assert !Touches(ops[0], k);
        assert forall i :: 0 <= i < |rest| ==> !Touches(rest[i], k);
      }
      if exists j :: 0 <= j < |rest| && Touches(rest[j], k) {
        var j :| 0 <= j < |rest| && Touches(rest[j], k);
        assert Touches(ops[j + 1], k);
      }
    }
  }

  /** The entries of a plan that mention k, read off its two policy lists. */
  lemma OpsTouching(plan: CommitPlan, k: PolicyRuleKey)
    ensures var ops := Ops(plan);
            forall i :: 0 <= i < |ops| && Touches(ops[i], k) ==>
              || (ops[i].PutPolicy? && ops[i].rule in plan.policyUpserts && ops[i].rule.key == k)
              || (ops[i] == DropPolicy(k) && k in plan.policyDeletes)
    ensures (exists p :: p in plan.policyUpserts && p.key == k) || k in plan.policyDeletes ==>
              exists i :: 0 <= i < |Ops(plan)| && Touches(Ops(plan)[i], k)
  {
    var ops := Ops(plan);
    var a, b := |plan.identityUpserts|, |plan.policyUpserts|;
    forall i | 0 <= i < |ops| && Touches(ops[i], k)
      ensures || (ops[i].PutPolicy? && ops[i].rule in plan.policyUpserts)
              || (ops[i] == DropPolicy(k) && k in plan.policyDeletes)
    {
      if ops[i].PutPolicy? {
        assert ops[i] == PutPolicy(plan.policyUpserts[i - a]);
      } else {
        assert ops[i] == DropPolicy(plan.policyDeletes[i - a - b]);
      }
    }
    if p :| p in plan.policyUpserts && p.key == k {
      var j :| 0 <= j < b && plan.policyUpserts[j] == p;
      assert ops[a + j] == PutPolicy(p);
    } else if k in plan.policyDeletes {
      var j :| 0 <= j < |plan.policyDeletes| && plan.policyDeletes[j] == k;
      assert ops[a + b + j] == DropPolicy(k);
    }
  }

  /** Which policy keys a plan lists, in terms of the two snapshots. */
  lemma PlanLists(prev: Snapshot, next: Snapshot, k: PolicyRuleKey)
    requires UniquePolicies(next.policies)
    ensures var ot, nt := PolicyTable(prev.policies), PolicyTable(next.policies);
            var plan := Plan(prev, next);
            && (forall p :: p in plan.policyUpserts && p.key == k ==> Get(nt, k) == Some(p) && Get(ot, k) != Some(p))
            && (k in plan.policyDeletes <==> k in ot && k !in nt)
            && (k in nt && Get(ot, k) != Get(nt, k) ==> nt[k] in plan.policyUpserts && nt[k].key == k)
  {
    PolicyTableUnique(next.policies);
    PolicyTableKeys(next.policies);
    PolicyTableKeys(prev.policies);
    ChangedPoliciesMembers(next.policies, PolicyTable(prev.policies));
    GonePoliciesMembers(prev.policies, PolicyTable(next.policies).Keys);
  }

  /** A plan mentions exactly the keys whose rule changes, always with the new verdict. */
  lemma PlanTouches(prev: Snapshot, next: Snapshot, k: PolicyRuleKey)
    requires UniquePolicies(next.policies)
    ensures var ops := Ops(Plan(prev, next));
            && (forall i :: 0 <= i < |ops| && Touches(ops[i], k) ==> Effect(ops[i]) == Wanted(next, k))
            && ((exists i :: 0 <= i < |ops| && Touches(ops[i], k)) <==>
                Get(PolicyTable(prev.policies), k) != Get(PolicyTable(next.policies), k))
  {
    PlanLists(prev, next, k);
    OpsTouching(Plan(prev, next), k);
  }

  /** policy_map is in step with a snapshot. */
  predicate PoliciesInSync(w: State, s: Snapshot) {
    w.policyMap == KernelPolicies(PolicyTable(s.policies))
  }

  lemma InSyncPointwise(w: State, s: Snapshot)
    ensures PoliciesInSync(w, s) <==> forall k :: Read(w, k) == Wanted(s, k)
  {
    var want := KernelPolicies(PolicyTable(s.policies));
    forall k ensures Get(want, TranslateKey(k)) == Wanted(s, k) {
      assert WireKey(TranslateKey(k)) == k;
    }
    if forall k :: Read(w, k) == Wanted(s, k) {
      forall pk ensures Get(w.policyMap, pk) == Get(want, pk) {
        assert TranslateKey(WireKey(pk)) == pk;
        assert Read(w, WireKey(pk)) == Wanted(s, WireKey(pk));
      }
      SameLookups(w.policyMap, want);
    }
  }

  /** Half-way states: after any prefix of a plan each policy key reads as its old or its new verdict. */
  lemma OldOrNew(w: State, prev: Snapshot, next: Snapshot, n: nat, k: PolicyRuleKey)
    requires UniquePolicies(next.policies)
    requires PoliciesInSync(w, prev)
    requires n <= |Ops(Plan(prev, next))|
    ensures var r := Read(ExecAll(Ops(Plan(prev, next))[..n], w), k);
            r == Wanted(prev, k) || r == Wanted(next, k)
  {
    InSyncPointwise(w, prev);
    PlanTouches(prev, next, k);
    var ops := Ops(Plan(prev, next));
    assert forall i :: 0 <= i < n ==> ops[..n][i] == ops[i];
    ReadAfter(ops[..n], w, k, Wanted(next, k));
  }

  /** What a complete run leaves at k, from any starting map. */
  lemma ReadAfterPlan(w: State, prev: Snapshot, next: Snapshot, k: PolicyRuleKey)
    requires UniquePolicies(next.policies)
    ensures Read(ExecAll(Ops(Plan(prev, next)), w), k) ==
            if Get(PolicyTable(prev.policies), k) != Get(PolicyTable(next.policies), k)
            then Wanted(next, k) else Read(w, k)
  {
    PlanTouches(prev, next, k);
    ReadAfter(Ops(Plan(prev, next)), w, k, Wanted(next, k));
  }

  /** A complete run moves policy_map from the applied snapshot to the desired one. */
  lemma ApplyRefines(w: State, prev: Snapshot, next: Snapshot)
    requires UniquePolicies(next.policies)
    requires PoliciesInSync(w, prev)
    ensures PoliciesInSync(ExecAll(Ops(Plan(prev, next)), w), next)
  {
    InSyncPointwise(w, prev);
    forall k ensures Read(ExecAll(Ops(Plan(prev, next)), w), k) == Wanted(next, k) {
      ReadAfterPlan(w, prev, next, k);
    }
    InSyncPointwise(ExecAll(Ops(Plan(prev, next)), w), next);
  }

  /** Retrying the same plan from any half-way state ends in the same policy_map. */
  lemma RetryPolicies(w: State, prev: Snapshot, next: Snapshot, n: nat)
    requires UniquePolicies(next.policies)
    requires n <= |Ops(Plan(prev, next))|
    ensures var ops := Ops(Plan(prev, next));
            ExecAll(ops, ExecAll(ops[..n], w)).policyMap == ExecAll(ops, w).policyMap
  {
    var ops := Ops(Plan(prev, next));
    var a, b := ExecAll(ops, ExecAll(ops[..n], w)), ExecAll(ops, w);
    forall k ensures Read(a, k) == Read(b, k) {
      PlanTouches(prev, next, k);
      assert forall i :: 0 <= i < n ==> ops[..n][i] == ops[i];
      ReadAfter(ops[..n], w, k, Wanted(next, k));
      ReadAfterPlan(w, prev, next, k);
      ReadAfterPlan(ExecAll(ops[..n], w), prev, next, k);
    }
    SamePolicies(a, b);
  }

  lemma SamePolicies(a: State, b: State)
    requires forall k :: Read(a, k) == Read(b, k)
    ensures a.policyMap == b.policyMap
  {
    forall pk ensures Get(a.policyMap, pk) == Get(b.policyMap, pk) {
      assert TranslateKey(WireKey(pk)) == pk;
      assert Read(a, WireKey(pk)) == Read(b, WireKey(pk));
    }
    SameLookups(a.policyMap, b.policyMap);
  }

  /** The first n operations get to this key. */
  predicate Reached(ops: seq<Op>, n: nat, k: PolicyRuleKey)
    requires n <= |ops|
  {
    exists i :: 0 <= i < n && Touches(ops[i], k)
  }

  /** A key that a prefix of a plan wrote or deleted reads differently from before; any other key reads
      the same. */
  lemma HalfReads(w: State, prev: Snapshot, next: Snapshot, n: nat, k: PolicyRuleKey)
    requires UniquePolicies(prev.policies) && UniquePolicies(next.policies)
    requires PoliciesInSync(w, prev) && n <= |Ops(Plan(prev, next))|
    ensures var ops := Ops(Plan(prev, next));
            Read(ExecAll(ops[..n], w), k) != Wanted(prev, k) <==> Reached(ops, n, k)
  {
    InSyncPointwise(w, prev);
    PlanTouches(prev, next, k);
    var ops := Ops(Plan(prev, next));
    assert forall i :: 0 <= i < n ==> ops[..n][i] == ops[i];
    ReadAfter(ops[..n], w, k, Wanted(next, k));
    PolicyTableKeys(prev.policies);
    PolicyTableKeys(next.policies);
  }

  /** A push that failed half way towards `failed` and is followed by a different push `next`: the
      client still diffs against `prev`, so policy_map ends up right exactly when every key the failed
      run got to is one on which `prev` and `next` differ. */
  lemma AfterFailedApply(w: State, prev: Snapshot, failed: Snapshot, next: Snapshot, n: nat)
    requires UniquePolicies(prev.policies) && UniquePolicies(failed.policies) && UniquePolicies(next.policies)
    requires PoliciesInSync(w, prev)
    requires n <= |Ops(Plan(prev, failed))|
    ensures var half := ExecAll(Ops(Plan(prev, failed))[..n], w);
            PoliciesInSync(ExecAll(Ops(Plan(prev, next)), half), next) <==>
            forall k :: Reached(Ops(Plan(prev, failed)), n, k) ==>
              Get(PolicyTable(prev.policies), k) != Get(PolicyTable(next.policies), k)
  {
    hide PoliciesInSync, Plan, Ops, ExecAll, Read, Wanted, Reached, PolicyTable, UniquePolicies;
    var ops := Ops(Plan(prev, failed));
    var end := ExecAll(Ops(Plan(prev, next)), ExecAll(ops[..n], w));
    InSyncPointwise(end, next);
    forall k
      ensures Read(end, k) == Wanted(next, k) <==>
              (Reached(ops, n, k) ==> Get(PolicyTable(prev.policies), k) != Get(PolicyTable(next.policies), k))
    {
      RightAgain(w, prev, failed, next, n, k);
    }
  }

  lemma RightAgain(w: State, prev: Snapshot, failed: Snapshot, next: Snapshot, n: nat, k: PolicyRuleKey)
    requires UniquePolicies(prev.policies) && UniquePolicies(failed.policies) && UniquePolicies(next.policies)
    requires PoliciesInSync(w, prev)
    requires n <= |Ops(Plan(prev, failed))|
    ensures var ops := Ops(Plan(prev, failed));
            Read(ExecAll(Ops(Plan(prev, next)), ExecAll(ops[..n], w)), k) == Wanted(next, k) <==>
            (Reached(ops, n, k) ==> Get(PolicyTable(prev.policies), k) != Get(PolicyTable(next.policies), k))
  {
    hide PoliciesInSync, Plan, Ops, ExecAll, Read, Touches, PolicyTable, UniquePolicies, Reached;
    ReadAfterPlan(ExecAll(Ops(Plan(prev, failed))[..n], w), prev, next, k);
    HalfReads(w, prev, failed, n, k);
  }

  /** The condition above can fail: a rule written by a push the agent rejected stays in
      policy_map after the next push, which no longer carries it, is accepted. */
  lemma FailedApplyCanLeak(rule: PolicyRule, other: PolicyRule)
    requires rule.key != other.key
    ensures var rejected := Run(Ops(Plan(EMPTY, Snapshot([rule, other], []))), FRESH, 1);
            var accepted := Run(Ops(Plan(EMPTY, EMPTY)), rejected.state, 0);
            && !rejected.ok
            && accepted.ok
            && Read(accepted.state, rule.key) == Some(TranslateVerdict(rule.verdict))
  {
    var both := [rule, other];
    assert both[..1] == [rule] && both[..1][..0] == [];
    assert ChangedPolicies([rule], map[]) == [rule];
    assert ChangedPolicies(both, map[]) == both;
    var ops := Ops(Plan(EMPTY, Snapshot(both, [])));
    assert ops == [PutPolicy(rule), PutPolicy(other)];
    assert ops[1..] == [PutPolicy(other)];
    assert Ops(Plan(EMPTY, EMPTY)) == [];
  }
}

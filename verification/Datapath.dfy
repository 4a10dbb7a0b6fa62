/** The datapath writer (internal/agent/datapath/writer_linux.go): a commit plan is
    applied to the kernel maps in four fixed phases, and any map operation may fail. */
module Datapath {
  import opened Wire
  import opened Translate
  import opened Diff

  /** The two kernel maps and the writer's memory of where it put each identity. */
  datatype State = State(
    identityMap: map<U32, IdentityID>,
    policyMap: map<PolicyMapKey, PolicyMapVerdict>,
    keyByID: map<IdentityID, U32>)

  const FRESH := State(map[], map[], map[])

  /** One entry of a plan, in the order the writer reaches it. */
  datatype Op =
    | PutIdentity(identity: Identity)
    | PutPolicy(rule: PolicyRule)
    | DropPolicy(key: PolicyRuleKey)
    | DropIdentity(id: IdentityID)

  function PutIdentityOps(ids: seq<Identity>): seq<Op> {
    seq(|ids|, i requires 0 <= i < |ids| => PutIdentity(ids[i]))
  }

  function PutPolicyOps(ps: seq<PolicyRule>): seq<Op> {
    seq(|ps|, i requires 0 <= i < |ps| => PutPolicy(ps[i]))
  }

  function DropPolicyOps(ks: seq<PolicyRuleKey>): seq<Op> {
    seq(|ks|, i requires 0 <= i < |ks| => DropPolicy(ks[i]))
  }

  function DropIdentityOps(ids: seq<IdentityID>): seq<Op> {
    seq(|ids|, i requires 0 <= i < |ids| => DropIdentity(ids[i]))
  }

  function PolicyOps(plan: CommitPlan): seq<Op> {
    PutPolicyOps(plan.policyUpserts) + DropPolicyOps(plan.policyDeletes)
  }

  function Ops(plan: CommitPlan): seq<Op> {
    PutIdentityOps(plan.identityUpserts) + (PolicyOps(plan) + DropIdentityOps(plan.identityDeletes))
  }

  /** What one entry does when its map operation succeeds. */
  function Exec(op: Op, w: State): State {
    match op
    case PutIdentity(d) =>
      (match NetworkKey(d)
       case None => w
       case Some(a) => w.(identityMap := w.identityMap[a := d.id], keyByID := w.keyByID[d.id := a]))
    case PutPolicy(r) => w.(policyMap := w.policyMap[TranslateKey(r.key) := TranslateVerdict(r.verdict)])
    case DropPolicy(k) => w.(policyMap := w.policyMap - {TranslateKey(k)})
    case DropIdentity(id) =>
      if id in w.keyByID
      then w.(identityMap := w.identityMap - {w.keyByID[id]}, keyByID := w.keyByID - {id})
      else w
  }

  function ExecAll(ops: seq<Op>, w: State): State {
    if ops == [] then w else ExecAll(ops[1..], Exec(ops[0], w))
  }

  /** An identity without a usable IPv4 address cannot be written. */
  predicate Translatable(op: Op) {
    op.PutIdentity? ==> NetworkKey(op.identity).Some?
  }

  /** A delete of an identity this writer never placed touches no map. */
  predicate NeedsKernel(op: Op, w: State) {
    op.DropIdentity? ==> op.id in w.keyByID
  }

  datatype Outcome = Outcome(state: State, ok: bool, budget: nat)

  /** The writer's run when the kernel accepts `budget` map operations and refuses the next one. */
  function Run(ops: seq<Op>, w: State, budget: nat): Outcome {
    if ops == [] then Outcome(w, true, budget)
    else if !Translatable(ops[0]) then Outcome(w, false, budget)
    else if !NeedsKernel(ops[0], w) then Run(ops[1..], w, budget)
    else if budget == 0 then Outcome(w, false, 0)
    else Run(ops[1..], Exec(ops[0], w), budget - 1)
  }

  lemma {:induction false} RunSplit(a: seq<Op>, b: seq<Op>, w: State, budget: nat)
    ensures Run(a + b, w, budget) ==
            var r := Run(a, w, budget);
            if r.ok then Run(b, r.state, r.budget) else r
  {
    if a == [] {
      assert a + b == b;
    } else {
      assert (a + b)[1..] == a[1..] + b;
      if Translatable(a[0]) {
        if !NeedsKernel(a[0], w) {
          RunSplit(a[1..], b, w, budget);
        } else if budget > 0 {
          RunSplit(a[1..], b, Exec(a[0], w), budget - 1);
        }
      }
    }
  }

  class Writer {
    var identityMap: map<U32, IdentityID>
    var policyMap: map<PolicyMapKey, PolicyMapVerdict>
    var identityKeyByID: map<IdentityID, U32>

    function Abs(): State
      reads this
    {
      State(identityMap, policyMap, identityKeyByID)
    }

    constructor ()
      ensures Abs() == FRESH
    {
      identityMap, policyMap, identityKeyByID := map[], map[], map[];
    }

    /** Applies a plan; `budget` map operations succeed before the kernel refuses one. */
    method Apply(plan: CommitPlan, budget: nat) returns (ok: bool, left: nat)
      modifies this
      ensures Outcome(Abs(), ok, left) == Run(Ops(plan), old(Abs()), budget)
    {
      ghost var iu, po := PutIdentityOps(plan.identityUpserts), PolicyOps(plan);
      ghost var dr := DropIdentityOps(plan.identityDeletes);
      RunSplit(iu, po + dr, Abs(), budget);
      ok, left := ApplyIdentityUpserts(plan.identityUpserts, budget);
      if !ok { return; }
      RunSplit(po, dr, Abs(), left);
      RunSplit(PutPolicyOps(plan.policyUpserts), DropPolicyOps(plan.policyDeletes), Abs(), left);
      ok, left := ApplyPolicyUpserts(plan.policyUpserts, left);
      if !ok { return; }
      ok, left := ApplyPolicyDeletes(plan.policyDeletes, left);
      if !ok { return; }
      ok, left := ApplyIdentityDeletes(plan.identityDeletes, left);
    }

    method ApplyIdentityUpserts(upserts: seq<Identity>, budget: nat) returns (ok: bool, left: nat)
      modifies this
      ensures Outcome(Abs(), ok, left) == Run(PutIdentityOps(upserts), old(Abs()), budget)
    {
      left := budget;
      ghost var ops := PutIdentityOps(upserts);
      for i := 0 to |upserts|
        invariant Run(ops, old(Abs()), budget) == Run(ops[i..], Abs(), left)
      {
        assert ops[i..][1..] == ops[i + 1..];
        var entry := NetworkKey(upserts[i]);
        if entry.None? { return false, left; }
        if left == 0 { return false, left; }
        left := left - 1;
        identityMap := identityMap[entry.value := upserts[i].id];
        identityKeyByID := identityKeyByID[upserts[i].id := entry.value];
      }
      ok := true;
    }

    method ApplyPolicyUpserts(upserts: seq<PolicyRule>, budget: nat) returns (ok: bool, left: nat)
      modifies this
      ensures Outcome(Abs(), ok, left) == Run(PutPolicyOps(upserts), old(Abs()), budget)
    {
      left := budget;
      ghost var ops := PutPolicyOps(upserts);
      for i := 0 to |upserts|
        invariant Run(ops, old(Abs()), budget) == Run(ops[i..], Abs(), left)
      {
        assert ops[i..][1..] == ops[i + 1..];
        if left == 0 { return false, left; }
        left := left - 1;
        policyMap := policyMap[TranslateKey(upserts[i].key) := TranslateVerdict(upserts[i].verdict)];
      }
      ok := true;
    }

    method ApplyPolicyDeletes(deletes: seq<PolicyRuleKey>, budget: nat) returns (ok: bool, left: nat)
      modifies this
      ensures Outcome(Abs(), ok, left) == Run(DropPolicyOps(deletes), old(Abs()), budget)
    {
      left := budget;
      ghost var ops := DropPolicyOps(deletes);
      for i := 0 to |deletes|
        invariant Run(ops, old(Abs()), budget) == Run(ops[i..], Abs(), left)
      {
        assert ops[i..][1..] == ops[i + 1..];
        if left == 0 { return false, left; }
        left := left - 1;
        policyMap := policyMap - {TranslateKey(deletes[i])};
      }
      ok := true;
    }

    method ApplyIdentityDeletes(deletes: seq<IdentityID>, budget: nat) returns (ok: bool, left: nat)
      modifies this
      ensures Outcome(Abs(), ok, left) == Run(DropIdentityOps(deletes), old(Abs()), budget)
    {
      left := budget;
      ghost var ops := DropIdentityOps(deletes);
      for i := 0 to |deletes|
        invariant Run(ops, old(Abs()), budget) == Run(ops[i..], Abs(), left)
      {
        assert ops[i..][1..] == ops[i + 1..];
        if deletes[i] !in identityKeyByID { continue; }
        if left == 0 { return false, left; }
        left := left - 1;
        identityMap := identityMap - {identityKeyByID[deletes[i]]};
        identityKeyByID := identityKeyByID - {deletes[i]};
      }
      ok := true;
    }
  }
}

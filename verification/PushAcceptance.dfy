/** Which pushes the agent accepts: those whose rules are in range and whose new identities have an address,
    provided the kernel takes every map operation. */
module PushAcceptance {
  import opened Wire
  import opened Translate
  import opened TranslateProofs
  import opened Diff
  import opened Ads
  import opened Datapath
  import Client = XdsClient
  import Fail = IdentityFailures

  ghost predicate HasAddress(d: Identity) {
    exists b: seq<U8> :: |b| == 4 && d.podIPv4 == Dotted(b)
  }

  lemma AddressedExactlyWhen(d: Identity)
    ensures NetworkKey(d).Some? <==> HasAddress(d)
  {
    if NetworkKey(d).Some? {
      ParsedExactlyWhen(d.podIPv4, ParseFields(d.podIPv4, 0, [], 0, 0).value);
    }
    if b: seq<U8> :| |b| == 4 && d.podIPv4 == Dotted(b) {
      ParsedExactlyWhen(d.podIPv4, b);
    }
  }

  /** A kernel that refuses nothing completes a run if and only if every identity put has an address. */
  lemma {:induction false} RunCompletesExactlyWhen(ops: seq<Op>, w: Datapath.State, budget: nat)
    requires budget >= |ops|
    ensures Run(ops, w, budget).ok <==> forall op :: op in ops && op.PutIdentity? ==> HasAddress(op.identity)
    ensures Run(ops, w, budget).ok ==> Run(ops, w, budget).state == ExecAll(ops, w)
  {
    hide HasAddress, NetworkKey;
    if ops != [] {
      var rest := ops[1..];
      assert forall op :: op in ops <==> op == ops[0] || op in rest;
      if ops[0].PutIdentity? { AddressedExactlyWhen(ops[0].identity); }
      RunCompletesExactlyWhen(rest, Exec(ops[0], w), budget - 1);
      RunCompletesExactlyWhen(rest, w, budget);
    }
  }

  /** What a push asks the agent to hold. */
  function Asked(cur: Snapshot, body: Body): Snapshot {
    match body
    case Policies(ps) => cur.(policies := ps)
    case Identities(ids) => cur.(identities := ids)
    case Nothing => cur
  }

  function OpsAsked(cur: Snapshot, body: Body): seq<Op> {
    Ops(Plan(cur, Asked(cur, body)))
  }

  /** An identity is put if and only if the push changes it. */
  lemma IdentityPutExactlyWhen(prev: Snapshot, next: Snapshot, d: Identity)
    requires UniqueIdentities(prev.identities) && UniqueIdentities(next.identities)
    ensures PutIdentity(d) in Ops(Plan(prev, next)) <==> d in next.identities && d !in prev.identities
  {
    var table := IdentityTable(prev.identities);
    IdentityTableUnique(prev.identities);
    ChangedIdentitiesMembers(next.identities, table);
    var plan := Plan(prev, next);
    if PutIdentity(d) in Ops(plan) {
      var i :| 0 <= i < |Ops(plan)| && Ops(plan)[i] == PutIdentity(d);
      Fail.OpAt(plan, i);
    }
    if d in plan.identityUpserts {
      var i :| 0 <= i < |plan.identityUpserts| && plan.identityUpserts[i] == d;
      assert Ops(plan)[i] == PutIdentity(d);
    }
  }

  /** A policy push is accepted, and applied as it is, if and only if every rule has direction 0 or 1 and
      action 0, 1 or 2. */
  lemma PolicyPushAcceptedExactlyWhen(c: Client.State, version: nat, nonce: nat, ps: seq<PolicyRule>, budget: nat)
    requires UniqueIdentities(c.applied.identities)
    requires budget >= |OpsAsked(c.applied, Policies(ps))|
    ensures var h := Client.Handle(c, Response(Cluster, version, nonce, Policies(ps)), false, budget);
            && (h.reply.error <==> exists r :: r in ps && (r.key.dir > 1 || r.verdict.action > 2))
            && (!h.reply.error ==> h.state.applied == Snapshot(ps, c.applied.identities))
            && h.reply == Request(Cluster, if h.reply.error then Client.Accepted(c, Cluster) else version, nonce,
                                  h.reply.error)
  {
    var cur, body := c.applied, Policies(ps);
    var ops := OpsAsked(cur, body);
    RunCompletesExactlyWhen(ops, c.writer, budget);
    forall d ensures PutIdentity(d) !in ops {
      IdentityPutExactlyWhen(cur, Asked(cur, body), d);
    }
    if ps == [] { assert Asked(cur, body) == cur.(policies := []); }
  }

  /** An identity push is accepted, and applied as it is, if and only if every identity it changes has a
      dotted IPv4 address. */
  lemma IdentityPushAcceptedExactlyWhen(c: Client.State, version: nat, nonce: nat, ids: seq<Identity>, budget: nat)
    requires UniqueIdentities(c.applied.identities) && UniqueIdentities(ids)
    requires budget >= |OpsAsked(c.applied, Identities(ids))|
    ensures var h := Client.Handle(c, Response(Endpoint, version, nonce, Identities(ids)), false, budget);
            && (h.reply.error <==> exists d :: d in ids && d !in c.applied.identities && !HasAddress(d))
            && (!h.reply.error ==> h.state.applied == Snapshot(c.applied.policies, ids))
            && h.reply == Request(Endpoint, if h.reply.error then Client.Accepted(c, Endpoint) else version, nonce,
                                  h.reply.error)
  {
    var cur, body := c.applied, Identities(ids);
    var ops := OpsAsked(cur, body);
    RunCompletesExactlyWhen(ops, c.writer, budget);
    forall d ensures PutIdentity(d) in ops <==> d in ids && d !in cur.identities {
      IdentityPutExactlyWhen(cur, Asked(cur, body), d);
    }
    if ids == [] { assert Asked(cur, body) == cur.(identities := []); }
  }

  /** On the types that carry nothing, an empty push is accepted and changes nothing. */
  lemma EmptyPushAccepted(c: Client.State, t: TypeUrl, version: nat, nonce: nat, budget: nat)
    requires UniqueIdentities(c.applied.identities) && t != Cluster && t != Endpoint
    requires budget >= |OpsAsked(c.applied, Nothing)|
    ensures var h := Client.Handle(c, Response(t, version, nonce, Nothing), false, budget);
            !h.reply.error && h.state.applied == c.applied
  {
    var cur := c.applied;
    var ops := OpsAsked(cur, Nothing);
    RunCompletesExactlyWhen(ops, c.writer, budget);
    forall d ensures PutIdentity(d) !in ops {
      IdentityPutExactlyWhen(cur, cur, d);
    }
  }
}

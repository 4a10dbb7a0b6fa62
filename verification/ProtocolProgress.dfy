/** The control path never runs on by itself and never gets stuck: left alone, it settles. */
module ProtocolProgress {
  import opened Wire
  import opened Diff
  import opened Store
  import opened Ads
  import opened Handshake
  import opened Protocol
  import opened ProtocolRuns
  import PushAcceptance
  import Client = XdsClient

  /** The steps the system takes on its own: no new write, no new stream. */
  predicate Internal(a: Action) {
    !a.Write? && !a.Reconnect?
  }

  predicate AllInternal(acts: seq<Action>) {
    forall i :: 0 <= i < |acts| ==> Internal(acts[i])
  }

  /** A response that is taken is decoded, and the kernel accepts every map operation it calls for. */
  predicate Willing(s: System, a: Action)
    requires Enabled(s, a)
  {
    a.TakeResponse? ==>
      !a.garbled && a.budget >= |PushAcceptance.OpsAsked(s.client.applied, s.link.down[0].body)|
  }

  predicate AllWilling(ss: seq<System>, acts: seq<Action>) {
    |ss| > |acts| && forall i :: 0 <= i < |acts| ==> Enabled(ss[i], acts[i]) && Willing(ss[i], acts[i])
  }

  function PhaseWork(p: Phase): nat {
    match p
    case Idle => 0
    case Pushing(rest) => 5 * |rest| + 1
    case Loaded(_, _, rest) => 5 * |rest| + 4
  }

  /** A subscription still causes a push; any other request causes nothing. */
  function RequestWork(up: seq<Request>): nat {
    if up == [] then 0 else (if up[0].nonce == 0 then 10 else 1) + RequestWork(up[1..])
  }

  /** A bound on the steps that are left. */
  function Work(s: System): nat {
    100 * s.writers + (if s.slot then 50 else 0) + PhaseWork(s.phase) + 2 * |s.link.down| + RequestWork(s.link.up)
  }

  lemma {:induction false} RequestWorkAppend(up: seq<Request>, q: Request)
    ensures RequestWork(up + [q]) == RequestWork(up) + if q.nonce == 0 then 10 else 1
  {
    if up == [] {
      assert up + [q] == [q] && [q][1..] == [];
    } else {
      assert (up + [q])[1..] == up[1..] + [q];
      RequestWorkAppend(up[1..], q);
    }
  }

  lemma TakeResponseDescends(s: System, garbled: bool, budget: nat)
    requires SysInv(s) && s.link.down != []
    ensures Work(AfterTakeResponse(s, Client.Handle(s.client, s.link.down[0], garbled, budget))) < Work(s)
  {
    hide StillStale, StillAstray, ChangedKeys, MovedIDs, Toggled, Client.Candidate, BodiesOk, ClientOk, HeldOk,
      ContentOk, WellKeyed;
    var h := Client.Handle(s.client, s.link.down[0], garbled, budget);
    assert Names(s.link, s.link.down[0].nonce, Issue(s.link.down[0].typeUrl, s.link.down[0].version));
    assert h.reply.nonce == s.link.down[0].nonce >= 1;
    RequestWorkAppend(s.link.up, h.reply);
  }

  /** Every step of its own brings the system closer to its end. */
  lemma Descends(s: System, a: Action)
    requires SysInv(s) && Enabled(s, a) && Internal(a)
    ensures Work(Next(s, a)) < Work(s)
  {
    hide SysInv;
    match a
    case TakeResponse(garbled, budget) => TakeResponseDescends(s, garbled, budget);
    case _ =>
  }

  /** A push loop that has begun has a type to look at. */
  predicate PhaseOk(s: System) {
    s.phase.Pushing? ==> s.phase.rest != []
  }

  lemma StepPhase(s: System, a: Action)
    requires PhaseOk(s) && Enabled(s, a)
    ensures PhaseOk(Next(s, a))
  {
    hide StillStale, StillAstray, ChangedKeys, MovedIDs, Toggled, Client.Handle, Carries;
  }

  /** The store can always be listed. */
  lemma {:induction false} PoliciesListed(m: map<PolicyRuleKey, PolicyRule>) returns (ps: seq<PolicyRule>)
    requires forall k :: k in m ==> m[k].key == k
    ensures ListsPolicies(ps, m)
    decreases |m|
  {
    if m == map[] {
      ps := [];
    } else {
      var k :| k in m;
      var rest := PoliciesListed(m - {k});
      ps := rest + [m[k]];
      PolicyTableKeys(rest);
      assert ps[..|rest|] == rest;
      assert (m - {k})[k := m[k]] == m;
    }
  }

  lemma {:induction false} IdentitiesListed(m: map<IdentityID, Identity>) returns (ids: seq<Identity>)
    requires forall k :: k in m ==> m[k].id == k
    ensures ListsIdentities(ids, m)
    decreases |m|
  {
    if m == map[] {
      ids := [];
    } else {
      var k :| k in m;
      var rest := IdentitiesListed(m - {k});
      ids := rest + [m[k]];
      IdentityTableUnique(rest);
      assert ids[..|rest|] == rest;
      assert (m - {k})[k := m[k]] == m;
    }
  }

  lemma CanRead(s: System, t: TypeUrl) returns (body: Body)
    requires WellKeyed(s.store)
    ensures Carries(body, t, s.store)
  {
    match t
    case Cluster =>
      var ps := PoliciesListed(s.store.policies);
      body := Policies(ps);
    case Endpoint =>
      var ids := IdentitiesListed(s.store.identities);
      body := Identities(ids);
    case _ => body := Nothing;
  }

  /** A system that is not quiet can take a step of its own. */
  lemma Progress(s: System) returns (a: Action)
    requires WellKeyed(s.store) && PhaseOk(s) && !Quiet(s)
    ensures Enabled(s, a) && Internal(a) && Willing(s, a)
  {
    if s.writers > 0 {
      a := Notify;
    } else if s.phase.Loaded? {
      a := Transmit;
    } else if s.phase.Pushing? {
      if s.phase.rest[0] in s.subscribed {
        var body := CanRead(s, s.phase.rest[0]);
        a := Load(body);
      } else {
        a := Skip;
      }
    } else if s.slot {
      a := Wake;
    } else if s.link.down != [] {
      a := TakeResponse(false, |PushAcceptance.OpsAsked(s.client.applied, s.link.down[0].body)|);
    } else {
      a := TakeRequest;
    }
  }

  lemma {:induction false} ReachablePhase(ss: seq<System>, acts: seq<Action>, i: nat)
    requires IsExecution(ss, acts) && i < |ss|
    ensures PhaseOk(ss[i])
  {
    hide PhaseOk;
    if i > 0 {
      ReachablePhase(ss, acts, i - 1);
      assert IsStep(ss[i - 1], acts[i - 1], ss[i]);
      StepPhase(ss[i - 1], acts[i - 1]);
    } else {
      StartPhase(ss[0].store);
    }
  }

  lemma StartPhase(store: Content)
    ensures PhaseOk(Start(store))
  {
  }

  /** Left alone from any point of a run, the system takes at most as many steps as there is work. */
  lemma {:induction false} SettlesInTime(ss: seq<System>, acts: seq<Action>, i: nat, j: nat)
    requires IsExecution(ss, acts) && i <= j < |ss| && forall k :: i <= k < j ==> Internal(acts[k])
    ensures Work(ss[j]) + (j - i) <= Work(ss[i])
  {
    hide SysInv, Work, Next, Enabled;
    if i < j {
      SettlesInTime(ss, acts, i, j - 1);
      ReachableInv(ss, acts, j - 1);
      assert IsStep(ss[j - 1], acts[j - 1], ss[j]);
      Descends(ss[j - 1], acts[j - 1]);
    }
  }

  /** Where it can take no further step of its own, it is quiet. */
  lemma StuckIsQuiet(ss: seq<System>, acts: seq<Action>, i: nat)
    requires IsExecution(ss, acts) && i < |ss| && forall a :: Internal(a) ==> !Enabled(ss[i], a)
    ensures Quiet(ss[i])
  {
    if !Quiet(ss[i]) {
      hide IsExecution, Quiet, Enabled, Internal;
      ReachableInv(ss, acts, i);
      ReachablePhase(ss, acts, i);
      var a := Progress(ss[i]);
    }
  }

  /** Steps of its own lead the system to a quiet state. */
  lemma QuietReachable(s: System) returns (ss: seq<System>, acts: seq<Action>)
    requires SysInv(s) && PhaseOk(s)
    ensures IsRun(ss, acts) && ss[0] == s && AllInternal(acts) && AllWilling(ss, acts) && Quiet(ss[|acts|])
    decreases Work(s)
  {
    hide SysInv, Work, Enabled, Next, PhaseOk, WellKeyed, Internal, Willing;
    if Quiet(s) {
      ss, acts := [s], [];
    } else {
      StoreListed(s);
      var a := Progress(s);
      StepInv(s, a);
      StepPhase(s, a);
      Descends(s, a);
      var rest, more := QuietReachable(Next(s, a));
      ss, acts := [s] + rest, [a] + more;
      assert forall i :: 0 < i < |ss| ==> ss[i] == rest[i - 1];
      assert forall i :: 0 < i < |acts| ==> acts[i] == more[i - 1];
    }
  }

  /** So from every state of every run. */
  lemma CanSettle(ss: seq<System>, acts: seq<Action>, i: nat) returns (more: seq<System>, steps: seq<Action>)
    requires IsExecution(ss, acts) && i < |ss|
    ensures IsRun(more, steps) && more[0] == ss[i] && AllInternal(steps) && Quiet(more[|steps|])
  {
    hide SysInv, PhaseOk, IsExecution, Quiet, AllWilling;
    ReachableInv(ss, acts, i);
    ReachablePhase(ss, acts, i);
    more, steps := QuietReachable(ss[i]);
  }

  lemma StoreListed(s: System)
    requires SysInv(s)
    ensures WellKeyed(s.store)
  {
  }

  /** So it settles on the store: a run that has been left alone until no step is possible, and whose stream
      saw no rejection, ends with the store's content applied. */
  lemma SettlesOnStore(ss: seq<System>, acts: seq<Action>)
    requires IsExecution(ss, acts)
    requires !ss[|acts|].link.log.rejected && forall a :: Internal(a) ==> !Enabled(ss[|acts|], a)
    ensures PolicyTable(ss[|acts|].client.applied.policies) == ss[|acts|].store.policies
    ensures IdentityTable(ss[|acts|].client.applied.identities) == ss[|acts|].store.identities
  {
    hide Quiet, Enabled, Internal, Acknowledged, PolicyTable, IdentityTable;
    var n := |acts|;
    StuckIsQuiet(ss, acts, n);
    QuietAcknowledged(ss, acts, n, Cluster);
    QuietAcknowledged(ss, acts, n, Endpoint);
    NoLostUpdate(ss, acts, n);
  }
}

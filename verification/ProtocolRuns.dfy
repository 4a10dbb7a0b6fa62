/** What holds over every run of the control path, in any interleaving. */
module ProtocolRuns {
  import opened Wire
  import opened Translate
  import opened Diff
  import opened Store
  import opened Ads
  import opened Handshake
  import opened PolicyMapRefinement
  import opened Protocol
  import Ids = IdentityMapRefinement
  import Fail = IdentityFailures
  import Client = XdsClient
  import Datapath

  /** `ss` are the states of a run of `acts`. */
  predicate IsRun(ss: seq<System>, acts: seq<Action>) {
    |ss| == |acts| + 1 && forall i :: 0 <= i < |acts| ==> IsStep(ss[i], acts[i], ss[i + 1])
  }

  predicate IsStep(s: System, a: Action, s': System) {
    Enabled(s, a) && s' == Next(s, a)
  }

  lemma StepKeepsInv(s: System, a: Action, s': System)
    requires SysInv(s) && IsStep(s, a, s')
    ensures SysInv(s')
  {
    StepInv(s, a);
  }

  lemma {:induction false} RunInv(ss: seq<System>, acts: seq<Action>, i: nat)
    requires IsRun(ss, acts) && SysInv(ss[0]) && i < |ss|
    ensures SysInv(ss[i])
  {
    hide SysInv, IsStep;
    if i > 0 {
      RunInv(ss, acts, i - 1);
      StepKeepsInv(ss[i - 1], acts[i - 1], ss[i]);
    }
  }

  /** A run of the control path from an initial store and a fresh agent. */
  predicate IsExecution(ss: seq<System>, acts: seq<Action>) {
    IsRun(ss, acts) && WellKeyed(ss[0].store) && ss[0] == Start(ss[0].store)
  }

  lemma ReachableInv(ss: seq<System>, acts: seq<Action>, i: nat)
    requires IsExecution(ss, acts) && i < |ss|
    ensures SysInv(ss[i])
  {
    hide SysInv, IsStep, WellKeyed;
    StartInv(ss[0].store);
    RunInv(ss, acts, i);
  }

  /** Nothing pending in the store, the watch, the server or the channels. */
  predicate Quiet(s: System) {
    s.writers == 0 && !s.slot && s.phase.Idle? && s.link.down == [] && s.link.up == []
  }

  /** The server has seen its last push of this type acknowledged. */
  predicate Acknowledged(s: System, t: TypeUrl) {
    Of(s.link.stream, t).acked == Of(s.link.stream, t).sent
  }

  /** In any state the invariant holds of, a quiet system whose last push of a type was acknowledged
      has an agent that applied exactly what the store holds. */
  lemma QuietContent(s: System, t: TypeUrl)
    requires SysInv(s) && Quiet(s) && (t == Cluster || t == Endpoint)
    requires Acknowledged(s, t)
    ensures Carries(View(s.client, t), t, s.store)
  {
    hide Handshake.Inv, BodiesOk, ClientOk, WellKeyed, Carries, View, LastOf;
    QuietSettled(s.link, t);
    NothingDown(s.link.down, t);
    assert ContentOk(s, t);
    assert !RereadDue(s, t) && !SubscriptionDue(s.link, t);
    assert Latest(s, t) == Some(s.link.log.seen[t].body);
  }

  lemma NothingDown(q: seq<Response>, t: TypeUrl)
    requires |q| == 0
    ensures LastOf(q, t) == None
  {
  }

  lemma QuietMatches(s: System)
    requires SysInv(s) && Quiet(s) && Acknowledged(s, Cluster) && Acknowledged(s, Endpoint)
    ensures PolicyTable(s.client.applied.policies) == s.store.policies
    ensures IdentityTable(s.client.applied.identities) == s.store.identities
    ensures forall k :: TranslateKey(k) in s.stale <==> Read(s.client.writer, k) != Stored(s.store, k)
  {
    hide Handshake.Inv, BodiesOk, ContentOk, HeldOk, WellKeyed, Quiet, Acknowledged, PolicyTable, IdentityTable,
      UniquePolicies, UniqueIdentities, Read;
    QuietContent(s, Cluster);
    QuietContent(s, Endpoint);
  }

  /** What policy_map should hold for a key of the store. */
  function Stored(c: Content, k: PolicyRuleKey): Option<PolicyMapVerdict> {
    if k in c.policies then Some(TranslateVerdict(c.policies[k].verdict)) else None
  }

  /** No lost update: whatever the interleaving of writes, notifications, wake-ups, re-reads, pushes,
      answers, rejections, stopped kernel updates and reconnects, once nothing is pending and the last
      pushes were acknowledged, the agent's snapshot is the store's contents, and policy_map is right at
      exactly the keys that are not stale. */
  lemma NoLostUpdate(ss: seq<System>, acts: seq<Action>, i: nat)
    requires IsExecution(ss, acts) && i < |ss|
    requires Quiet(ss[i]) && Acknowledged(ss[i], Cluster) && Acknowledged(ss[i], Endpoint)
    ensures PolicyTable(ss[i].client.applied.policies) == ss[i].store.policies
    ensures IdentityTable(ss[i].client.applied.identities) == ss[i].store.identities
    ensures forall k :: TranslateKey(k) in ss[i].stale <==> Read(ss[i].client.writer, k) != Stored(ss[i].store, k)
  {
    hide SysInv, IsStep, IsExecution, Quiet, Acknowledged, PolicyTable, IdentityTable, Read, Stored;
    ReachableInv(ss, acts, i);
    QuietMatches(ss[i]);
  }

  /** If the agent rejected nothing on the current stream, a quiet system is always acknowledged. */
  lemma QuietAcknowledged(ss: seq<System>, acts: seq<Action>, i: nat, t: TypeUrl)
    requires IsExecution(ss, acts) && i < |ss|
    requires Quiet(ss[i]) && !ss[i].link.log.rejected
    ensures Acknowledged(ss[i], t)
  {
    hide IsExecution, BodiesOk, ClientOk, ContentOk, WellKeyed, Handshake.Inv;
    ReachableInv(ss, acts, i);
    QuietSettled(ss[i].link, t);
  }

  /** ACK soundness: per type, accepted by the server <= applied by the agent <= sent; the version applied
      on the stream is the one the agent itself reports; and what the agent holds is the body that was
      pushed under that version, whatever was rejected since. */
  lemma AckSoundness(ss: seq<System>, acts: seq<Action>, i: nat, t: TypeUrl)
    requires IsExecution(ss, acts) && i < |ss|
    ensures Of(ss[i].link.stream, t).acked <= AppliedVersion(ss[i].link, t) <= Of(ss[i].link.stream, t).sent
    ensures t in ss[i].link.log.applied ==>
              t in ss[i].held && ss[i].held[t].version == AppliedVersion(ss[i].link, t)
    ensures t in ss[i].held ==>
              && Client.Accepted(ss[i].client, t) == ss[i].held[t].version
              && View(ss[i].client, t) == ss[i].held[t].body
    ensures t !in ss[i].held ==> View(ss[i].client, t) == View(Client.FRESH, t)
  {
    hide IsExecution, BodiesOk, ContentOk, WellKeyed, PoliciesAgree, LastOf, InFlight, UniquePolicies,
      UniqueIdentities, View;
    ReachableInv(ss, acts, i);
    assert TypeOk(ss[i].link, t);
  }

  /** The store held this at some moment up to the i-th state. */
  ghost predicate WasStored(ss: seq<System>, i: nat, t: TypeUrl, b: Body)
    requires i < |ss|
  {
    exists k :: 0 <= k <= i && Carries(b, t, ss[k].store)
  }

  /** Everything read, in flight or held was once the store's content. */
  ghost predicate Provenance(ss: seq<System>, i: nat)
    requires i < |ss|
  {
    var s := ss[i];
    && (s.phase.Loaded? ==> WasStored(ss, i, s.phase.typeUrl, s.phase.body))
    && (forall j :: 0 <= j < |s.link.down| ==> WasStored(ss, i, s.link.down[j].typeUrl, s.link.down[j].body))
    && (forall t :: t in s.held ==> s.held[t].typeUrl == t && WasStored(ss, i, t, s.held[t].body))
  }

  lemma StoredLater(ss: seq<System>, i: nat, t: TypeUrl, b: Body)
    requires i + 1 < |ss| && WasStored(ss, i, t, b)
    ensures WasStored(ss, i + 1, t, b)
  {
    var k :| 0 <= k <= i && Carries(b, t, ss[k].store);
  }

  lemma ProvenanceFrame(ss: seq<System>, i: nat)
    requires i + 1 < |ss| && Provenance(ss, i)
    requires ss[i + 1].held == ss[i].held
    requires ss[i + 1].link.down == ss[i].link.down || ss[i + 1].link.down == []
    requires ss[i + 1].phase == ss[i].phase || !ss[i + 1].phase.Loaded?
    ensures Provenance(ss, i + 1)
  {
    hide WasStored;
    forall t, b | WasStored(ss, i, t, b) ensures WasStored(ss, i + 1, t, b) { StoredLater(ss, i, t, b); }
  }

  lemma ProvenanceMoves(ss: seq<System>, i: nat)
    requires i + 1 < |ss| && Provenance(ss, i)
    requires || (ss[i].phase.Loaded? && ss[i + 1] == AfterTransmit(ss[i]))
             || (ss[i].link.down != [] && exists h :: ss[i + 1] == AfterTakeResponse(ss[i], h))
    ensures Provenance(ss, i + 1)
  {
    hide WasStored, StillStale, StillAstray, ChangedKeys, MovedIDs, Toggled;
    var s, s' := ss[i], ss[i + 1];
    forall t, b | WasStored(ss, i, t, b) ensures WasStored(ss, i + 1, t, b) { StoredLater(ss, i, t, b); }
    if s.phase.Loaded? && s' == AfterTransmit(s) {
      assert forall j :: 0 <= j < |s.link.down| ==> s'.link.down[j] == s.link.down[j];
    } else {
      assert forall j :: 0 <= j < |s'.link.down| ==> s'.link.down[j] == s.link.down[j + 1];
    }
  }

  lemma ProvenanceLoad(ss: seq<System>, i: nat, body: Body)
    requires i + 1 < |ss| && Provenance(ss, i)
    requires ss[i].phase.Pushing? && ss[i].phase.rest != [] && Carries(body, ss[i].phase.rest[0], ss[i].store)
    requires ss[i + 1] == AfterLoad(ss[i], body)
    ensures Provenance(ss, i + 1)
  {
    hide WasStored, Carries;
    forall t, b | WasStored(ss, i, t, b) ensures WasStored(ss, i + 1, t, b) { StoredLater(ss, i, t, b); }
    JustRead(ss, i, ss[i].phase.rest[0], body);
  }

  lemma ProvenanceStep(ss: seq<System>, acts: seq<Action>, i: nat)
    requires IsRun(ss, acts) && i < |acts| && Provenance(ss, i)
    ensures Provenance(ss, i + 1)
  {
    hide Provenance, Carries, Mutate, StillStale, StillAstray, ChangedKeys, MovedIDs, Toggled, Client.Handle;
    assert IsStep(ss[i], acts[i], ss[i + 1]);
    match acts[i]
    case Load(body) => ProvenanceLoad(ss, i, body);
    case Transmit => ProvenanceMoves(ss, i);
    case TakeResponse(_, _) => ProvenanceMoves(ss, i);
    case _ => ProvenanceFrame(ss, i);
  }

  lemma JustRead(ss: seq<System>, i: nat, t: TypeUrl, b: Body)
    requires i < |ss| && Carries(b, t, ss[i].store)
    ensures WasStored(ss, i, t, b)
  {
  }

  lemma {:induction false} ProvenanceRun(ss: seq<System>, acts: seq<Action>, i: nat)
    requires IsExecution(ss, acts) && i < |ss|
    ensures Provenance(ss, i)
  {
    hide IsStep, Provenance;
    if i > 0 {
      ProvenanceRun(ss, acts, i - 1);
      ProvenanceStep(ss, acts, i - 1);
    } else {
      StartProvenance(ss);
    }
  }

  lemma StartProvenance(ss: seq<System>)
    requires ss != [] && ss[0] == Start(ss[0].store)
    ensures Provenance(ss, 0)
  {
  }

  /** Nothing is made up: in every reachable state, what the agent holds of a type is what it started
      with, or exactly what the store held at some earlier moment. */
  lemma HeldWasStored(ss: seq<System>, acts: seq<Action>, i: nat, t: TypeUrl)
    requires IsExecution(ss, acts) && i < |ss|
    ensures View(ss[i].client, t) == View(Client.FRESH, t) ||
            exists k :: 0 <= k <= i && Carries(View(ss[i].client, t), t, ss[k].store)
  {
    hide IsExecution, Carries, View;
    ProvenanceRun(ss, acts, i);
    AckSoundness(ss, acts, i, t);
  }

  /** On one stream the accepted and the applied version never go down. */
  lemma {:induction false} VersionsMonotone(ss: seq<System>, acts: seq<Action>, i: nat, j: nat, t: TypeUrl)
    requires IsExecution(ss, acts) && i <= j < |ss|
    requires forall k :: i <= k < j ==> !acts[k].Reconnect?
    ensures Of(ss[i].link.stream, t).acked <= Of(ss[j].link.stream, t).acked
    ensures AppliedVersion(ss[i].link, t) <= AppliedVersion(ss[j].link, t)
  {
    hide SysInv, IsStep;
    if i < j {
      VersionsMonotone(ss, acts, i, j - 1, t);
      ReachableInv(ss, acts, j - 1);
      StepMonotone(ss[j - 1], acts[j - 1], ss[j], t);
    }
  }

  lemma StepMonotone(s: System, a: Action, s': System, t: TypeUrl)
    requires SysInv(s) && IsStep(s, a, s') && !a.Reconnect?
    ensures Of(s.link.stream, t).acked <= Of(s'.link.stream, t).acked
    ensures AppliedVersion(s.link, t) <= AppliedVersion(s'.link, t)
  {
    hide StillStale, StillAstray, ChangedKeys, MovedIDs, Toggled, BodiesOk, ClientOk, HeldOk, ContentOk, WellKeyed;
    match a
    case TakeRequest => ReceiveMonotone(s.link, t);
    case TakeResponse(garbled, budget) =>
      AnswerMonotone(s.link, Client.Handle(s.client, s.link.down[0], garbled, budget).reply, t);
    case _ =>
  }

  lemma AnswerMonotone(l: Link, reply: Request, t: TypeUrl)
    requires Handshake.Inv(l) && l.down != []
    ensures AppliedVersion(l, t) <= AppliedVersion(Answer(l, reply), t)
  {
    assert TypeOk(l, l.down[0].typeUrl);
    assert SeenVersion(l, l.down[0].typeUrl) < l.down[0].version;
  }

  /** Every identity the control plane stores has its one address. */
  predicate MutationAtHome(m: Mutation, home: map<IdentityID, U32>) {
    m.PutIdentity? ==> m.identity.id in home && NetworkKey(m.identity) == Some(home[m.identity.id])
  }

  ghost predicate BodyAtHome(b: Body, home: map<IdentityID, U32>) {
    b.Identities? ==> Ids.AtHome(b.identities, home)
  }

  ghost predicate TableAtHome(m: map<IdentityID, Identity>, home: map<IdentityID, U32>) {
    forall k :: k in m ==> m[k].id in home && NetworkKey(m[k]) == Some(home[m[k].id])
  }

  ghost predicate HomeInv(s: System, home: map<IdentityID, U32>) {
    && TableAtHome(s.store.identities, home)
    && (forall i :: 0 <= i < |s.link.down| ==> BodyAtHome(s.link.down[i].body, home))
    && (s.phase.Loaded? ==> BodyAtHome(s.phase.body, home))
    && Ids.AtHome(s.client.applied.identities, home)
    && Fail.Paired(s.client.writer, home)
    && PlacedOk(s.client.writer, s.client.applied, s.astray)
  }

  /** The writer places the snapshot's identities, and differs from it exactly at those of a set. */
  ghost predicate PlacedOk(w: Datapath.State, snap: Snapshot, astray: set<IdentityID>) {
    forall x: IdentityID :: x in astray <==> (x in w.keyByID <==> x !in IdentityTable(snap.identities))
  }

  lemma ListedAtHome(ids: seq<Identity>, m: map<IdentityID, Identity>, home: map<IdentityID, U32>)
    requires ListsIdentities(ids, m) && TableAtHome(m, home)
    ensures Ids.AtHome(ids, home)
  {
    IdentityTableUnique(ids);
    forall d | d in ids ensures d.id in home && NetworkKey(d) == Some(home[d.id]) {
      var i :| 0 <= i < |ids| && ids[i] == d;
      assert m[d.id] == d;
    }
  }

  /** However far it gets, handling a push keeps the writer's two maps paired. */
  lemma HandledPaired(c: Client.State, r: Response, garbled: bool, budget: nat, home: map<IdentityID, U32>)
    requires Shape(r.body, r.typeUrl) && BodyAtHome(r.body, home)
    requires UniqueIdentities(c.applied.identities) && Ids.AtHome(c.applied.identities, home)
    requires Ids.Unshared(home) && Fail.Paired(c.writer, home)
    ensures Fail.Paired(Client.Handle(c, r, garbled, budget).state.writer, home)
  {
    hide Fail.Paired, Plan, Datapath.Ops, Datapath.Run, Datapath.ExecAll;
    var next := Client.Candidate(c.applied, r.typeUrl, r.body, garbled);
    if next.Some? {
      var ops := Datapath.Ops(Plan(c.applied, next.value));
      Fail.PlanAtHome(c.applied, next.value, home);
      var n := RunIsPrefix(ops, c.writer, budget);
      Fail.ExecAllPaired(ops[..n], c.writer, home);
    }
  }

  lemma CompletePlaces(w: Datapath.State, was: Snapshot, now: Snapshot, astray: set<IdentityID>,
                       home: map<IdentityID, U32>)
    requires UniqueIdentities(was.identities) && UniqueIdentities(now.identities) && Ids.AtHome(now.identities, home)
    requires Ids.Unshared(home) && Fail.Paired(w, home) && PlacedOk(w, was, astray)
    ensures PlacedOk(Datapath.ExecAll(Datapath.Ops(Plan(was, now)), w), now, StillAstray(astray, was, now))
  {
    hide Fail.Paired, Plan, Datapath.Ops, Datapath.ExecAll, IdentityTable, UniqueIdentities, Ids.AtHome, Ids.Unshared,
      Fail.Mentions, Fail.HomeOp;
    Fail.PlanAtHome(was, now, home);
    var ops := Datapath.Ops(Plan(was, now));
    forall x: IdentityID
      ensures x in StillAstray(astray, was, now) <==>
              (x in Datapath.ExecAll(ops, w).keyByID <==> x !in IdentityTable(now.identities))
    {
      Fail.PlanMentions(was, now, x);
      Fail.PresentAfter(ops, w, home, x, x in IdentityTable(now.identities));
    }
  }

  /** Where a stopped update places an identity, or takes it away, right and wrong change places. */
  lemma StoppedPlaces(w: Datapath.State, w': Datapath.State, snap: Snapshot, astray: set<IdentityID>)
    requires PlacedOk(w, snap, astray)
    ensures PlacedOk(w', snap, Toggled(astray, MovedIDs(w, w')))
  {
    hide IdentityTable;
    forall x: IdentityID
      ensures x in Toggled(astray, MovedIDs(w, w')) <==> (x in w'.keyByID <==> x !in IdentityTable(snap.identities))
    {
      assert x in MovedIDs(w, w') <==> (x in w.keyByID <==> x !in w'.keyByID);
      assert x in astray <==> (x in w.keyByID <==> x !in IdentityTable(snap.identities));
    }
  }

  lemma HomeTakeResponse(s: System, h: Client.Handled, home: map<IdentityID, U32>)
    requires s.link.down != [] && PushEffect(s.client, s.link.down[0], h)
    requires ClientOk(s) && BodiesOk(s) && HomeInv(s, home) && Ids.Unshared(home)
    requires Fail.Paired(h.state.writer, home)
    ensures HomeInv(AfterTakeResponse(s, h), home)
  {
    hide Fail.Paired, StillAstray, StillStale, ChangedKeys, MovedIDs, Toggled, StoppedOn, PlacedOk, Plan, Datapath.Ops,
      Datapath.ExecAll, IdentityTable, PolicyTable, PoliciesAgree, UniquePolicies, UniqueIdentities;
    var s', r := AfterTakeResponse(s, h), s.link.down[0];
    assert forall i :: 0 <= i < |s'.link.down| ==> s'.link.down[i] == s.link.down[i + 1];
    assert View(h.state, Endpoint) ==
           if r.typeUrl == Endpoint && !h.reply.error then r.body else View(s.client, Endpoint);
    if !h.reply.error {
      CompletePlaces(s.client.writer, s.client.applied, h.state.applied, s.astray, home);
    } else {
      StoppedPlaces(s.client.writer, h.state.writer, s.client.applied, s.astray);
    }
  }

  lemma HomeLoad(s: System, body: Body, home: map<IdentityID, U32>)
    requires HomeInv(s, home) && s.phase.Pushing? && s.phase.rest != []
    requires Carries(body, s.phase.rest[0], s.store)
    ensures HomeInv(AfterLoad(s, body), home)
  {
    if s.phase.rest[0] == Endpoint {
      ListedAtHome(body.identities, s.store.identities, home);
    }
  }

  lemma HomeTransmit(s: System, home: map<IdentityID, U32>)
    requires HomeInv(s, home) && s.phase.Loaded?
    ensures HomeInv(AfterTransmit(s), home)
  {
    var s' := AfterTransmit(s);
    assert forall i :: 0 <= i < |s.link.down| ==> s'.link.down[i] == s.link.down[i];
  }

  lemma HomeStep(s: System, a: Action, s': System, home: map<IdentityID, U32>)
    requires SysInv(s) && HomeInv(s, home) && Ids.Unshared(home) && IsStep(s, a, s')
    requires a.Write? ==> MutationAtHome(a.mutation, home)
    ensures HomeInv(s', home)
  {
    hide SysInv, HomeInv;
    match a
    case Write(m) => HomeWrite(s, m, home);
    case Load(body) => HomeLoad(s, body, home);
    case Transmit => HomeTransmit(s, home);
    case TakeResponse(garbled, budget) => HomeHandled(s, garbled, budget, home);
    case _ => HomeFrame(s, s', home);
  }

  lemma HomeWrite(s: System, m: Mutation, home: map<IdentityID, U32>)
    requires HomeInv(s, home) && MutationAtHome(m, home)
    ensures HomeInv(AfterWrite(s, m), home)
  {
  }

  lemma HomeHandled(s: System, garbled: bool, budget: nat, home: map<IdentityID, U32>)
    requires SysInv(s) && HomeInv(s, home) && Ids.Unshared(home) && s.link.down != []
    ensures HomeInv(AfterTakeResponse(s, Client.Handle(s.client, s.link.down[0], garbled, budget)), home)
  {
    hide Handshake.Inv, Fail.Paired, PlacedOk, Client.Handle, ContentOk, HeldOk;
    HandledInv(s, garbled, budget);
    HandledPaired(s.client, s.link.down[0], garbled, budget, home);
    HomeTakeResponse(s, Client.Handle(s.client, s.link.down[0], garbled, budget), home);
  }

  lemma HomeFrame(s: System, s': System, home: map<IdentityID, U32>)
    requires HomeInv(s, home)
    requires s'.store == s.store && s'.client == s.client && s'.astray == s.astray
    requires s'.link.down == s.link.down || s'.link.down == []
    requires s'.phase == s.phase || !s'.phase.Loaded?
    ensures HomeInv(s', home)
  {
  }

  /** Every identity written in the run, or stored at its start, has its one unshared address. */
  ghost predicate StableAddresses(ss: seq<System>, acts: seq<Action>, home: map<IdentityID, U32>)
    requires ss != []
  {
    && Ids.Unshared(home) && TableAtHome(ss[0].store.identities, home)
    && forall i :: 0 <= i < |acts| && acts[i].Write? ==> MutationAtHome(acts[i].mutation, home)
  }

  lemma {:induction false} HomeRun(ss: seq<System>, acts: seq<Action>, i: nat, home: map<IdentityID, U32>)
    requires IsExecution(ss, acts) && i < |ss| && StableAddresses(ss, acts, home)
    ensures HomeInv(ss[i], home)
  {
    hide SysInv, IsStep;
    if i > 0 {
      HomeRun(ss, acts, i - 1, home);
      ReachableInv(ss, acts, i - 1);
      HomeStep(ss[i - 1], acts[i - 1], ss[i], home);
    }
  }

  /** The kernel maps and the applied snapshot in every reachable state, not only in quiet ones: policy_map
      differs exactly at the stale keys, and under stable addresses identity_map is exact exactly when no
      identity is astray. */
  lemma KernelRefinesApplied(ss: seq<System>, acts: seq<Action>, i: nat, home: map<IdentityID, U32>)
    requires IsExecution(ss, acts) && i < |ss|
    ensures forall k :: TranslateKey(k) in ss[i].stale <==>
              Read(ss[i].client.writer, k) != Wanted(ss[i].client.applied, k)
    ensures PoliciesInSync(ss[i].client.writer, ss[i].client.applied) <==> ss[i].stale == {}
    ensures StableAddresses(ss, acts, home) ==>
              (Ids.MapInSync(ss[i].client.writer, ss[i].client.applied.identities) <==> ss[i].astray == {})
  {
    hide IsExecution, BodiesOk, ContentOk, HeldOk, WellKeyed, Handshake.Inv, UniquePolicies, UniqueIdentities, Read,
      Wanted, PoliciesInSync, Fail.Paired, IdentityTable;
    ReachableInv(ss, acts, i);
    InSyncPointwise(ss[i].client.writer, ss[i].client.applied);
    EveryKeyIsWire(ss[i].stale);
    if StableAddresses(ss, acts, home) {
      HomeRun(ss, acts, i, home);
      Fail.InSyncMeansNamed(ss[i].client.writer, ss[i].client.applied.identities, home);
    }
  }

  lemma EveryKeyIsWire(stale: set<PolicyMapKey>)
    ensures stale == {} <==> forall k :: TranslateKey(k) !in stale
  {
    if k :| k in stale {
      assert TranslateKey(WireKey(k)) == k;
    }
  }

  /** With one stable unshared address per identity, identity_map places an identity where the store says,
      and nowhere else, exactly when it is not astray. */
  lemma NoLostIdentity(ss: seq<System>, acts: seq<Action>, i: nat, home: map<IdentityID, U32>, id: IdentityID)
    requires IsExecution(ss, acts) && i < |ss| && StableAddresses(ss, acts, home)
    requires Quiet(ss[i]) && Acknowledged(ss[i], Endpoint)
    ensures id !in ss[i].astray <==>
            forall addr: U32 :: Get(ss[i].client.writer.identityMap, addr) == Some(id) <==>
              id in ss[i].store.identities && NetworkKey(ss[i].store.identities[id]) == Some(addr)
  {
    hide IsExecution, BodiesOk, ContentOk, HeldOk, ClientOk, Handshake.Inv, Quiet, Acknowledged;
    ReachableInv(ss, acts, i);
    HomeRun(ss, acts, i, home);
    QuietContent(ss[i], Endpoint);
    var w, m := ss[i].client.writer, ss[i].store.identities;
    assert id in ss[i].astray <==> (id in w.keyByID <==> id !in m);
    hide HomeInv, Carries;
    PlacedMeans(w, m, home, id);
  }

  /** An identity is placed where a table says exactly when both or neither have it. */
  lemma PlacedMeans(w: Datapath.State, m: map<IdentityID, Identity>, home: map<IdentityID, U32>, id: IdentityID)
    requires Fail.Paired(w, home) && TableAtHome(m, home) && (id in m ==> m[id].id == id)
    ensures (id in w.keyByID <==> id in m) <==>
            forall addr: U32 :: Get(w.identityMap, addr) == Some(id) <==> id in m && NetworkKey(m[id]) == Some(addr)
  {
    forall addr: U32 ensures Get(w.identityMap, addr) == Some(id) <==> Get(w.keyByID, id) == Some(addr) {
      assert Fail.PairedAt(w, home, addr, id);
    }
    if id in w.keyByID {
      assert Fail.PairedAt(w, home, w.keyByID[id], id);
      assert Get(w.identityMap, w.keyByID[id]) == Some(id);
    }
    if id in m {
      assert NetworkKey(m[id]) == Some(home[id]);
      assert Get(w.identityMap, home[id]) == Some(id) <==> Get(w.keyByID, id) == Some(home[id]);
    }
  }

  /** No kernel update of the run stops half way: what decodes is applied in full. */
  ghost predicate NeverStops(ss: seq<System>, acts: seq<Action>)
    requires |ss| == |acts| + 1
  {
    forall i :: 0 <= i < |acts| && acts[i].TakeResponse? && ss[i].link.down != [] ==>
      var c, r := ss[i].client, ss[i].link.down[0];
      var next := Client.Candidate(c.applied, r.typeUrl, r.body, acts[i].garbled);
      next.Some? ==> Datapath.Run(Datapath.Ops(Plan(c.applied, next.value)), c.writer, acts[i].budget).ok
  }

  /** Such runs leave nothing stale and no one astray. */
  lemma {:induction false} CleanRun(ss: seq<System>, acts: seq<Action>, i: nat)
    requires IsExecution(ss, acts) && NeverStops(ss, acts) && i < |ss|
    ensures ss[i].stale == {} && ss[i].astray == {}
  {
    if i > 0 {
      CleanRun(ss, acts, i - 1);
      assert IsStep(ss[i - 1], acts[i - 1], ss[i]);
      hide Datapath.Run, Datapath.Ops, Plan, Client.Candidate, Answer, Receive, Send;
    }
  }

  /** Over every run of pushes that are applied in full or rejected at decoding, both kernel maps are exactly
      the applied snapshot in every state. */
  lemma CleanKernel(ss: seq<System>, acts: seq<Action>, i: nat, home: map<IdentityID, U32>)
    requires IsExecution(ss, acts) && NeverStops(ss, acts) && i < |ss|
    ensures PoliciesInSync(ss[i].client.writer, ss[i].client.applied)
    ensures StableAddresses(ss, acts, home) ==>
              Ids.MapInSync(ss[i].client.writer, ss[i].client.applied.identities)
  {
    hide IsExecution, NeverStops, PoliciesInSync, Ids.MapInSync, StableAddresses;
    CleanRun(ss, acts, i);
    KernelRefinesApplied(ss, acts, i, home);
  }

  /** And once such a run is quiet and acknowledged, policy_map is exactly the store's. */
  lemma CleanNoLostUpdate(ss: seq<System>, acts: seq<Action>, i: nat)
    requires IsExecution(ss, acts) && NeverStops(ss, acts) && i < |ss|
    requires Quiet(ss[i]) && Acknowledged(ss[i], Cluster) && Acknowledged(ss[i], Endpoint)
    ensures ss[i].client.writer.policyMap == KernelPolicies(ss[i].store.policies)
  {
    hide IsExecution, NeverStops, Quiet, Acknowledged, PolicyTable, KernelPolicies;
    NoLostUpdate(ss, acts, i);
    CleanKernel(ss, acts, i, map[]);
  }
}

/** The control path converges: once the store's content is acceptable, the system's own steps, and a new
    stream after a rejection, bring it to the agent. */
module ProtocolConvergence {
  import opened Wire
  import opened Diff
  import opened Store
  import opened Ads
  import opened Handshake
  import opened Protocol
  import opened ProtocolRuns
  import opened ProtocolProgress
  import opened PushAcceptance
  import Client = XdsClient

  predicate InRange(r: PolicyRule) {
    r.key.dir <= 1 && r.verdict.action <= 2
  }

  /** Content that the agent can decode and the kernel maps can hold. */
  ghost predicate Acceptable(c: Content) {
    && (forall k :: k in c.policies ==> InRange(c.policies[k]))
    && (forall x :: x in c.identities ==> HasAddress(c.identities[x]))
  }

  ghost predicate GoodBody(b: Body) {
    match b
    case Policies(ps) => forall r :: r in ps ==> InRange(r)
    case Identities(ids) => forall d :: d in ids ==> HasAddress(d)
    case Nothing => true
  }

  /** Nothing on this stream has been rejected, and nothing on its way will be. */
  ghost predicate Clear(s: System) {
    && Acceptable(s.store) && !s.link.log.rejected
    && (s.phase.Loaded? ==> GoodBody(s.phase.body))
    && forall i :: 0 <= i < |s.link.down| ==> GoodBody(s.link.down[i].body)
  }

  lemma ListedGood(b: Body, t: TypeUrl, c: Content)
    requires Carries(b, t, c) && Acceptable(c)
    ensures GoodBody(b)
  {
    hide HasAddress;
    match b
    case Policies(ps) =>
      if t == Cluster {
        PolicyTableUnique(ps);
        forall r | r in ps ensures InRange(r) {
          var i :| 0 <= i < |ps| && ps[i] == r;
          assert c.policies[r.key] == r;
        }
      }
    case Identities(ids) =>
      if t == Endpoint {
        IdentityTableUnique(ids);
        forall d | d in ids ensures HasAddress(d) {
          var i :| 0 <= i < |ids| && ids[i] == d;
          assert c.identities[d.id] == d;
        }
      }
    case Nothing =>
  }

  /** A good push is answered without error. */
  lemma GoodPushAccepted(c: Client.State, r: Response, budget: nat)
    requires UniqueIdentities(c.applied.identities) && Shape(r.body, r.typeUrl) && GoodBody(r.body)
    requires budget >= |OpsAsked(c.applied, r.body)|
    ensures !Client.Handle(c, r, false, budget).reply.error
    ensures View(Client.Handle(c, r, false, budget).state, r.typeUrl) == r.body
  {
    match r.typeUrl
    case Cluster =>
      PolicyPushAcceptedExactlyWhen(c, r.version, r.nonce, r.body.policies, budget);
    case Endpoint =>
      IdentityPushAcceptedExactlyWhen(c, r.version, r.nonce, r.body.identities, budget);
    case _ =>
      EmptyPushAccepted(c, r.typeUrl, r.version, r.nonce, budget);
  }

  lemma TakeGood(s: System, budget: nat)
    requires SysInv(s) && Clear(s) && s.link.down != []
    requires budget >= |OpsAsked(s.client.applied, s.link.down[0].body)|
    ensures Clear(AfterTakeResponse(s, Client.Handle(s.client, s.link.down[0], false, budget)))
  {
    hide Handshake.Inv, HeldOk, ContentOk, WellKeyed, Client.Handle, OpsAsked, GoodBody, Acceptable, StillStale,
      StillAstray, ChangedKeys, MovedIDs, Toggled, UniquePolicies, UniqueIdentities, Shape;
    GoodPushAccepted(s.client, s.link.down[0], budget);
  }

  lemma LoadGood(s: System, body: Body)
    requires Clear(s) && Enabled(s, Load(body))
    ensures Clear(AfterLoad(s, body))
  {
    hide GoodBody, Acceptable, Carries;
    ListedGood(body, s.phase.rest[0], s.store);
  }

  lemma TransmitGood(s: System)
    requires Clear(s) && s.phase.Loaded?
    ensures Clear(AfterTransmit(s))
  {
    hide GoodBody, Acceptable, Prepared;
  }

  /** Steps of its own, with a willing kernel, keep the stream clear. */
  lemma StepClear(s: System, a: Action)
    requires SysInv(s) && Clear(s) && Enabled(s, a) && Internal(a) && Willing(s, a)
    ensures Clear(Next(s, a))
  {
    match a
    case TakeResponse(_, budget) => TakeGood(s, budget);
    case Load(body) => LoadGood(s, body);
    case Transmit => TransmitGood(s);
    case _ => hide SysInv, GoodBody, Acceptable, Classified;
  }

  lemma StoreKept(s: System, a: Action)
    requires Enabled(s, a) && (Internal(a) || a.Reconnect?)
    ensures Next(s, a).store == s.store
  {
    hide Client.Handle, StillStale, StillAstray, ChangedKeys, MovedIDs, Toggled;
  }

  lemma {:induction false} RunKeepsStore(ss: seq<System>, acts: seq<Action>, i: nat)
    requires IsRun(ss, acts) && AllInternal(acts) && i < |ss|
    ensures ss[i].store == ss[0].store
  {
    hide Enabled, Next;
    if i > 0 {
      RunKeepsStore(ss, acts, i - 1);
      assert IsStep(ss[i - 1], acts[i - 1], ss[i]);
      StoreKept(ss[i - 1], acts[i - 1]);
    }
  }

  lemma {:induction false} RunClear(ss: seq<System>, acts: seq<Action>, i: nat)
    requires IsRun(ss, acts) && AllInternal(acts) && AllWilling(ss, acts) && i < |ss|
    requires SysInv(ss[0]) && Clear(ss[0])
    ensures Clear(ss[i])
  {
    hide Enabled, Next, SysInv, Clear, Willing;
    if i > 0 {
      RunClear(ss, acts, i - 1);
      RunInv(ss, acts, i - 1);
      assert IsStep(ss[i - 1], acts[i - 1], ss[i]);
      StepClear(ss[i - 1], acts[i - 1]);
    }
  }

  lemma ReopenedClear(s: System)
    requires Acceptable(s.store)
    ensures Clear(AfterReconnect(s)) && PhaseOk(AfterReconnect(s))
  {
  }

  /** Every step is the system's own, or a new stream after a push was rejected on the old one. */
  predicate Unforced(ss: seq<System>, acts: seq<Action>)
    requires |ss| == |acts| + 1
  {
    forall i :: 0 <= i < |acts| ==> Internal(acts[i]) || (acts[i] == Reconnect && ss[i].link.log.rejected)
  }

  /** The agent has what the store holds, and the server knows. */
  predicate Converged(s: System) {
    && Quiet(s) && Acknowledged(s, Cluster) && Acknowledged(s, Endpoint)
    && PolicyTable(s.client.applied.policies) == s.store.policies
    && IdentityTable(s.client.applied.identities) == s.store.identities
  }

  lemma QuietConverged(s: System)
    requires SysInv(s) && Quiet(s) && !s.link.log.rejected
    ensures Converged(s)
  {
    hide Handshake.Inv, BodiesOk, ClientOk, HeldOk, ContentOk, WellKeyed, PolicyTable, IdentityTable;
    QuietSettled(s.link, Cluster);
    QuietSettled(s.link, Endpoint);
    QuietMatches(s);
  }

  lemma Joined(a: seq<System>, x: seq<Action>, b: seq<System>, y: seq<Action>)
    requires IsRun(a, x) && IsRun(b, y) && IsStep(a[|x|], Reconnect, b[0])
    ensures IsRun(a + b, x + [Reconnect] + y)
  {
    hide IsStep;
    var ss, acts := a + b, x + [Reconnect] + y;
    forall i | 0 <= i < |acts| ensures IsStep(ss[i], acts[i], ss[i + 1]) {
      if i > |x| {
        var j := i - |x| - 1;
        assert acts[i] == y[j] && ss[i] == b[j] && ss[i + 1] == b[j + 1];
      } else if i < |x| {
        assert acts[i] == x[i] && ss[i] == a[i] && ss[i + 1] == a[i + 1];
      } else {
        assert acts[i] == Reconnect && ss[i] == a[i] && ss[i + 1] == b[0];
      }
    }
  }

  /** Convergence: from every state of every run whose store is acceptable, the system's own steps, with at
      most one new stream and that only after a rejection, lead to a quiet state in which both types are
      acknowledged and the agent holds exactly the store's content. */
  lemma Converges(ss: seq<System>, acts: seq<Action>, i: nat) returns (more: seq<System>, steps: seq<Action>)
    requires IsExecution(ss, acts) && i < |ss| && Acceptable(ss[i].store)
    ensures IsRun(more, steps) && more[0] == ss[i] && Unforced(more, steps)
    ensures forall j, k :: 0 <= j < |steps| && 0 <= k < |steps| && steps[j] == Reconnect == steps[k] ==> j == k
    ensures Converged(more[|steps|]) && more[|steps|].store == ss[i].store
  {
    hide SysInv, PhaseOk, IsExecution, Quiet, IsStep, AllWilling, Converged, Acceptable;
    ReachableInv(ss, acts, i);
    ReachablePhase(ss, acts, i);
    more, steps := QuietReachable(ss[i]);
    var n := |steps|;
    RunInv(more, steps, n);
    RunKeepsStore(more, steps, n);
    if !more[n].link.log.rejected {
      QuietConverged(more[n]);
    } else {
      var b, y := AfterRejection(more[n]);
      Joined(more, steps, b, y);
      more, steps := more + b, steps + [Reconnect] + y;
      assert forall j :: n < j < |steps| ==> steps[j] == y[j - n - 1];
    }
  }

  lemma AfterRejection(s: System) returns (ss: seq<System>, acts: seq<Action>)
    requires SysInv(s) && Acceptable(s.store)
    ensures IsRun(ss, acts) && IsStep(s, Reconnect, ss[0]) && AllInternal(acts)
    ensures Converged(ss[|acts|]) && ss[|acts|].store == s.store
  {
    hide SysInv, PhaseOk, Quiet, AllWilling, Converged, Acceptable, Clear;
    var s' := AfterReconnect(s);
    StepInv(s, Reconnect);
    ReopenedClear(s);
    ss, acts := QuietReachable(s');
    var n := |acts|;
    RunInv(ss, acts, n);
    RunKeepsStore(ss, acts, n);
    RunClear(ss, acts, n);
    NotRejected(ss[n]);
    QuietConverged(ss[n]);
  }

  lemma NotRejected(s: System)
    requires Clear(s)
    ensures !s.link.log.rejected
  {
  }

  /** Nor does it take a choice of steps: in every run, after a new stream over an acceptable store, whatever
      steps of its own the system takes with a willing kernel, it has converged once none is possible. */
  lemma EveryScheduleConverges(ss: seq<System>, acts: seq<Action>, i: nat)
    requires IsExecution(ss, acts) && i < |acts| && acts[i] == Reconnect && Acceptable(ss[i].store)
    requires AllInternal(acts[i + 1..]) && AllWilling(ss[i + 1..], acts[i + 1..])
    requires forall a :: Internal(a) ==> !Enabled(ss[|acts|], a)
    ensures Converged(ss[|acts|])
  {
    hide SysInv, Quiet, Enabled, Internal, Next, Converged, Acceptable, Clear, WellKeyed, Willing;
    var tail, more := ss[i + 1..], acts[i + 1..];
    var n := |more|;
    assert IsStep(ss[i], Reconnect, tail[0]);
    ReopenedFirst(ss[i], tail[0]);
    forall j | 0 <= j < n ensures IsStep(tail[j], more[j], tail[j + 1]) {
      assert IsStep(ss[i + 1 + j], acts[i + 1 + j], ss[i + 2 + j]);
    }
    ReachableInv(ss, acts, i + 1);
    RunClear(tail, more, n);
    StuckIsQuiet(ss, acts, |acts|);
    ReachableInv(ss, acts, |acts|);
    NotRejected(tail[n]);
    QuietConverged(tail[n]);
  }

  lemma ReopenedFirst(s: System, s': System)
    requires IsStep(s, Reconnect, s') && Acceptable(s.store)
    ensures Clear(s')
  {
    ReopenedClear(s);
  }
}

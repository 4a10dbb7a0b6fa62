/** The whole control path as a step system: writers mutate the store and notify in separate
    critical sections, the server wakes, re-reads the store once per type and pushes, the agent
    applies and answers, and the stream may break and be reopened at any time. */
module Protocol {
  import opened Wire
  import opened Translate
  import opened Diff
  import opened Store
  import opened Ads
  import opened Handshake
  import opened PolicyMapRefinement
  import Client = XdsClient
  import Datapath

  /** Where the server's stream loop is: between events, about to push the types in `rest`, or
      holding the resources it read for one type. */
  datatype Phase = Idle | Pushing(rest: seq<TypeUrl>) | Loaded(typeUrl: TypeUrl, body: Body, rest: seq<TypeUrl>)

  /** `writers` have mutated but not yet notified; `slot` is the watch channel. The last three fields
      record the past: the push last accepted per type, and the policy keys and identities that kernel
      updates which stopped half way left changed and no accepted push has rewritten since. */
  datatype System = System(
    store: Content,
    writers: nat,
    slot: bool,
    subscribed: set<TypeUrl>,
    phase: Phase,
    link: Link,
    client: Client.State,
    held: map<TypeUrl, Response>,
    stale: set<PolicyMapKey>,
    astray: set<IdentityID>)

  function Start(store: Content): System {
    System(store, 0, false, {}, Idle, OPEN, Client.FRESH, map[], {}, {})
  }

  datatype Action =
    | Write(mutation: Mutation)
    | Notify
    | Wake
    | TakeRequest
    | Skip
    | Load(body: Body)
    | Transmit
    | TakeResponse(garbled: bool, budget: nat)
    | Reconnect

  function Remaining(p: Phase): seq<TypeUrl> {
    match p
    case Idle => []
    case Pushing(rest) => rest
    case Loaded(_, _, rest) => rest
  }

  function Continue(rest: seq<TypeUrl>): Phase {
    if rest == [] then Idle else Pushing(rest)
  }

  predicate Enabled(s: System, a: Action) {
    match a
    case Write(_) => true
    case Notify => s.writers > 0
    case Wake => s.phase.Idle? && s.slot
    case TakeRequest => s.phase.Idle? && s.link.up != []
    case Skip => s.phase.Pushing? && s.phase.rest != [] && s.phase.rest[0] !in s.subscribed
    case Load(body) =>
      && s.phase.Pushing? && s.phase.rest != [] && s.phase.rest[0] in s.subscribed
      && Carries(body, s.phase.rest[0], s.store)
    case Transmit => s.phase.Loaded?
    case TakeResponse(_, _) => s.link.down != []
    case Reconnect => true
  }

  function AfterWrite(s: System, m: Mutation): System {
    s.(store := Mutate(s.store, m), writers := s.writers + 1)
  }

  function AfterNotify(s: System): System
    requires s.writers > 0
  {
    s.(writers := s.writers - 1, slot := true)
  }

  function AfterWake(s: System): System {
    s.(slot := false, phase := Pushing(PUSH_ORDER))
  }

  function AfterTakeRequest(s: System): System
    requires s.link.up != []
  {
    var q := s.link.up[0];
    var s' := s.(link := Receive(s.link));
    if q.typeUrl != Blank && q.nonce == 0
    then s'.(subscribed := s.subscribed + {q.typeUrl}, phase := Pushing([q.typeUrl]))
    else s'
  }

  function AfterSkip(s: System): System
    requires s.phase.Pushing? && s.phase.rest != []
  {
    s.(phase := Continue(s.phase.rest[1..]))
  }

  function AfterLoad(s: System, body: Body): System
    requires s.phase.Pushing? && s.phase.rest != []
  {
    s.(phase := Loaded(s.phase.rest[0], body, s.phase.rest[1..]))
  }

  function AfterTransmit(s: System): System
    requires s.phase.Loaded?
  {
    s.(link := Send(s.link, s.phase.typeUrl, s.phase.body), phase := Continue(s.phase.rest))
  }

  /** The policy keys whose kernel entry differs between two writer states. */
  function ChangedKeys(a: Datapath.State, b: Datapath.State): set<PolicyMapKey> {
    set k | k in a.policyMap.Keys + b.policyMap.Keys && Get(a.policyMap, k) != Get(b.policyMap, k)
  }

  /** The identities placed in one writer state and not in the other. */
  function MovedIDs(a: Datapath.State, b: Datapath.State): set<IdentityID> {
    set x | x in a.keyByID.Keys + b.keyByID.Keys && (x in a.keyByID <==> x !in b.keyByID)
  }

  /** Placing an identity twice differently undoes it. */
  function Toggled(astray: set<IdentityID>, moved: set<IdentityID>): set<IdentityID> {
    (astray - moved) + (moved - astray)
  }

  function StillStale(stale: set<PolicyMapKey>, was: Snapshot, now: Snapshot): set<PolicyMapKey> {
    set k | k in stale && Get(PolicyTable(was.policies), WireKey(k)) == Get(PolicyTable(now.policies), WireKey(k))
  }

  function StillAstray(astray: set<IdentityID>, was: Snapshot, now: Snapshot): set<IdentityID> {
    set x | x in astray && Get(IdentityTable(was.identities), x) == Get(IdentityTable(now.identities), x)
  }

  function AfterTakeResponse(s: System, h: Client.Handled): System
    requires s.link.down != []
  {
    var r := s.link.down[0];
    var was, now := s.client.applied, h.state.applied;
    var s' := s.(link := Answer(s.link, h.reply), client := h.state);
    if h.reply.error then
      s'.(stale := s.stale + ChangedKeys(s.client.writer, h.state.writer),
          astray := Toggled(s.astray, MovedIDs(s.client.writer, h.state.writer)))
    else
      s'.(held := s.held[r.typeUrl := r],
          stale := StillStale(s.stale, was, now),
          astray := StillAstray(s.astray, was, now))
  }

  function AfterReconnect(s: System): System {
    s.(slot := false, subscribed := {}, phase := Idle, link := OPEN)
  }

  function Next(s: System, a: Action): System
    requires Enabled(s, a)
  {
    match a
    case Write(m) => AfterWrite(s, m)
    case Notify => AfterNotify(s)
    case Wake => AfterWake(s)
    case TakeRequest => AfterTakeRequest(s)
    case Skip => AfterSkip(s)
    case Load(body) => AfterLoad(s, body)
    case Transmit => AfterTransmit(s)
    case TakeResponse(garbled, budget) =>
      AfterTakeResponse(s, Client.Handle(s.client, s.link.down[0], garbled, budget))
    case Reconnect => AfterReconnect(s)
  }

  /** What the agent has applied for a type. */
  function View(c: Client.State, t: TypeUrl): Body {
    match t
    case Cluster => Policies(c.applied.policies)
    case Endpoint => Identities(c.applied.identities)
    case _ => Nothing
  }

  /** The youngest reading of a type: held by the server, in flight, or handled by the agent. */
  function Latest(s: System, t: TypeUrl): Option<Body> {
    if s.phase.Loaded? && s.phase.typeUrl == t then Some(s.phase.body)
    else if LastOf(s.link.down, t).Some? then Some(LastOf(s.link.down, t).value.body)
    else if t in s.link.log.seen then Some(s.link.log.seen[t].body)
    else None
  }

  predicate UpToDate(s: System, t: TypeUrl) {
    Latest(s, t).Some? && Carries(Latest(s, t).value, t, s.store)
  }

  /** A re-read of the type is still due. */
  predicate RereadDue(s: System, t: TypeUrl) {
    s.writers > 0 || s.slot || t in Remaining(s.phase)
  }

  predicate SubscriptionDue(l: Link, t: TypeUrl) {
    exists i :: 0 <= i < |l.up| && l.up[i].typeUrl == t && l.up[i].nonce == 0
  }

  predicate ContentOk(s: System, t: TypeUrl) {
    && (t in s.link.log.seen && AppliedVersion(s.link, t) == SeenVersion(s.link, t) ==>
          View(s.client, t) == s.link.log.seen[t].body)
    && (t in s.subscribed ==> UpToDate(s, t) || RereadDue(s, t))
    && (t in s.subscribed || SubscriptionDue(s.link, t))
  }

  /** Bodies have the shape their type calls for, each key once. */
  predicate Shape(b: Body, t: TypeUrl) {
    match t
    case Cluster => b.Policies? && UniquePolicies(b.policies)
    case Endpoint => b.Identities? && UniqueIdentities(b.identities)
    case _ => b.Nothing?
  }

  ghost predicate BodiesOk(s: System) {
    && (forall i :: 0 <= i < |s.link.down| ==> Shape(s.link.down[i].body, s.link.down[i].typeUrl))
    && (forall t :: t in s.link.log.seen ==> Shape(s.link.log.seen[t].body, t))
    && (s.phase.Loaded? ==> s.phase.typeUrl != Blank && Shape(s.phase.body, s.phase.typeUrl))
    && Blank !in Remaining(s.phase)
  }

  ghost predicate ClientOk(s: System) {
    && UniquePolicies(s.client.applied.policies) && UniqueIdentities(s.client.applied.identities)
    && (forall t :: t in s.link.log.applied ==> Client.Accepted(s.client, t) == s.link.log.applied[t])
    && PoliciesAgree(s.client.writer, s.client.applied, s.stale)
  }

  /** policy_map differs from the snapshot exactly at the keys of a set. */
  ghost predicate PoliciesAgree(w: Datapath.State, snap: Snapshot, stale: set<PolicyMapKey>) {
    forall k :: TranslateKey(k) in stale <==> Read(w, k) != Wanted(snap, k)
  }

  /** What the agent holds and reports for a type is the push it last accepted. */
  ghost predicate HeldOk(s: System) {
    && (forall t :: t in s.link.log.applied ==> t in s.held)
    && forall t :: if t in s.held
                   then View(s.client, t) == s.held[t].body && Client.Accepted(s.client, t) == s.held[t].version
                   else View(s.client, t) == View(Client.FRESH, t)
  }

  ghost predicate SysInv(s: System) {
    && WellKeyed(s.store)
    && Handshake.Inv(s.link)
    && BodiesOk(s) && ClientOk(s) && HeldOk(s)
    && ContentOk(s, Cluster) && ContentOk(s, Endpoint)
  }

  lemma HeldFrame(s: System, s': System)
    requires HeldOk(s) && s'.client == s.client && s'.held == s.held
    requires s'.link.log.applied.Keys <= s.link.log.applied.Keys
    ensures HeldOk(s')
  {
  }

  lemma FreshInSync()
    ensures PoliciesAgree(Datapath.FRESH, EMPTY, {})
  {
  }

  lemma StartInv(store: Content)
    requires WellKeyed(store)
    ensures SysInv(Start(store))
  {
    hide Handshake.Inv, PoliciesAgree, WellKeyed;
    OpenInv();
    FreshInSync();
    assert OPEN.up[0] == Request(Cluster, 0, 0, false) && OPEN.up[1] == Request(Endpoint, 0, 0, false);
  }

  lemma ReconnectInv(s: System)
    requires SysInv(s)
    ensures SysInv(AfterReconnect(s))
  {
    hide Handshake.Inv, PoliciesAgree, HeldOk;
    HeldFrame(s, AfterReconnect(s));
    OpenInv();
    assert OPEN.up[0] == Request(Cluster, 0, 0, false) && OPEN.up[1] == Request(Endpoint, 0, 0, false);
  }

  lemma WakeInv(s: System)
    requires SysInv(s) && s.phase.Idle?
    ensures SysInv(AfterWake(s))
  {
    hide Handshake.Inv, PoliciesAgree, HeldOk;
    HeldFrame(s, AfterWake(s));
    WakeContent(s, Cluster);
    WakeContent(s, Endpoint);
  }

  lemma WakeContent(s: System, t: TypeUrl)
    requires ContentOk(s, t) && (t == Cluster || t == Endpoint)
    ensures ContentOk(AfterWake(s), t)
  {
    hide Carries;
    assert PUSH_ORDER[0] == Cluster && PUSH_ORDER[1] == Endpoint;
    assert t in Remaining(AfterWake(s).phase);
  }

  lemma WriteInv(s: System, m: Mutation)
    requires SysInv(s)
    ensures SysInv(AfterWrite(s, m))
  {
    hide Handshake.Inv, PoliciesAgree, HeldOk;
    HeldFrame(s, AfterWrite(s, m));
    assert WellKeyed(Mutate(s.store, m));
    assert RereadDue(AfterWrite(s, m), Cluster) && RereadDue(AfterWrite(s, m), Endpoint);
  }

  lemma NotifyInv(s: System)
    requires SysInv(s) && s.writers > 0
    ensures SysInv(AfterNotify(s))
  {
    hide Handshake.Inv, PoliciesAgree, HeldOk;
    HeldFrame(s, AfterNotify(s));
  }

  lemma SkipInv(s: System)
    requires SysInv(s) && s.phase.Pushing? && s.phase.rest != [] && s.phase.rest[0] !in s.subscribed
    ensures SysInv(AfterSkip(s))
  {
    hide Handshake.Inv, PoliciesAgree, HeldOk;
    HeldFrame(s, AfterSkip(s));
    assert s.phase.rest == [s.phase.rest[0]] + s.phase.rest[1..];
    SkipContent(s, Cluster);
    SkipContent(s, Endpoint);
    assert BodiesOk(AfterSkip(s));
  }

  lemma SkipContent(s: System, t: TypeUrl)
    requires ContentOk(s, t) && s.phase.Pushing? && s.phase.rest != [] && s.phase.rest[0] !in s.subscribed
    ensures ContentOk(AfterSkip(s), t)
  {
    hide Carries;
    assert s.phase.rest == [s.phase.rest[0]] + s.phase.rest[1..];
    assert Latest(AfterSkip(s), t) == Latest(s, t);
  }

  lemma LoadInv(s: System, body: Body)
    requires SysInv(s) && s.phase.Pushing? && s.phase.rest != [] && s.phase.rest[0] in s.subscribed
    requires Carries(body, s.phase.rest[0], s.store)
    ensures SysInv(AfterLoad(s, body))
  {
    hide Handshake.Inv, PoliciesAgree, HeldOk;
    HeldFrame(s, AfterLoad(s, body));
    LoadBodies(s, body);
    LoadContent(s, body, Cluster);
    LoadContent(s, body, Endpoint);
  }

  lemma LoadBodies(s: System, body: Body)
    requires BodiesOk(s) && s.phase.Pushing? && s.phase.rest != []
    requires Carries(body, s.phase.rest[0], s.store)
    ensures BodiesOk(AfterLoad(s, body))
  {
    assert s.phase.rest == [s.phase.rest[0]] + s.phase.rest[1..];
    assert s.phase.rest[0] in s.phase.rest;
  }

  lemma LoadContent(s: System, body: Body, t: TypeUrl)
    requires ContentOk(s, t) && s.phase.Pushing? && s.phase.rest != []
    requires Carries(body, s.phase.rest[0], s.store)
    ensures ContentOk(AfterLoad(s, body), t)
  {
    hide Carries;
    assert s.phase.rest == [s.phase.rest[0]] + s.phase.rest[1..];
    if s.phase.rest[0] != t {
      assert Latest(AfterLoad(s, body), t) == Latest(s, t);
    }
  }

  lemma TransmitContent(s: System, t: TypeUrl)
    requires ContentOk(s, t) && s.phase.Loaded?
    ensures ContentOk(AfterTransmit(s), t)
  {
    hide Carries;
    var s' := AfterTransmit(s);
    var r := s'.link.down[|s.link.down|];
    assert s'.link.down == s.link.down + [r];
    LastOfAppend(s.link.down, r, t);
    assert Remaining(s'.phase) == Remaining(s.phase);
    assert Latest(s', t) == Latest(s, t);
  }

  lemma TransmitInv(s: System)
    requires SysInv(s) && s.phase.Loaded?
    ensures SysInv(AfterTransmit(s))
  {
    hide Handshake.Inv, PoliciesAgree, HeldOk;
    HeldFrame(s, AfterTransmit(s));
    SendInv(s.link, s.phase.typeUrl, s.phase.body);
    TransmitContent(s, Cluster);
    TransmitContent(s, Endpoint);
    assert Remaining(AfterTransmit(s).phase) == Remaining(s.phase);
  }

  lemma TakeRequestContent(s: System, t: TypeUrl)
    requires ContentOk(s, t) && s.link.up != [] && s.phase.Idle? && t != Blank
    ensures ContentOk(AfterTakeRequest(s), t)
  {
    hide Carries;
    var s', q := AfterTakeRequest(s), s.link.up[0];
    ReceiveFrame(s.link, t);
    assert Latest(s', t) == Latest(s, t);
  }

  lemma ReceiveFrame(l: Link, t: TypeUrl)
    requires l.up != []
    ensures var l', q := Receive(l), l.up[0];
            && l'.log == l.log && l'.down == l.down
            && AppliedVersion(l', t) == AppliedVersion(l, t) && SeenVersion(l', t) == SeenVersion(l, t)
            && (SubscriptionDue(l, t) && !(q.typeUrl == t && q.nonce == 0) ==> SubscriptionDue(l', t))
  {
    var l', q := Receive(l), l.up[0];
    if i :| 0 <= i < |l.up| && l.up[i].typeUrl == t && l.up[i].nonce == 0 {
      assert i > 0 ==> l'.up[i - 1] == l.up[i];
    }
  }

  lemma TakeRequestInv(s: System)
    requires SysInv(s) && s.link.up != [] && s.phase.Idle?
    ensures SysInv(AfterTakeRequest(s))
  {
    hide Handshake.Inv, PoliciesAgree, HeldOk;
    HeldFrame(s, AfterTakeRequest(s));
    ReceiveInv(s.link);
    TakeRequestContent(s, Cluster);
    TakeRequestContent(s, Endpoint);
  }

  /** The writer got through the first n operations towards a snapshot. */
  ghost predicate StoppedOn(c: Client.State, next: Snapshot, n: nat, w: Datapath.State) {
    && UniquePolicies(next.policies) && UniqueIdentities(next.identities)
    && n <= |Datapath.Ops(Plan(c.applied, next))|
    && w == Datapath.ExecAll(Datapath.Ops(Plan(c.applied, next))[..n], c.writer)
  }

  /** What a well-shaped push can do to the agent. */
  ghost predicate PushEffect(c: Client.State, r: Response, h: Client.Handled) {
    && RepliesTo(h.reply, r)
    && UniquePolicies(h.state.applied.policies) && UniqueIdentities(h.state.applied.identities)
    && (h.reply.error ==>
          && h.state == c.(writer := h.state.writer)
          && exists next, n :: StoppedOn(c, next, n, h.state.writer))
    && (!h.reply.error ==>
          && h.state.accepted == c.accepted[r.typeUrl := r.version]
          && h.state.writer == Datapath.ExecAll(Datapath.Ops(Plan(c.applied, h.state.applied)), c.writer)
          && View(h.state, r.typeUrl) == r.body)
    && (forall t :: t != r.typeUrl ==> View(h.state, t) == View(c, t))
  }

  /** The candidate changes the pushed channel to the pushed resources and nothing else. */
  lemma CandidateEffect(c: Client.State, r: Response, garbled: bool)
    requires Shape(r.body, r.typeUrl)
    requires UniquePolicies(c.applied.policies) && UniqueIdentities(c.applied.identities)
    ensures var next := Client.Candidate(c.applied, r.typeUrl, r.body, garbled);
            next.Some? ==>
              && UniquePolicies(next.value.policies) && UniqueIdentities(next.value.identities)
              && View(c.(applied := next.value), r.typeUrl) == r.body
              && forall t :: t != r.typeUrl ==> View(c.(applied := next.value), t) == View(c, t)
  {
  }

  lemma HandleEffect(c: Client.State, r: Response, garbled: bool, budget: nat)
    requires Shape(r.body, r.typeUrl)
    requires UniquePolicies(c.applied.policies) && UniqueIdentities(c.applied.identities)
    ensures PushEffect(c, r, Client.Handle(c, r, garbled, budget))
  {
    var next := Client.Candidate(c.applied, r.typeUrl, r.body, garbled);
    var h := Client.Handle(c, r, garbled, budget);
    hide Plan, Datapath.Ops, Datapath.Run;
    if next.Some? {
      CandidateEffect(c, r, garbled);
      var ops := Datapath.Ops(Plan(c.applied, next.value));
      var n := RunIsPrefix(ops, c.writer, budget);
      assert n == |ops| ==> ops[..n] == ops;
      assert h.reply.error ==> StoppedOn(c, next.value, n, h.state.writer);
      forall t ensures View(h.state, t) == View(if h.reply.error then c else c.(applied := next.value), t) {}
    } else {
      assert StoppedOn(c, c.applied, 0, c.writer) by {
        assert Datapath.Ops(Plan(c.applied, c.applied))[..0] == [];
      }
    }
  }

  /** What a handled response changes besides the record of the past. */
  predicate Answered(s: System, s': System, h: Client.Handled)
    requires s.link.down != []
  {
    && s'.link == Answer(s.link, h.reply) && s'.client == h.state
    && s'.store == s.store && s'.writers == s.writers && s'.slot == s.slot
    && s'.subscribed == s.subscribed && s'.phase == s.phase
  }

  lemma TakeResponseShape(s: System, h: Client.Handled)
    requires s.link.down != []
    ensures Answered(s, AfterTakeResponse(s, h), h)
  {
  }

  lemma LatestKept(s: System, s': System, h: Client.Handled, t: TypeUrl)
    requires s.link.down != [] && Answered(s, s', h)
    ensures Latest(s', t) == Latest(s, t)
  {
    LastOfTail(s.link.down, t);
  }

  lemma SubscriptionKept(s: System, s': System, h: Client.Handled, t: TypeUrl)
    requires s.link.down != [] && Answered(s, s', h)
    ensures SubscriptionDue(s.link, t) ==> SubscriptionDue(s'.link, t)
  {
    if i :| 0 <= i < |s.link.up| && s.link.up[i].typeUrl == t && s.link.up[i].nonce == 0 {
      assert s'.link.up[i] == s.link.up[i];
    }
  }

  /** The view of a type after an answer is the body handled, if it was accepted, else as it was. */
  lemma ViewAfter(s: System, s': System, h: Client.Handled, t: TypeUrl)
    requires s.link.down != [] && Answered(s, s', h) && PushEffect(s.client, s.link.down[0], h)
    requires TypeOk(s.link, t) && DownOk(s.link)
    requires t in s.link.log.seen && AppliedVersion(s.link, t) == SeenVersion(s.link, t) ==>
               View(s.client, t) == s.link.log.seen[t].body
    ensures t in s'.link.log.seen && AppliedVersion(s'.link, t) == SeenVersion(s'.link, t) ==>
              View(s'.client, t) == s'.link.log.seen[t].body
  {
    hide View, UniquePolicies, UniqueIdentities, Datapath.ExecAll, Datapath.Ops, Plan, StoppedOn, LastOf, InFlight;
    var r := s.link.down[0];
    assert SeenVersion(s.link, r.typeUrl) < r.version;
    if h.reply.error { SameView(s.client, h.state, t); }
  }

  lemma SameView(c: Client.State, c': Client.State, t: TypeUrl)
    requires c'.applied == c.applied
    ensures View(c', t) == View(c, t)
  {
  }

  lemma TakeResponseContent(s: System, h: Client.Handled, t: TypeUrl)
    requires s.link.down != [] && PushEffect(s.client, s.link.down[0], h)
    requires ContentOk(s, t) && TypeOk(s.link, t) && DownOk(s.link)
    ensures ContentOk(AfterTakeResponse(s, h), t)
  {
    hide AfterTakeResponse, PushEffect, Carries, Latest, View, SubscriptionDue, TypeOk, DownOk;
    var s' := AfterTakeResponse(s, h);
    TakeResponseShape(s, h);
    LatestKept(s, s', h, t);
    SubscriptionKept(s, s', h, t);
    ViewAfter(s, s', h, t);
  }

  /** A stopped update makes stale exactly the keys it changed, and rights none. */
  lemma StoppedAgrees(c: Client.State, next: Snapshot, n: nat, w': Datapath.State, stale: set<PolicyMapKey>)
    requires PoliciesAgree(c.writer, c.applied, stale) && StoppedOn(c, next, n, w')
    ensures PoliciesAgree(w', c.applied, stale + ChangedKeys(c.writer, w'))
  {
    hide PolicyTable, Plan, Datapath.Ops, Datapath.ExecAll, UniquePolicies, UniqueIdentities;
    forall k ensures TranslateKey(k) in stale + ChangedKeys(c.writer, w') <==> Read(w', k) != Wanted(c.applied, k) {
      assert TranslateKey(k) in stale <==> Read(c.writer, k) != Wanted(c.applied, k);
      ReadWhenStopped(c, next, n, w', k);
    }
  }

  /** A key the stopped update got to now reads as the snapshot it was heading for, which differs from the
      one applied; any other key reads as before. */
  lemma ReadWhenStopped(c: Client.State, next: Snapshot, n: nat, w': Datapath.State, k: PolicyRuleKey)
    requires StoppedOn(c, next, n, w')
    ensures Read(w', k) == Read(c.writer, k) || Read(w', k) == Wanted(next, k) != Wanted(c.applied, k)
  {
    var ops := Datapath.Ops(Plan(c.applied, next));
    PlanTouches(c.applied, next, k);
    PolicyTableKeys(c.applied.policies);
    PolicyTableKeys(next.policies);
    hide PolicyTable, Plan, Datapath.Ops, Datapath.ExecAll;
    assert forall i :: 0 <= i < n ==> ops[..n][i] == ops[i];
    ReadAfter(ops[..n], c.writer, k, Wanted(next, k));
  }

  /** A complete update puts right exactly the keys whose rule it changes. */
  lemma CompleteAgrees(w: Datapath.State, was: Snapshot, now: Snapshot, stale: set<PolicyMapKey>)
    requires PoliciesAgree(w, was, stale) && UniquePolicies(now.policies)
    ensures PoliciesAgree(Datapath.ExecAll(Datapath.Ops(Plan(was, now)), w), now, StillStale(stale, was, now))
  {
    hide Datapath.ExecAll, Datapath.Ops, Plan, PolicyTable, UniquePolicies;
    var w' := Datapath.ExecAll(Datapath.Ops(Plan(was, now)), w);
    forall k ensures TranslateKey(k) in StillStale(stale, was, now) <==> Read(w', k) != Wanted(now, k) {
      ReadAfterPlan(w, was, now, k);
      assert WireKey(TranslateKey(k)) == k;
      assert TranslateKey(k) in stale <==> Read(w, k) != Wanted(was, k);
    }
  }

  lemma TakeResponseClient(s: System, h: Client.Handled)
    requires s.link.down != [] && PushEffect(s.client, s.link.down[0], h) && ClientOk(s)
    ensures ClientOk(AfterTakeResponse(s, h))
  {
    hide PoliciesAgree, ChangedKeys, MovedIDs, StillStale, StillAstray, Plan, Datapath.Ops, Datapath.ExecAll;
    var s' := AfterTakeResponse(s, h);
    if h.reply.error {
      var next, n :| StoppedOn(s.client, next, n, h.state.writer);
      StoppedAgrees(s.client, next, n, h.state.writer, s.stale);
    } else {
      CompleteAgrees(s.client.writer, s.client.applied, h.state.applied, s.stale);
    }
  }

  lemma TakeResponseHeld(s: System, h: Client.Handled)
    requires s.link.down != [] && PushEffect(s.client, s.link.down[0], h) && HeldOk(s)
    ensures HeldOk(AfterTakeResponse(s, h))
  {
    hide ChangedKeys, Toggled, StoppedOn, MovedIDs, StillStale, StillAstray, Plan, Datapath.Ops, Datapath.ExecAll,
      UniquePolicies, UniqueIdentities;
    var s', r := AfterTakeResponse(s, h), s.link.down[0];
    forall t
      ensures if t in s'.held
              then View(s'.client, t) == s'.held[t].body && Client.Accepted(s'.client, t) == s'.held[t].version
              else View(s'.client, t) == View(Client.FRESH, t)
    {
      assert h.reply.error ==> View(h.state, t) == View(s.client, t);
    }
  }

  lemma TakeResponseBodies(s: System, h: Client.Handled)
    requires s.link.down != [] && BodiesOk(s)
    ensures BodiesOk(AfterTakeResponse(s, h))
  {
    hide StillStale, StillAstray, ChangedKeys, Toggled, StoppedOn, MovedIDs;
    assert forall i :: 0 <= i < |s.link.down| - 1 ==> s.link.down[1..][i] == s.link.down[i + 1];
  }

  lemma TakeResponseInv(s: System, h: Client.Handled)
    requires SysInv(s) && s.link.down != [] && PushEffect(s.client, s.link.down[0], h)
    ensures SysInv(AfterTakeResponse(s, h))
  {
    assert TypeOk(s.link, Cluster) && TypeOk(s.link, Endpoint);
    AnswerInv(s.link, h.reply);
    hide Handshake.Inv, PoliciesAgree, HeldOk, StillStale, StillAstray, ChangedKeys, Toggled, StoppedOn, MovedIDs;
    TakeResponseContent(s, h, Cluster);
    TakeResponseContent(s, h, Endpoint);
    TakeResponseClient(s, h);
    TakeResponseHeld(s, h);
    TakeResponseBodies(s, h);
  }

  lemma HandledInv(s: System, garbled: bool, budget: nat)
    requires SysInv(s) && s.link.down != []
    ensures PushEffect(s.client, s.link.down[0], Client.Handle(s.client, s.link.down[0], garbled, budget))
    ensures SysInv(AfterTakeResponse(s, Client.Handle(s.client, s.link.down[0], garbled, budget)))
  {
    hide Handshake.Inv, PoliciesAgree;
    HandleEffect(s.client, s.link.down[0], garbled, budget);
    TakeResponseInv(s, Client.Handle(s.client, s.link.down[0], garbled, budget));
  }

  lemma StepInv(s: System, a: Action)
    requires SysInv(s) && Enabled(s, a)
    ensures SysInv(Next(s, a))
  {
    hide SysInv;
    match a
    case Write(m) => WriteInv(s, m);
    case Notify => NotifyInv(s);
    case Wake => WakeInv(s);
    case TakeRequest => TakeRequestInv(s);
    case Skip => SkipInv(s);
    case Load(body) => LoadInv(s, body);
    case Transmit => TransmitInv(s);
    case TakeResponse(garbled, budget) => HandledInv(s, garbled, budget);
    case Reconnect => ReconnectInv(s);
  }
}

/** What the tc programs report, packet by packet and over whole runs. */
module TcProofs {
  import opened Wire
  import opened Translate
  import opened Packet
  import opened Geneve
  import opened Tc

  /** Every decision that counts as a flow is either submitted as an event or counted as dropped. */
  predicate Balanced(k: Kernel) {
    |k.events| + k.metrics.ringDropped == k.metrics.allowed + k.metrics.denied + k.metrics.redirected
  }

  function CountOf(es: seq<FlowEvent>, verdict: U8): nat {
    if es == [] then 0 else CountOf(es[..|es| - 1], verdict) + if es[|es| - 1].verdict == verdict then 1 else 0
  }

  /** Only the three verdicts are reported, none of them more often than it was counted. */
  predicate Tallied(k: Kernel) {
    && (forall e :: e in k.events ==> e.verdict <= ACTION_REDIRECT)
    && CountOf(k.events, ACTION_ALLOW) <= k.metrics.allowed
    && CountOf(k.events, ACTION_DENY) <= k.metrics.denied
    && CountOf(k.events, ACTION_REDIRECT) <= k.metrics.redirected
  }

  predicate SameTotals(k: Kernel, k': Kernel) {
    k'.metrics.packets == k.metrics.packets && k'.metrics.bytes == k.metrics.bytes
  }

  /** Nothing is reported and no decision counted. */
  predicate NoReport(k: Kernel, k': Kernel) {
    && k'.events == k.events && k'.metrics.ringDropped == k.metrics.ringDropped
    && k'.metrics.allowed == k.metrics.allowed && k'.metrics.denied == k.metrics.denied
    && k'.metrics.redirected == k.metrics.redirected
  }

  /** Exactly `e` is reported, or lost to a full ring, and counted under its own verdict. */
  predicate Report(k: Kernel, k': Kernel, e: FlowEvent, ring: bool) {
    && k'.events == (if ring then k.events + [e] else k.events)
    && k'.metrics.ringDropped == k.metrics.ringDropped + (if ring then 0 else 1)
    && e.verdict <= ACTION_REDIRECT
    && k'.metrics.allowed == k.metrics.allowed + (if e.verdict == ACTION_ALLOW then 1 else 0)
    && k'.metrics.denied == k.metrics.denied + (if e.verdict == ACTION_DENY then 1 else 0)
    && k'.metrics.redirected == k.metrics.redirected + (if e.verdict == ACTION_REDIRECT then 1 else 0)
  }

  lemma ReportKeeps(k: Kernel, k': Kernel, e: FlowEvent, ring: bool)
    requires Balanced(k) && Tallied(k) && (NoReport(k, k') || Report(k, k', e, ring))
    ensures Balanced(k') && Tallied(k')
  {
    assert (k.events + [e])[..|k.events|] == k.events;
  }

  /** The verdict an event must carry for a decision. */
  function VerdictOf(d: Decision): U8 {
    match d
    case Allow => ACTION_ALLOW
    case Redirect => ACTION_REDIRECT
    case _ => ACTION_DENY
  }

  /** The event an ingress packet gives rise to. */
  function EventOf(k: Kernel, p: Bytes, ns: nat): FlowEvent
    requires ParseIngress(p).Enforce?
  {
    var f := IngressFlow(k, p, ParseIngress(p), ns);
    f.e.(verdict := VerdictOf(DecisionFor(k, f)))
  }

  /** Decisions that leave no trace: a pass for an unknown identity, and an allow already seen. */
  predicate Silent(k: Kernel, f: Flow) {
    DecisionFor(k, f) == PassUnknown || (DecisionFor(k, f) == Allow && !FirstSight(k, f))
  }

  lemma AccountReports(k: Kernel, f: Flow, d: Decision, ring: bool)
    ensures var k' := Account(k, f, d, ring);
            && SameTotals(k, k')
            && if d == PassUnknown || (d == Allow && !FirstSight(k, f)) then NoReport(k, k')
               else Report(k, k', f.e.(verdict := VerdictOf(d)), ring)
  {
  }

  /** What one ingress packet reports: nothing when it is passed through, established or silent, and
      otherwise exactly its own event. */
  lemma IngressReports(k: Kernel, p: Bytes, ns: nat, ring: bool)
    ensures var k', i := IngressStep(k, p, ns, ring).kernel, ParseIngress(p);
            && k'.metrics.packets == k.metrics.packets + 1 && k'.metrics.bytes == k.metrics.bytes + |p|
            && if i.Through? || Established(k, p, i) || Silent(k, IngressFlow(k, p, i, ns)) then NoReport(k, k')
               else Report(k, k', EventOf(k, p, ns), ring)
  {
    hide ParseIngress, Account, Decide, Established, IngressFlow;
    var k1 := Counted(k, |p|);
    var i := ParseIngress(p);
    if i.Enforce? && !Established(k, p, i) {
      var f := IngressFlow(k, p, i, ns);
      AccountReports(k1, f, DecisionFor(k, f), ring);
      AccountReports(k1.(metrics := k1.metrics.(decodeFail := k1.metrics.decodeFail + 1)), f, DecisionFor(k, f), ring);
    }
  }

  /** Events explain actions: an ingress packet is dropped if and only if a deny is counted, and an event
      it submits names the packet's own flow and size, and identities and a flow which, put to the
      policy again, give the event's verdict and the action taken. */
  lemma EventsExplainActions(k: Kernel, p: Bytes, ns: nat)
    ensures var r := IngressStep(k, p, ns, true);
            && r.kernel.metrics.denied == k.metrics.denied + (if r.action == TC_ACT_OK then 0 else 1)
            && (r.kernel.events != k.events ==>
                  var e := EventOf(k, p, ns);
                  var d := Decide(k, e.srcID, e.dstID, e.flow.dstPort, e.flow.proto);
                  && r.kernel.events == k.events + [e]
                  && e.verdict == VerdictOf(d) && (e.verdict == ACTION_DENY <==> r.action != TC_ACT_OK)
                  && e.dstID == IdentityOf(k, e.flow.dstIP) && e.bytes == |p|
                  && (ParseIngress(p).tlv.None? ==> e.srcID == IdentityOf(k, e.flow.srcIP))
                  && (ParseIngress(p).tlv.Some? ==> e.srcID == ParseIngress(p).tlv.value))
  {
    IngressReports(k, p, ns, true);
    hide ParseIngress, Account, Lookup, Established, TcpOpen, Proto, Address;
  }

  /** Only a refusal is reported on the way out, and as a deny. */
  ghost predicate EgressReport(k: Kernel, r: Egress, ring: bool) {
    && SameTotals(k, r.kernel)
    && (|| NoReport(k, r.kernel)
        || (&& r.action != TC_ACT_OK
            && exists e: FlowEvent :: e.verdict == ACTION_DENY && Report(k, r.kernel, e, ring)))
  }

  lemma RefuseReports(k: Kernel, e: FlowEvent, reason: nat, ring: bool)
    requires e.verdict == ACTION_DENY
    ensures SameTotals(k, Refuse(k, e, reason, ring)) && Report(k, Refuse(k, e, reason, ring), e, ring)
  {
  }

  lemma EncapFailReports(k: Kernel, p: Bytes, e: Option<FlowEvent>, ring: bool)
    requires e.Some? ==> e.value.verdict == ACTION_DENY
    ensures EgressReport(k, EncapFail(k, p, e, ring), ring)
  {
    hide Refuse;
    var k1 := k.(metrics := k.metrics.(encapFail := k.metrics.encapFail + 1));
    if e.Some? {
      RefuseReports(k1, e.value, REASON_ENCAP_FAIL, ring);
      assert !FailOpen(k) ==> Report(k, EncapFail(k, p, e, ring).kernel, e.value, ring);
    }
  }

  lemma PlainReports(k: Kernel, p: Bytes, outer: nat, ns: nat, ring: bool)
    requires LooksLikeIPv4(p, outer)
    ensures EgressReport(k, EgressPlain(k, p, outer, ns, ring), ring)
  {
    hide Refuse, Report, NoReport;
    NothingReported(k);
    forall e: FlowEvent, reason: nat | e.verdict == ACTION_DENY
      ensures SameTotals(k, Refuse(k, e, reason, ring)) && Report(k, Refuse(k, e, reason, ring), e, ring)
    {
      RefuseReports(k, e, reason, ring);
    }
  }

  lemma NothingReported(k: Kernel)
    ensures NoReport(k, k) && SameTotals(k, k)
  {
  }

  lemma TunnelReports(k: Kernel, p: Bytes, l: Layout, ns: nat, ring: bool, head: Head, csum: Bytes)
    requires LooksLikeIPv4(p, l.outer) && ParseGeneve(p, l.outer) == Some(l) && |csum| == 2
    ensures EgressReport(k, EgressGeneve(k, p, l, ns, ring, head, csum), ring)
  {
    hide Refuse, Report, NoReport, EncapFail, OptionCount, ParseGeneve, LooksLikeIPv4, WithIdentity, Bumped, WithRoom,
      Pushed;
    NothingReported(k);
    forall e: FlowEvent, reason: nat | e.verdict == ACTION_DENY
      ensures SameTotals(k, Refuse(k, e, reason, ring)) && Report(k, Refuse(k, e, reason, ring), e, ring)
    {
      RefuseReports(k, e, reason, ring);
    }
    forall q: Bytes, e: Option<FlowEvent> | e.Some? ==> e.value.verdict == ACTION_DENY
      ensures EgressReport(k, EncapFail(k, q, e, ring), ring)
    {
      EncapFailReports(k, q, e, ring);
    }
  }

  lemma EgressReports(k: Kernel, p: Bytes, ns: nat, ring: bool, head: Head, csum: Bytes)
    requires |csum| == 2
    ensures EgressReport(k, EgressStep(k, p, ns, ring, head, csum), ring)
  {
    hide ParseIPv4AfterEth, ParseGeneve, IsGeneveUdp, EgressPlain, EgressGeneve, EncapFail, NoReport, Report,
      SameTotals;
    NothingReported(k);
    EncapFailReports(k, p, None, ring);
    match ParseIPv4AfterEth(p, 0)
    case None =>
    case Some(outer) =>
      PlainReports(k, p, outer, ns, ring);
      match ParseGeneve(p, outer)
      case None =>
      case Some(l) => TunnelReports(k, p, l, ns, ring, head, csum);
  }

  /** One packet through one of the programs. */
  datatype Work =
    | In(p: Bytes, ns: nat, ring: bool)
    | Out(p: Bytes, ns: nat, ring: bool, head: Head, csum: (U8, U8))

  function Step(k: Kernel, w: Work): Kernel {
    match w
    case In(p, ns, ring) => IngressStep(k, p, ns, ring).kernel
    case Out(p, ns, ring, head, csum) => EgressStep(k, p, ns, ring, head, [csum.0, csum.1]).kernel
  }

  function Steps(k: Kernel, ws: seq<Work>): Kernel {
    if ws == [] then k else Step(Steps(k, ws[..|ws| - 1]), ws[|ws| - 1])
  }

  function IngressPackets(ws: seq<Work>): nat {
    if ws == [] then 0 else IngressPackets(ws[..|ws| - 1]) + if ws[|ws| - 1].In? then 1 else 0
  }

  function IngressBytes(ws: seq<Work>): nat {
    if ws == [] then 0 else IngressBytes(ws[..|ws| - 1]) + if ws[|ws| - 1].In? then |ws[|ws| - 1].p| else 0
  }

  lemma StepConserves(k: Kernel, w: Work)
    requires Balanced(k) && Tallied(k)
    ensures Balanced(Step(k, w)) && Tallied(Step(k, w))
    ensures Step(k, w).metrics.packets == k.metrics.packets + if w.In? then 1 else 0
    ensures Step(k, w).metrics.bytes == k.metrics.bytes + if w.In? then |w.p| else 0
  {
    hide IngressStep, EgressStep, EventOf, IngressFlow, ParseIngress, Silent, Established, Balanced, Tallied, Report,
      NoReport;
    match w
    case In(p, ns, ring) =>
      IngressReports(k, p, ns, ring);
      var e := if ParseIngress(p).Enforce? then EventOf(k, p, ns) else FlowEvent(0, ZERO_FLOW, ACTION_DENY, 0, 0, 0);
      ReportKeeps(k, Step(k, w), e, ring);
    case Out(p, ns, ring, head, csum) =>
      EgressReports(k, p, ns, ring, head, [csum.0, csum.1]);
      var e :| NoReport(k, Step(k, w)) || Report(k, Step(k, w), e, ring);
      ReportKeeps(k, Step(k, w), e, ring);
  }

  /** Telemetry conservation: over any interleaving of packets, events submitted plus events dropped
      are the flows allowed, denied and redirected, no verdict is reported more often than it was
      counted, and the totals count exactly the ingress packets. */
  lemma {:induction false} Conservation(k: Kernel, ws: seq<Work>)
    requires Balanced(k) && Tallied(k)
    ensures Balanced(Steps(k, ws)) && Tallied(Steps(k, ws))
    ensures Steps(k, ws).metrics.packets == k.metrics.packets + IngressPackets(ws)
    ensures Steps(k, ws).metrics.bytes == k.metrics.bytes + IngressBytes(ws)
  {
    hide Step, Balanced, Tallied;
    if ws != [] {
      Conservation(k, ws[..|ws| - 1]);
      StepConserves(Steps(k, ws[..|ws| - 1]), ws[|ws| - 1]);
    }
  }

  /** Per verdict: the events missing from the ring are exactly those it was too full for, so as long as
      it never was, each counter is the number of events with its verdict. */
  lemma NoDropsExact(k: Kernel, ws: seq<Work>)
    requires Balanced(k) && Tallied(k) && Steps(k, ws).metrics.ringDropped == 0
    ensures var m, es := Steps(k, ws).metrics, Steps(k, ws).events;
            && m.allowed == CountOf(es, ACTION_ALLOW)
            && m.denied == CountOf(es, ACTION_DENY)
            && m.redirected == CountOf(es, ACTION_REDIRECT)
  {
    Conservation(k, ws);
    CountsCover(Steps(k, ws).events);
  }

  lemma {:induction false} CountsCover(es: seq<FlowEvent>)
    requires forall e :: e in es ==> e.verdict <= ACTION_REDIRECT
    ensures CountOf(es, ACTION_ALLOW) + CountOf(es, ACTION_DENY) + CountOf(es, ACTION_REDIRECT) == |es|
  {
    if es != [] {
      assert es[|es| - 1] in es;
      CountsCover(es[..|es| - 1]);
    }
  }
}

/** The agent half of the xDS stream (internal/agent/xds/client.go): a push is decoded, diffed
    against the applied snapshot, written to the kernel maps, and only then acknowledged. */
module XdsClient {
  import opened Wire
  import opened Diff
  import opened Ads
  import Datapath

  /** The range checks of the policy decoder (internal/cc2/codec.go). */
  predicate Decodable(r: PolicyRule) {
    r.key.dir <= 1 && r.verdict.action <= ACTION_REDIRECT
  }

  /** The snapshot a push asks for, or None when it cannot be decoded; `garbled` stands for any
      decoding failure of a non-empty resource list other than the range checks. */
  function Candidate(cur: Snapshot, t: TypeUrl, body: Body, garbled: bool): Option<Snapshot> {
    var count := match body
                 case Policies(ps) => |ps|
                 case Identities(ids) => |ids|
                 case Nothing => 0;
    match t
    case Cluster =>
      if count == 0 then Some(cur.(policies := []))
      else if !garbled && body.Policies? && forall r :: r in body.policies ==> Decodable(r)
      then Some(cur.(policies := body.policies))
      else None
    case Endpoint =>
      if count == 0 then Some(cur.(identities := []))
      else if !garbled && body.Identities? then Some(cur.(identities := body.identities))
      else None
    case _ =>
      if count == 0 then Some(cur) else None
  }

  datatype State = State(applied: Snapshot, accepted: map<TypeUrl, nat>, writer: Datapath.State)

  const FRESH := State(EMPTY, map[], Datapath.FRESH)

  /** The version string of a type, 0 for the empty string. */
  function Accepted(c: State, t: TypeUrl): nat {
    if t in c.accepted then c.accepted[t] else 0
  }

  datatype Handled = Handled(state: State, reply: Request)

  /** One push: `budget` kernel map operations succeed before one fails. */
  function Handle(c: State, r: Response, garbled: bool, budget: nat): Handled {
    var nack := Request(r.typeUrl, Accepted(c, r.typeUrl), r.nonce, true);
    match Candidate(c.applied, r.typeUrl, r.body, garbled)
    case None => Handled(c, nack)
    case Some(next) =>
      var run := Datapath.Run(Datapath.Ops(Plan(c.applied, next)), c.writer, budget);
      if !run.ok then Handled(c.(writer := run.state), nack)
      else Handled(State(next, c.accepted[r.typeUrl := r.version], run.state),
                   Request(r.typeUrl, r.version, r.nonce, false))
  }

  class Client {
    const writer: Datapath.Writer
    var applied: Snapshot
    var accepted: map<TypeUrl, nat>

    function Abs(): State
      reads this, writer
    {
      State(applied, accepted, writer.Abs())
    }

    constructor ()
      ensures fresh(writer) && Abs() == FRESH
    {
      writer := new Datapath.Writer();
      applied, accepted := EMPTY, map[];
    }

    method CandidateFor(t: TypeUrl, body: Body, garbled: bool) returns (next: Option<Snapshot>)
      ensures next == Candidate(applied, t, body, garbled)
    {
      var count := match body
                   case Policies(ps) => |ps|
                   case Identities(ids) => |ids|
                   case Nothing => 0;
      match t
      case Cluster =>
        var policies: seq<PolicyRule> := [];
        for i := 0 to count
          invariant |policies| == i
          invariant i > 0 ==> !garbled && body.Policies? && policies == body.policies[..i]
          invariant forall j :: 0 <= j < i ==> Decodable(policies[j])
        {
          if garbled || !body.Policies? { return None; }
          if !Decodable(body.policies[i]) {
            assert body.policies[i] in body.policies;
            return None;
          }
          policies := policies + [body.policies[i]];
        }
        if count > 0 { assert policies == body.policies; }
        next := Some(applied.(policies := policies));
      case Endpoint =>
        var identities: seq<Identity> := [];
        for i := 0 to count
          invariant |identities| == i
          invariant i > 0 ==> !garbled && body.Identities? && identities == body.identities[..i]
        {
          if garbled || !body.Identities? { return None; }
          identities := identities + [body.identities[i]];
        }
        if count > 0 { assert identities == body.identities; }
        next := Some(applied.(identities := identities));
      case _ =>
        if count != 0 { return None; }
        next := Some(applied);
    }

    method Commit(t: TypeUrl, version: nat, snap: Snapshot)
      modifies this
      ensures applied == snap && accepted == old(accepted)[t := version]
    {
      applied := snap;
      accepted := accepted[t := version];
    }

    method HandlePush(r: Response, garbled: bool, budget: nat) returns (reply: Request)
      modifies this, writer
      ensures Handled(Abs(), reply) == Handle(old(Abs()), r, garbled, budget)
    {
      var candidate := CandidateFor(r.typeUrl, r.body, garbled);
      if candidate.None? {
        return Request(r.typeUrl, if r.typeUrl in accepted then accepted[r.typeUrl] else 0, r.nonce, true);
      }
      var plan := ComputePlan(applied, candidate.value);
      var ok, _ := writer.Apply(plan, budget);
      if !ok {
        return Request(r.typeUrl, if r.typeUrl in accepted then accepted[r.typeUrl] else 0, r.nonce, true);
      }
      Commit(r.typeUrl, r.version, candidate.value);
      reply := Request(r.typeUrl, r.version, r.nonce, false);
    }
  }
}

/** The control-plane half of the xDS stream: the per-type version/nonce machine
    (internal/control/ads/versioning.go) and the pushes (internal/control/ads/server.go). */
module Ads {
  import opened Wire
  import opened Diff
  import opened Store

  datatype TypeUrl = Blank | Cluster | Endpoint | Listener | Route | Other(name: string)

  const PUSH_ORDER := [Cluster, Endpoint, Listener, Route]

  /** The decoded resources of one response. */
  datatype Body = Policies(policies: seq<PolicyRule>) | Identities(identities: seq<Identity>) | Nothing

  /** Versions and nonces are the numbers their decimal strings denote; nonce 0 is the empty string. */
  datatype Response = Response(typeUrl: TypeUrl, version: nat, nonce: nat, body: Body)

  datatype Request = Request(typeUrl: TypeUrl, version: nat, nonce: nat, error: bool)

  datatype TypeState = TypeState(sent: nat, acked: nat, lastNonce: nat, outstanding: bool)

  const ZERO := TypeState(0, 0, 0, false)

  datatype Stream = Stream(byType: map<TypeUrl, TypeState>, nonceSeq: nat)

  const NEW_STREAM := Stream(map[], 0)

  function Of(s: Stream, t: TypeUrl): TypeState {
    if t in s.byType then s.byType[t] else ZERO
  }

  datatype AckKind = Initial | Ack | Nack | Stale

  function Prepared(s: Stream, t: TypeUrl): Stream {
    var ts := Of(s, t);
    Stream(
      s.byType[t := ts.(sent := ts.sent + 1, lastNonce := s.nonceSeq + 1, outstanding := true)],
      s.nonceSeq + 1)
  }

  function KindOf(s: Stream, t: TypeUrl, nonce: nat, error: bool): AckKind {
    if nonce == 0 then Initial
    else if !Of(s, t).outstanding || nonce != Of(s, t).lastNonce then Stale
    else if error then Nack
    else Ack
  }

  function Classified(s: Stream, t: TypeUrl, nonce: nat, error: bool): Stream {
    var ts := Of(s, t);
    var settled := ts.(outstanding := false, lastNonce := 0);
    s.(byType := s.byType[t :=
      match KindOf(s, t, nonce, error)
      case Initial => ts
      case Stale => ts
      case Nack => settled
      case Ack => settled.(acked := ts.sent)])
  }

  class StreamState {
    var byType: map<TypeUrl, TypeState>
    var nonceSeq: nat

    function Abs(): Stream
      reads this
    {
      Stream(byType, nonceSeq)
    }

    constructor ()
      ensures Abs() == NEW_STREAM
    {
      byType, nonceSeq := map[], 0;
    }

    method GetLocked(t: TypeUrl)
      modifies this`byType
      ensures byType == old(byType)[t := Of(old(Abs()), t)]
    {
      if t !in byType {
        byType := byType[t := ZERO];
      }
    }

    method PreparePush(t: TypeUrl) returns (version: nat, nonce: nat)
      modifies this
      ensures Abs() == Prepared(old(Abs()), t)
      ensures version == Of(Abs(), t).sent && nonce == nonceSeq
    {
      GetLocked(t);
      byType := byType[t := byType[t].(sent := byType[t].sent + 1)];
      nonceSeq := nonceSeq + 1;
      nonce := nonceSeq;
      byType := byType[t := byType[t].(lastNonce := nonce)];
      byType := byType[t := byType[t].(outstanding := true)];
      version := byType[t].sent;
    }

    method Classify(t: TypeUrl, nonce: nat, error: bool) returns (kind: AckKind)
      modifies this
      ensures kind == KindOf(old(Abs()), t, nonce, error)
      ensures Abs() == Classified(old(Abs()), t, nonce, error)
    {
      GetLocked(t);
      if nonce == 0 { return Initial; }
      if !byType[t].outstanding || nonce != byType[t].lastNonce { return Stale; }
      byType := byType[t := byType[t].(outstanding := false)];
      byType := byType[t := byType[t].(lastNonce := 0)];
      if error { return Nack; }
      byType := byType[t := byType[t].(acked := byType[t].sent)];
      return Ack;
    }

    method AcceptedVersion(t: TypeUrl) returns (v: nat)
      modifies this`byType
      ensures v == Of(old(Abs()), t).acked
      ensures forall u :: Of(Abs(), u) == Of(old(Abs()), u)
    {
      GetLocked(t);
      v := byType[t].acked;
    }
  }

  /** A response body for type t that lists what the store holds. */
  predicate Carries(b: Body, t: TypeUrl, c: Content) {
    match t
    case Cluster => b.Policies? && ListsPolicies(b.policies, c.policies)
    case Endpoint => b.Identities? && ListsIdentities(b.identities, c.identities)
    case _ => b.Nothing?
  }

  /** The types a push-all visits: the subscribed ones, in make-before-break order. */
  function Targets(order: seq<TypeUrl>, subscribed: set<TypeUrl>): seq<TypeUrl> {
    if order == [] then []
    else
      Targets(order[..|order| - 1], subscribed)
      + (if order[|order| - 1] in subscribed then [order[|order| - 1]] else [])
  }

  function PreparedAll(s: Stream, types: seq<TypeUrl>): Stream {
    if types == [] then s else Prepared(PreparedAll(s, types[..|types| - 1]), types[|types| - 1])
  }

  /** `r` is the push of type t from stream state `s`. */
  predicate IsPush(r: Response, s: Stream, t: TypeUrl, c: Content) {
    r.typeUrl == t && r.version == Of(s, t).sent + 1 && r.nonce == s.nonceSeq + 1 && Carries(r.body, t, c)
  }

  /** `out` are the responses of pushing `types` in turn from stream state `s`. */
  predicate Pushes(out: seq<Response>, s: Stream, types: seq<TypeUrl>, c: Content) {
    && |out| == |types|
    && (out != [] ==>
          var n := |out| - 1;
          IsPush(out[n], PreparedAll(s, types[..n]), types[n], c) && Pushes(out[..n], s, types[..n], c))
  }

  lemma PushesExtend(out: seq<Response>, s: Stream, types: seq<TypeUrl>, c: Content, r: Response)
    requires Pushes(out, s, types, c)
    requires IsPush(r, PreparedAll(s, types), r.typeUrl, c)
    ensures Pushes(out + [r], s, types + [r.typeUrl], c)
    ensures PreparedAll(s, types + [r.typeUrl]) == Prepared(PreparedAll(s, types), r.typeUrl)
  {
    assert (types + [r.typeUrl])[..|types|] == types;
    assert (out + [r])[..|out|] == out;
  }

  class Server {
    const store: Memory
    const state: StreamState
    var subscribed: set<TypeUrl>

    constructor (store: Memory)
      ensures this.store == store && fresh(state) && state.Abs() == NEW_STREAM
      ensures subscribed == {}
    {
      this.store := store;
      state := new StreamState();
      subscribed := {};
    }

    method ResourcesFor(t: TypeUrl) returns (body: Body)
      requires WellKeyed(store.Abs())
      ensures Carries(body, t, store.Abs())
    {
      match t
      case Cluster =>
        var ps := store.ListPolicies();
        body := Policies(ps);
      case Endpoint =>
        var ids := store.ListIdentities();
        body := Identities(ids);
      case _ =>
        body := Nothing;
    }

    method Push(t: TypeUrl) returns (r: Response)
      requires WellKeyed(store.Abs())
      modifies state
      ensures state.Abs() == Prepared(old(state.Abs()), t)
      ensures IsPush(r, old(state.Abs()), t, store.Abs())
    {
      var body := ResourcesFor(t);
      var version, nonce := state.PreparePush(t);
      r := Response(t, version, nonce, body);
    }

    /** Re-pushes every subscribed type; `out` is what the stream sends. */
    method PushAll() returns (out: seq<Response>)
      requires WellKeyed(store.Abs())
      modifies state
      ensures state.Abs() == PreparedAll(old(state.Abs()), Targets(PUSH_ORDER, subscribed))
      ensures Pushes(out, old(state.Abs()), Targets(PUSH_ORDER, subscribed), store.Abs())
    {
      out := PushEach(PUSH_ORDER);
    }

    method PushEach(order: seq<TypeUrl>) returns (out: seq<Response>)
      requires WellKeyed(store.Abs())
      modifies state
      ensures state.Abs() == PreparedAll(old(state.Abs()), Targets(order, subscribed))
      ensures Pushes(out, old(state.Abs()), Targets(order, subscribed), store.Abs())
    {
      out := [];
      ghost var types := [];
      ghost var c, s0 := store.Abs(), state.Abs();
      for i := 0 to |order|
        invariant store.Abs() == c
        invariant types == Targets(order[..i], subscribed)
        invariant state.Abs() == PreparedAll(s0, types)
        invariant Pushes(out, s0, types, c)
      {
        assert order[..i + 1][..i] == order[..i];
        if order[i] in subscribed {
          var r := Push(order[i]);
          PushesExtend(out, s0, types, c, r);
          types, out := types + [order[i]], out + [r];
        }
      }
      assert order[..|order|] == order;
    }

    /** One inbound request: only a subscription causes a push. */
    method OnRequest(req: Request) returns (out: seq<Response>)
      requires WellKeyed(store.Abs())
      modifies this, state
      ensures var s := old(state.Abs());
              var settled := Classified(s, req.typeUrl, req.nonce, req.error);
              if req.typeUrl == Blank then
                state.Abs() == s && subscribed == old(subscribed) && out == []
              else if req.nonce == 0 then
                && subscribed == old(subscribed) + {req.typeUrl}
                && state.Abs() == Prepared(settled, req.typeUrl)
                && |out| == 1 && IsPush(out[0], settled, req.typeUrl, store.Abs())
              else
                state.Abs() == settled && subscribed == old(subscribed) && out == []
    {
      out := [];
      if req.typeUrl == Blank { return; }
      var kind := state.Classify(req.typeUrl, req.nonce, req.error);
      match kind
      case Initial =>
        subscribed := subscribed + {req.typeUrl};
        var r := Push(req.typeUrl);
        out := [r];
      case _ =>
    }
  }
}

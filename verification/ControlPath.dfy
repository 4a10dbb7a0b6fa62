/** The store, the server and the agent, run as the programs do, take steps of the step system. */
module ControlPath {
  import opened Store
  import opened Ads
  import opened Handshake
  import opened Protocol
  import opened ProtocolRuns
  import opened ProtocolProgress
  import Client = XdsClient

  /** The objects stand where the system does; `ch` is the channel the server watches. */
  ghost predicate Models(server: Server, ch: nat, client: Client.Client, s: System)
    reads server, server.store, server.state, client, client.writer
  {
    && server.store.Abs() == s.store
    && ch in server.store.watchers && (s.slot <==> server.store.watchers[ch].Some?)
    && server.subscribed == s.subscribed
    && server.state.Abs() == s.link.stream
    && client.Abs() == s.client
  }

  /** A store operation is a write followed by its notification. */
  method Mutates(server: Server, ch: nat, client: Client.Client, m: Mutation, ghost s: System)
    requires Models(server, ch, client, s) && WellKeyed(s.store)
    modifies server.store
    ensures Models(server, ch, client, AfterNotify(AfterWrite(s, m))) && WellKeyed(server.store.Abs())
  {
    match m
    case PutIdentity(d) => server.store.PutIdentity(d);
    case DeleteIdentity(id) => server.store.DeleteIdentity(id);
    case PutPolicy(r) => server.store.PutPolicy(r);
    case DeletePolicy(k) => server.store.DeletePolicy(k);
  }

  function Sent(s: System, r: Response, rest: seq<TypeUrl>): System {
    s.(phase := Continue(rest),
       link := s.link.(stream := Prepared(s.link.stream, r.typeUrl),
                       down := s.link.down + [r],
                       log := s.link.log.(issued := s.link.log.issued + [Issue(r.typeUrl, r.version)])))
  }

  /** A push of one type is a reading of the store and a transmission. */
  lemma PushSteps(s: System, r: Response)
    requires s.phase.Pushing? && s.phase.rest != [] && s.phase.rest[0] == r.typeUrl && r.typeUrl in s.subscribed
    requires IsPush(r, s.link.stream, r.typeUrl, s.store)
    ensures Enabled(s, Load(r.body))
    ensures IsStep(AfterLoad(s, r.body), Transmit, Sent(s, r, s.phase.rest[1..]))
  {
    hide Carries;
  }

  lemma RunExtend(ss: seq<System>, acts: seq<Action>, a: Action, s: System)
    requires IsRun(ss, acts) && AllInternal(acts) && Internal(a) && IsStep(ss[|acts|], a, s)
    ensures IsRun(ss + [s], acts + [a]) && AllInternal(acts + [a])
  {
    hide IsStep;
    assert forall i :: 0 <= i < |acts| ==> (acts + [a])[i] == acts[i];
  }

  /** A push loop over `order` that began in `s` stands at `e`, having sent `out` for its first `n` types. */
  predicate LoopAt(s: System, e: System, order: seq<TypeUrl>, n: nat, out: seq<Response>)
    requires n <= |order|
  {
    && e == s.(link := e.link, phase := Continue(order[n..]))
    && e.link.down == s.link.down + out && e.link.up == s.link.up
    && e.link.stream == PreparedAll(s.link.stream, Targets(order[..n], s.subscribed))
  }

  lemma LoopSends(s: System, e: System, order: seq<TypeUrl>, n: nat, out: seq<Response>, r: Response)
    requires n < |order| && LoopAt(s, e, order, n, out) && r.typeUrl == order[n] && order[n] in s.subscribed
    ensures LoopAt(s, Sent(e, r, order[n + 1..]), order, n + 1, out + [r])
  {
    var types := Targets(order[..n], s.subscribed);
    assert order[..n + 1][..n] == order[..n];
    assert (types + [order[n]])[..|types|] == types;
  }

  lemma LoopSkips(s: System, e: System, order: seq<TypeUrl>, n: nat, out: seq<Response>)
    requires n < |order| && LoopAt(s, e, order, n, out) && order[n] !in s.subscribed
    ensures LoopAt(s, AfterSkip(e), order, n + 1, out)
  {
    assert order[..n + 1][..n] == order[..n] && order[n..][1..] == order[n + 1..];
    assert Targets(order[..n], s.subscribed) + [] == Targets(order[..n], s.subscribed);
  }

  /** The first `n` types of a push loop. */
  lemma {:induction false} PushLoop(s: System, order: seq<TypeUrl>, out: seq<Response>, n: nat)
    returns (ss: seq<System>, acts: seq<Action>)
    requires n <= |order| && order != [] && s.phase == Pushing(order)
    requires Pushes(out, s.link.stream, Targets(order[..n], s.subscribed), s.store)
    ensures IsRun(ss, acts) && AllInternal(acts) && ss[0] == s && LoopAt(s, ss[|acts|], order, n, out)
  {
    hide IsStep, AllInternal, IsPush, Prepared, Internal;
    if n == 0 {
      ss, acts := [s], [];
      assert order[0..] == order;
      Standing(s);
    } else {
      var i := n - 1;
      assert order[..n][..i] == order[..i] && order[i..][1..] == order[n..];
      var types := Targets(order[..i], s.subscribed);
      if order[i] in s.subscribed {
        var m := |out| - 1;
        assert (types + [order[i]])[..m] == types && out == out[..m] + [out[m]];
        ss, acts := PushLoop(s, order, out[..m], i);
        var e, r := ss[|acts|], out[m];
        Addressed(r, e.link.stream, order[i], s.store);
        LoopSends(s, e, order, i, out[..m], r);
        ss, acts := PushExtends(ss, acts, r);
      } else {
        assert types + [] == types;
        ss, acts := PushLoop(s, order, out, i);
        var e := ss[|acts|];
        LoopSkips(s, e, order, i, out);
        SkipExtends(ss, acts);
        ss, acts := ss + [AfterSkip(e)], acts + [Skip];
      }
    }
  }

  lemma Standing(s: System)
    ensures IsRun([s], []) && AllInternal([])
  {
  }

  lemma Addressed(r: Response, s: Stream, t: TypeUrl, c: Content)
    requires IsPush(r, s, t, c)
    ensures r.typeUrl == t
  {
  }

  lemma SkipExtends(ss: seq<System>, acts: seq<Action>)
    requires IsRun(ss, acts) && AllInternal(acts) && Enabled(ss[|acts|], Skip)
    ensures IsRun(ss + [AfterSkip(ss[|acts|])], acts + [Skip]) && AllInternal(acts + [Skip])
  {
    RunExtend(ss, acts, Skip, AfterSkip(ss[|acts|]));
  }

  lemma PushExtends(ss: seq<System>, acts: seq<Action>, r: Response) returns (more: seq<System>, steps: seq<Action>)
    requires IsRun(ss, acts) && AllInternal(acts)
    requires var e := ss[|acts|];
             && e.phase.Pushing? && e.phase.rest != [] && e.phase.rest[0] == r.typeUrl && r.typeUrl in e.subscribed
             && IsPush(r, e.link.stream, r.typeUrl, e.store)
    ensures IsRun(more, steps) && AllInternal(steps) && more[0] == ss[0]
    ensures more[|steps|] == Sent(ss[|acts|], r, ss[|acts|].phase.rest[1..])
  {
    hide AllInternal, IsPush, Carries;
    var e := ss[|acts|];
    var loaded, sent := AfterLoad(e, r.body), Sent(e, r, e.phase.rest[1..]);
    PushSteps(e, r);
    RunExtend(ss, acts, Load(r.body), loaded);
    RunExtend(ss + [loaded], acts + [Load(r.body)], Transmit, sent);
    more, steps := ss + [loaded] + [sent], acts + [Load(r.body)] + [Transmit];
  }

  /** A change notification: the server takes it and pushes every subscribed type. */
  method Wakes(server: Server, ch: nat, client: Client.Client, ghost s: System)
    returns (out: seq<Response>, ghost ss: seq<System>, ghost acts: seq<Action>)
    requires Models(server, ch, client, s) && WellKeyed(s.store) && Enabled(s, Wake)
    modifies server.store`watchers, server.state
    ensures IsRun(ss, acts) && AllInternal(acts) && ss[0] == s && |acts| > 0 && acts[0] == Wake
    ensures Models(server, ch, client, ss[|acts|]) && ss[|acts|].phase.Idle?
    ensures ss[|acts|].link.down == s.link.down + out && ss[|acts|].link.up == s.link.up
  {
    var _ := server.store.Take(ch);
    out := server.PushAll();
    ghost var n := |PUSH_ORDER|;
    assert PUSH_ORDER[..n] == PUSH_ORDER && PUSH_ORDER[n..] == [];
    ghost var rest, more := PushLoop(AfterWake(s), PUSH_ORDER, out, n);
    ss, acts := [s] + rest, [Wake] + more;
    Prefixed(s, Wake, rest, more);
  }

  lemma Prefixed(s: System, a: Action, ss: seq<System>, acts: seq<Action>)
    requires IsRun(ss, acts) && AllInternal(acts) && Internal(a) && IsStep(s, a, ss[0])
    ensures IsRun([s] + ss, [a] + acts) && AllInternal([a] + acts)
  {
    hide IsStep;
    var all, steps := [s] + ss, [a] + acts;
    forall i | 0 <= i < |steps| ensures IsStep(all[i], steps[i], all[i + 1]) {
      if i > 0 { assert all[i] == ss[i - 1] && all[i + 1] == ss[i] && steps[i] == acts[i - 1]; }
    }
    assert forall i :: 0 < i < |steps| ==> steps[i] == acts[i - 1];
  }

  predicate Subscribes(q: Request) {
    q.typeUrl != Blank && q.nonce == 0
  }

  /** The steps of one request, when `out` is what the server sent on it. */
  lemma RequestSteps(s: System, out: seq<Response>) returns (ss: seq<System>, acts: seq<Action>)
    requires Enabled(s, TakeRequest)
    requires var q := s.link.up[0];
             if Subscribes(q) then |out| == 1 && IsPush(out[0], Receive(s.link).stream, q.typeUrl, s.store)
             else out == []
    ensures IsRun(ss, acts) && AllInternal(acts) && ss[0] == s && |acts| > 0 && acts[0] == TakeRequest
    ensures var q, e := s.link.up[0], ss[|acts|];
            && e == s.(link := e.link, subscribed := s.subscribed + if Subscribes(q) then {q.typeUrl} else {})
            && e.link.down == s.link.down + out && e.link.up == s.link.up[1..]
            && e.link.stream == var settled := Receive(s.link).stream;
                 if Subscribes(q) then Prepared(settled, q.typeUrl) else settled
  {
    hide IsPush, Prepared, IsStep, Internal, Classified;
    var q, s1 := s.link.up[0], AfterTakeRequest(s);
    var rest, more := [s1], [];
    Standing(s1);
    if Subscribes(q) {
      OnePush(out, s1.link.stream, q.typeUrl, s.subscribed + {q.typeUrl}, s.store);
      rest, more := PushLoop(s1, [q.typeUrl], out, 1);
    } else {
      assert s.subscribed + {} == s.subscribed;
    }
    FirstTaken(s);
    ss, acts := [s] + rest, [TakeRequest] + more;
    Prefixed(s, TakeRequest, rest, more);
  }

  lemma FirstTaken(s: System)
    requires Enabled(s, TakeRequest)
    ensures IsStep(s, TakeRequest, AfterTakeRequest(s)) && Internal(TakeRequest)
  {
  }

  lemma OnePush(out: seq<Response>, s: Stream, t: TypeUrl, subscribed: set<TypeUrl>, c: Content)
    requires |out| == 1 && IsPush(out[0], s, t, c) && t in subscribed
    ensures [t][..1] == [t] && Targets([t], subscribed) == [t] && PreparedAll(s, [t]) == Prepared(s, t)
    ensures Pushes(out, s, [t], c)
  {
    assert [t][..0] == [];
    assert out[..0] == [];
  }

  /** A request: the server classifies it and, on a subscription, pushes its type. */
  method Receives(server: Server, ch: nat, client: Client.Client, q: Request, ghost s: System)
    returns (out: seq<Response>, ghost ss: seq<System>, ghost acts: seq<Action>)
    requires Models(server, ch, client, s) && WellKeyed(s.store) && Enabled(s, TakeRequest) && s.link.up[0] == q
    modifies server, server.state
    ensures IsRun(ss, acts) && AllInternal(acts) && ss[0] == s && |acts| > 0 && acts[0] == TakeRequest
    ensures Models(server, ch, client, ss[|acts|]) && ss[|acts|].phase.Idle?
    ensures ss[|acts|].link.down == s.link.down + out && ss[|acts|].link.up == s.link.up[1..]
  {
    hide IsPush, Prepared, IsRun, AllInternal, Classified;
    out := server.OnRequest(q);
    ss, acts := RequestSteps(s, out);
    assert s.subscribed + {} == s.subscribed;
  }

  /** A push: the agent decodes it, applies it and answers. */
  method Answers(server: Server, ch: nat, client: Client.Client, r: Response, garbled: bool, budget: nat,
                 ghost s: System)
    returns (reply: Request)
    requires Models(server, ch, client, s) && Enabled(s, TakeResponse(garbled, budget)) && s.link.down[0] == r
    modifies client, client.writer
    ensures Models(server, ch, client, Next(s, TakeResponse(garbled, budget)))
    ensures Next(s, TakeResponse(garbled, budget)).link.up == s.link.up + [reply]
  {
    reply := client.HandlePush(r, garbled, budget);
  }

  /** A broken stream: its channel goes, and the next one watches on a channel of its own. */
  method Reopens(server: Server, ch: nat, client: Client.Client, next: nat, ghost s: System)
    returns (reopened: Server)
    requires Models(server, ch, client, s) && next !in server.store.watchers
    modifies server.store`watchers
    ensures reopened.store == server.store && ch !in server.store.watchers
    ensures Models(reopened, next, client, AfterReconnect(s))
  {
    server.store.Unwatch(ch);
    reopened := new Server(server.store);
    server.store.Watch(next);
  }
}

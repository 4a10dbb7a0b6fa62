/** One xDS stream as two FIFO channels between the version/nonce machine and the agent: pushes
    may be pipelined, and the agent may apply or reject each one. */
module Handshake {
  import opened Wire
  import opened Ads

  datatype Issue = Issue(typeUrl: TypeUrl, version: nat)

  /** What has happened on the stream: every push by nonce, the version last applied and the push
      last handled by the agent per type, and whether any push was rejected. */
  datatype Log = Log(
    issued: seq<Issue>,
    applied: map<TypeUrl, nat>,
    seen: map<TypeUrl, Response>,
    rejected: bool)

  datatype Link = Link(stream: Stream, down: seq<Response>, up: seq<Request>, log: Log)

  const OPEN := Link(
    NEW_STREAM,
    [],
    [Request(Cluster, 0, 0, false), Request(Endpoint, 0, 0, false)],
    Log([], map[], map[], false))

  function Send(l: Link, t: TypeUrl, body: Body): Link {
    var s := Prepared(l.stream, t);
    var version := Of(s, t).sent;
    l.(stream := s,
       down := l.down + [Response(t, version, s.nonceSeq, body)],
       log := l.log.(issued := l.log.issued + [Issue(t, version)]))
  }

  /** The server takes the oldest request. */
  function Receive(l: Link): Link
    requires l.up != []
  {
    var q := l.up[0];
    l.(stream := if q.typeUrl == Blank then l.stream else Classified(l.stream, q.typeUrl, q.nonce, q.error),
       up := l.up[1..])
  }

  /** The agent takes the oldest response and answers it. */
  function Answer(l: Link, reply: Request): Link
    requires l.down != []
  {
    var r := l.down[0];
    l.(down := l.down[1..],
       up := l.up + [reply],
       log := l.log.(
         applied := if reply.error then l.log.applied else l.log.applied[r.typeUrl := r.version],
         seen := l.log.seen[r.typeUrl := r],
         rejected := l.log.rejected || reply.error))
  }

  /** A reply as the agent builds it: the nonce and type of the push, its version on success. */
  predicate RepliesTo(reply: Request, r: Response) {
    reply.typeUrl == r.typeUrl && reply.nonce == r.nonce && (!reply.error ==> reply.version == r.version)
  }

  function AppliedVersion(l: Link, t: TypeUrl): nat {
    if t in l.log.applied then l.log.applied[t] else 0
  }

  function SeenVersion(l: Link, t: TypeUrl): nat {
    if t in l.log.seen then l.log.seen[t].version else 0
  }

  /** The youngest response of a type still on its way to the agent. */
  function LastOf(q: seq<Response>, t: TypeUrl): Option<Response> {
    if q == [] then None
    else if q[|q| - 1].typeUrl == t then Some(q[|q| - 1])
    else LastOf(q[..|q| - 1], t)
  }

  lemma {:induction false} LastOfTail(q: seq<Response>, t: TypeUrl)
    requires q != []
    ensures LastOf(q, t) == (if LastOf(q[1..], t).Some? then LastOf(q[1..], t)
                             else if q[0].typeUrl == t then Some(q[0]) else None)
  {
    if |q| > 1 {
      LastOfTail(q[..|q| - 1], t);
      assert q[..|q| - 1][1..] == q[1..][..|q| - 2];
    }
  }

  lemma LastOfAppend(q: seq<Response>, r: Response, t: TypeUrl)
    ensures LastOf(q + [r], t) == if r.typeUrl == t then Some(r) else LastOf(q, t)
  {
    assert (q + [r])[..|q|] == q;
  }

  /** The push with this nonce, or the agent's answer to it, is still travelling. */
  predicate InFlight(l: Link, t: TypeUrl, nonce: nat) {
    || (exists i :: 0 <= i < |l.down| && l.down[i].nonce == nonce && l.down[i].typeUrl == t)
    || (exists i :: 0 <= i < |l.up| && l.up[i].nonce == nonce && l.up[i].typeUrl == t)
  }

  ghost predicate IssuesOk(l: Link) {
    && |l.log.issued| == l.stream.nonceSeq
    && forall n :: 0 <= n < |l.log.issued| ==>
         && l.log.issued[n].typeUrl != Blank
         && 1 <= l.log.issued[n].version <= Of(l.stream, l.log.issued[n].typeUrl).sent
  }

  /** `nonce` names the push of this type and version. */
  predicate Names(l: Link, nonce: nat, i: Issue) {
    1 <= nonce <= |l.log.issued| && l.log.issued[nonce - 1] == i
  }

  ghost predicate DownOk(l: Link) {
    && (forall i :: 0 <= i < |l.down| ==>
          && Names(l, l.down[i].nonce, Issue(l.down[i].typeUrl, l.down[i].version))
          && SeenVersion(l, l.down[i].typeUrl) < l.down[i].version)
    && (forall i, j :: 0 <= i < j < |l.down| && l.down[i].typeUrl == l.down[j].typeUrl ==>
          l.down[i].version < l.down[j].version)
  }

  predicate RequestOk(l: Link, q: Request) {
    || (q.nonce == 0 && !q.error)
    || (&& 1 <= q.nonce <= |l.log.issued|
        && l.log.issued[q.nonce - 1].typeUrl == q.typeUrl
        && (!q.error ==> l.log.issued[q.nonce - 1].version <= AppliedVersion(l, q.typeUrl))
        && (q.error ==> l.log.rejected))
  }

  ghost predicate UpOk(l: Link) {
    forall i :: 0 <= i < |l.up| ==> RequestOk(l, l.up[i])
  }

  /** ACK soundness for one type, with what it takes to preserve it. */
  predicate TypeOk(l: Link, t: TypeUrl) {
    var ts := Of(l.stream, t);
    && ts.acked <= AppliedVersion(l, t) <= SeenVersion(l, t) <= ts.sent
    && (ts.outstanding ==> Names(l, ts.lastNonce, Issue(t, ts.sent)) && InFlight(l, t, ts.lastNonce))
    && (match LastOf(l.down, t)
        case None => SeenVersion(l, t) == ts.sent
        case Some(r) => r.version == ts.sent)
    && (!l.log.rejected ==> AppliedVersion(l, t) == SeenVersion(l, t) && (ts.outstanding || ts.acked == ts.sent))
  }

  ghost predicate Inv(l: Link) {
    IssuesOk(l) && DownOk(l) && UpOk(l) && forall t :: TypeOk(l, t)
  }

  lemma OpenInv()
    ensures Inv(OPEN)
  {
  }

  lemma SendType(l: Link, t: TypeUrl, body: Body, u: TypeUrl)
    requires t != Blank && IssuesOk(l) && TypeOk(l, u)
    ensures TypeOk(Send(l, t, body), u)
  {
    var l' := Send(l, t, body);
    var r := l'.down[|l.down|];
    LastOfAppend(l.down, r, u);
    var n := Of(l'.stream, u).lastNonce;
    if Of(l'.stream, u).outstanding {
      if u == t {
        assert l'.down[|l.down|].nonce == n;
      } else if i :| 0 <= i < |l.down| && l.down[i].nonce == n && l.down[i].typeUrl == u {
        assert l'.down[i] == l.down[i];
      }
    }
  }

  lemma SeenBelowSent(l: Link, t: TypeUrl)
    requires TypeOk(l, t)
    ensures AppliedVersion(l, t) <= SeenVersion(l, t) <= Of(l.stream, t).sent
  {
  }

  lemma SendInv(l: Link, t: TypeUrl, body: Body)
    requires Inv(l) && t != Blank
    ensures Inv(Send(l, t, body))
  {
    hide TypeOk;
    var l' := Send(l, t, body);
    forall u ensures TypeOk(l', u) { SendType(l, t, body, u); }
    SeenBelowSent(l, t);
    forall i | 0 <= i < |l.down|
      ensures l'.down[i] == l.down[i] && l.down[i].version <= Of(l.stream, l.down[i].typeUrl).sent
    {
      assert Names(l, l.down[i].nonce, Issue(l.down[i].typeUrl, l.down[i].version));
    }
    forall i | 0 <= i < |l.up| ensures RequestOk(l', l'.up[i]) {
      assert RequestOk(l, l.up[i]);
    }
  }

  lemma ReceiveType(l: Link, u: TypeUrl)
    requires l.up != [] && RequestOk(l, l.up[0]) && IssuesOk(l) && TypeOk(l, u)
    ensures TypeOk(Receive(l), u)
  {
    var l', q := Receive(l), l.up[0];
    var ts := Of(l'.stream, u);
    if ts.outstanding {
      assert ts == Of(l.stream, u);
      if i :| 0 <= i < |l.down| && l.down[i].nonce == ts.lastNonce && l.down[i].typeUrl == u {
        assert l'.down[i] == l.down[i];
      } else {
        var i :| 0 <= i < |l.up| && l.up[i].nonce == ts.lastNonce && l.up[i].typeUrl == u;
        assert i > 0;
        assert l'.up[i - 1] == l.up[i];
      }
    }
  }

  lemma ReceiveInv(l: Link)
    requires Inv(l) && l.up != []
    ensures Inv(Receive(l))
  {
    var l' := Receive(l);
    forall u ensures TypeOk(l', u) {
      assert RequestOk(l, l.up[0]);
      ReceiveType(l, u);
    }
    forall i | 0 <= i < |l'.up| ensures RequestOk(l', l'.up[i]) {
      assert RequestOk(l, l.up[i + 1]);
    }
    assert forall u :: Of(l'.stream, u).sent == Of(l.stream, u).sent;
  }

  lemma AnswerType(l: Link, reply: Request, u: TypeUrl)
    requires l.down != [] && RepliesTo(reply, l.down[0])
    requires DownOk(l) && IssuesOk(l) && TypeOk(l, u)
    ensures TypeOk(Answer(l, reply), u)
  {
    var r := l.down[0];
    LastOfTail(l.down, u);
    assert Names(l, r.nonce, Issue(r.typeUrl, r.version));
    if Of(l.stream, u).outstanding {
      AnswerInFlight(l, reply, u, Of(l.stream, u).lastNonce);
    }
  }

  lemma AnswerInFlight(l: Link, reply: Request, u: TypeUrl, nonce: nat)
    requires l.down != [] && RepliesTo(reply, l.down[0]) && InFlight(l, u, nonce)
    ensures InFlight(Answer(l, reply), u, nonce)
  {
    var l' := Answer(l, reply);
    if i :| 0 <= i < |l.down| && l.down[i].nonce == nonce && l.down[i].typeUrl == u {
      if i == 0 {
        assert l'.up[|l.up|] == reply;
      } else {
        assert l'.down[i - 1] == l.down[i];
      }
    } else {
      var i :| 0 <= i < |l.up| && l.up[i].nonce == nonce && l.up[i].typeUrl == u;
      assert l'.up[i] == l.up[i];
    }
  }

  lemma AnswerInv(l: Link, reply: Request)
    requires Inv(l) && l.down != [] && RepliesTo(reply, l.down[0])
    ensures Inv(Answer(l, reply))
  {
    hide TypeOk;
    var l', r := Answer(l, reply), l.down[0];
    forall u ensures TypeOk(l', u) {
      assert TypeOk(l, u);
      AnswerType(l, reply, u);
    }
    assert Names(l, r.nonce, Issue(r.typeUrl, r.version));
    forall i | 0 <= i < |l'.down|
      ensures l'.down[i] == l.down[i + 1]
      ensures Names(l', l'.down[i].nonce, Issue(l'.down[i].typeUrl, l'.down[i].version))
      ensures SeenVersion(l', l'.down[i].typeUrl) < l'.down[i].version
    {
      assert Names(l, l.down[i + 1].nonce, Issue(l.down[i + 1].typeUrl, l.down[i + 1].version));
    }
    SeenBelowSent(l, r.typeUrl);
    forall i | 0 <= i < |l'.up| ensures RequestOk(l', l'.up[i]) {
      if i < |l.up| { assert l'.up[i] == l.up[i] && RequestOk(l, l.up[i]); }
    }
  }

  /** The accepted version of every type never goes down. */
  lemma ReceiveMonotone(l: Link, t: TypeUrl)
    requires Inv(l) && l.up != []
    ensures Of(l.stream, t).acked <= Of(Receive(l).stream, t).acked
  {
    assert TypeOk(l, t);
  }

  /** A nonce issued for one type is stale for every other type, whatever the request says. */
  lemma NoCrossTalk(l: Link, t: TypeUrl, nonce: nat, error: bool)
    requires Inv(l) && 1 <= nonce <= |l.log.issued| && l.log.issued[nonce - 1].typeUrl != t
    ensures KindOf(l.stream, t, nonce, error) == Stale
    ensures forall u :: Of(Classified(l.stream, t, nonce, error), u) == Of(l.stream, u)
  {
    assert TypeOk(l, t);
  }

  /** When both channels are empty every push has been settled, and the server's accepted version
      is the version sent unless the agent rejected something. */
  lemma QuietSettled(l: Link, t: TypeUrl)
    requires Inv(l) && l.down == [] && l.up == []
    ensures !Of(l.stream, t).outstanding
    ensures SeenVersion(l, t) == Of(l.stream, t).sent
    ensures !l.log.rejected ==> Of(l.stream, t).acked == Of(l.stream, t).sent
    ensures Of(l.stream, t).acked == Of(l.stream, t).sent ==> AppliedVersion(l, t) == SeenVersion(l, t)
  {
    assert TypeOk(l, t);
  }
}

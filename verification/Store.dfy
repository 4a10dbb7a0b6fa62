/** The in-memory control-plane store and its coalescing watch (internal/control/store/memory.go). */
module Store {
  import opened Wire
  import opened Diff

  datatype Content = Content(policies: map<PolicyRuleKey, PolicyRule>, identities: map<IdentityID, Identity>)

  /** Every entry is stored under its own key. */
  predicate WellKeyed(c: Content) {
    && (forall k :: k in c.policies ==> c.policies[k].key == k)
    && (forall k :: k in c.identities ==> c.identities[k].id == k)
  }

  datatype Mutation =
    | PutIdentity(identity: Identity)
    | DeleteIdentity(id: IdentityID)
    | PutPolicy(rule: PolicyRule)
    | DeletePolicy(key: PolicyRuleKey)

  function Mutate(c: Content, m: Mutation): Content {
    match m
    case PutIdentity(d) => c.(identities := c.identities[d.id := d])
    case DeleteIdentity(id) => c.(identities := c.identities - {id})
    case PutPolicy(r) => c.(policies := c.policies[r.key := r])
    case DeletePolicy(k) => c.(policies := c.policies - {k})
  }

  /** A list read in map order: each stored entry once, in any order. */
  predicate ListsPolicies(ps: seq<PolicyRule>, m: map<PolicyRuleKey, PolicyRule>) {
    UniquePolicies(ps) && PolicyTable(ps) == m
  }

  predicate ListsIdentities(ids: seq<Identity>, m: map<IdentityID, Identity>) {
    UniqueIdentities(ids) && IdentityTable(ids) == m
  }

  datatype Event = IdentityChanged | PolicyChanged

  /** Every watcher has a one-slot channel, empty or holding an event. */
  class Memory {
    var identities: map<IdentityID, Identity>
    var policies: map<PolicyRuleKey, PolicyRule>
    var watchers: map<nat, Option<Event>>

    function Abs(): Content
      reads this
    {
      Content(policies, identities)
    }

    constructor ()
      ensures Abs() == Content(map[], map[]) && WellKeyed(Abs()) && watchers == map[]
    {
      identities, policies, watchers := map[], map[], map[];
    }

    method PutIdentity(identity: Identity)
      requires WellKeyed(Abs())
      modifies this
      ensures WellKeyed(Abs()) && identities == old(identities)[identity.id := identity] && policies == old(policies)
      ensures watchers.Keys == old(watchers).Keys
      ensures forall ch :: ch in watchers ==>
                watchers[ch] == if old(watchers)[ch].Some? then old(watchers)[ch] else Some(IdentityChanged)
    {
      identities := identities[identity.id := identity];
      Notify(IdentityChanged);
    }

    method DeleteIdentity(id: IdentityID)
      requires WellKeyed(Abs())
      modifies this
      ensures WellKeyed(Abs()) && identities == old(identities) - {id} && policies == old(policies)
      ensures watchers.Keys == old(watchers).Keys
      ensures forall ch :: ch in watchers ==>
                watchers[ch] == if old(watchers)[ch].Some? then old(watchers)[ch] else Some(IdentityChanged)
    {
      identities := identities - {id};
      Notify(IdentityChanged);
    }

    method PutPolicy(rule: PolicyRule)
      requires WellKeyed(Abs())
      modifies this
      ensures WellKeyed(Abs()) && policies == old(policies)[rule.key := rule] && identities == old(identities)
      ensures watchers.Keys == old(watchers).Keys
      ensures forall ch :: ch in watchers ==>
                watchers[ch] == if old(watchers)[ch].Some? then old(watchers)[ch] else Some(PolicyChanged)
    {
      policies := policies[rule.key := rule];
      Notify(PolicyChanged);
    }

    method DeletePolicy(key: PolicyRuleKey)
      requires WellKeyed(Abs())
      modifies this
      ensures WellKeyed(Abs()) && policies == old(policies) - {key} && identities == old(identities)
      ensures watchers.Keys == old(watchers).Keys
      ensures forall ch :: ch in watchers ==>
                watchers[ch] == if old(watchers)[ch].Some? then old(watchers)[ch] else Some(PolicyChanged)
    {
      policies := policies - {key};
      Notify(PolicyChanged);
    }

    method ListPolicies() returns (out: seq<PolicyRule>)
      requires WellKeyed(Abs())
      ensures ListsPolicies(out, policies)
    {
      out := [];
      var todo := policies.Keys;
      while todo != {}
        invariant todo <= policies.Keys
        invariant UniquePolicies(out)
        invariant PolicyTable(out) == map k | k in policies && k !in todo :: policies[k]
        invariant forall i :: 0 <= i < |out| ==> out[i].key in policies && out[i].key !in todo
        decreases |todo|
      {
        var k :| k in todo;
        assert (out + [policies[k]])[..|out|] == out;
        out := out + [policies[k]];
        todo := todo - {k};
      }
    }

    method ListIdentities() returns (out: seq<Identity>)
      requires WellKeyed(Abs())
      ensures ListsIdentities(out, identities)
    {
      out := [];
      var todo := identities.Keys;
      while todo != {}
        invariant todo <= identities.Keys
        invariant UniqueIdentities(out)
        invariant IdentityTable(out) == map k | k in identities && k !in todo :: identities[k]
        invariant forall i :: 0 <= i < |out| ==> out[i].id in identities && out[i].id !in todo
        decreases |todo|
      {
        var k :| k in todo;
        assert (out + [identities[k]])[..|out|] == out;
        out := out + [identities[k]];
        todo := todo - {k};
      }
    }

    /** Registers channel `ch`, initially empty. */
    method Watch(ch: nat)
      requires ch !in watchers
      modifies this`watchers
      ensures watchers == old(watchers)[ch := None]
    {
      watchers := watchers[ch := None];
    }

    /** The subscriber's context is done: its channel is removed, once. */
    method Unwatch(ch: nat)
      modifies this`watchers
      ensures watchers == old(watchers) - {ch}
    {
      if ch in watchers {
        watchers := watchers - {ch};
      }
    }

    method Notify(ev: Event)
      modifies this`watchers
      ensures watchers.Keys == old(watchers).Keys
      ensures forall ch :: ch in watchers ==>
                watchers[ch] == if old(watchers)[ch].Some? then old(watchers)[ch] else Some(ev)
    {
      var todo := watchers.Keys;
      while todo != {}
        invariant todo <= watchers.Keys == old(watchers).Keys
        invariant forall ch :: ch in watchers ==>
                    watchers[ch] == if ch in todo || old(watchers)[ch].Some? then old(watchers)[ch] else Some(ev)
        decreases |todo|
      {
        var ch :| ch in todo;
        if watchers[ch].None? {
          watchers := watchers[ch := Some(ev)];
        }
        todo := todo - {ch};
      }
    }

    /** The subscriber's receive: empties the slot it found full. */
    method Take(ch: nat) returns (ev: Option<Event>)
      requires ch in watchers
      modifies this`watchers
      ensures ev == old(watchers)[ch]
      ensures watchers == old(watchers)[ch := None]
    {
      ev := watchers[ch];
      watchers := watchers[ch := None];
    }
  }
}

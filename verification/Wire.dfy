/** The cross-boundary contracts of pkg/wire: identities, compiled policy rules
    and the declarative policy document, with their integer widths. */
module Wire {

  datatype Option<+T> = None | Some(value: T)

  datatype Result<+T, +E> = Ok(value: T) | Err(error: E)

  type U8 = x: int | 0 <= x < 0x100
  type U16 = x: int | 0 <= x < 0x1_0000
  type U32 = x: int | 0 <= x < 0x1_0000_0000

  type IdentityID = U32

  const IDENTITY_UNKNOWN: IdentityID := 0

  const DIRECTION_INGRESS: U8 := 0
  const DIRECTION_EGRESS: U8 := 1

  const ACTION_ALLOW: U8 := 0
  const ACTION_DENY: U8 := 1
  const ACTION_REDIRECT: U8 := 2

  datatype Identity = Identity(id: IdentityID, podIPv4: string, spiffeID: string, namespace: string, name: string)

  datatype PolicyRuleKey = PolicyRuleKey(src: IdentityID, dst: IdentityID, port: U16, proto: U8, dir: U8)

  datatype PolicyVerdict = PolicyVerdict(action: U8, flags: bv8)

  datatype PolicyRule = PolicyRule(key: PolicyRuleKey, verdict: PolicyVerdict)

  /** One declarative rule; it expands to the product of its five selectors. */
  datatype Selector = Selector(
    name: string,
    sources: seq<string>,
    destinations: seq<string>,
    ports: seq<U16>,
    protocols: seq<U8>,
    directions: seq<U8>,
    verdict: PolicyVerdict)

  datatype Policy = Policy(name: string, rules: seq<Selector>)

  datatype PolicySpec = PolicySpec(policies: seq<Policy>)

  /** The staged update the datapath writer applies to the kernel maps. */
  datatype CommitPlan = CommitPlan(
    identityUpserts: seq<Identity>,
    identityDeletes: seq<IdentityID>,
    policyUpserts: seq<PolicyRule>,
    policyDeletes: seq<PolicyRuleKey>)

  /** A map lookup that reports absence instead of failing. */
  function Get<K, V>(m: map<K, V>, k: K): Option<V> {
    if k in m then Some(m[k]) else None
  }

  lemma SameLookups<K(!new), V>(a: map<K, V>, b: map<K, V>)
    requires forall k :: Get(a, k) == Get(b, k)
    ensures a == b
  {
    forall k ensures (k in a <==> k in b) && (k in a ==> a[k] == b[k]) {
      assert Get(a, k) == Get(b, k);
    }
  }
}

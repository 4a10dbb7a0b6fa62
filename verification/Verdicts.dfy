/** validateVerdict, as the compiler and the reference evaluator both write it
    (internal/control/compiler.go, internal/reference/evaluator.go). */
module Verdicts {
  import opened Wire

  /** The wire flag constants. They are already bit masks, yet FlagMask shifts by them. */
  const FLAG_SOCKMAP_ELIGIBLE: bv8 := 1
  const FLAG_L7_REQUIRED: bv8 := 2
  const FLAG_MTLS_REQUIRED: bv8 := 4
  const FLAG_AUDIT: bv8 := 8

  function FlagMask(pos: bv8): bv8
    requires pos <= 8
  {
    (1 as bv8) << pos
  }

  predicate HasFlag(flags: bv8, flag: bv8)
    requires flag <= 8
  {
    flags & FlagMask(flag) != 0
  }

  const KNOWN_MASK: bv8 :=
    FlagMask(FLAG_SOCKMAP_ELIGIBLE) | FlagMask(FLAG_L7_REQUIRED) | FlagMask(FLAG_MTLS_REQUIRED) | FlagMask(FLAG_AUDIT)

  predicate ValidVerdict(v: PolicyVerdict) {
    && (v.action == ACTION_ALLOW || v.action == ACTION_DENY || v.action == ACTION_REDIRECT)
    && v.flags & !KNOWN_MASK == 0
    && (HasFlag(v.flags, FLAG_SOCKMAP_ELIGIBLE) ==>
          && v.action == ACTION_ALLOW
          && !HasFlag(v.flags, FLAG_L7_REQUIRED)
          && !HasFlag(v.flags, FLAG_MTLS_REQUIRED))
  }

  /** The rule the flags are documented to follow, on the bits the kernel reads. */
  predicate DocumentedVerdict(v: PolicyVerdict) {
    && v.action <= ACTION_REDIRECT
    && v.flags & 0xF0 == 0
    && (v.flags & FLAG_SOCKMAP_ELIGIBLE != 0 ==>
          v.action == ACTION_ALLOW && v.flags & FLAG_L7_REQUIRED == 0 && v.flags & FLAG_MTLS_REQUIRED == 0)
  }

  /** meridian_verdict_sockmap_eligible: what the kernel asks of a stored verdict. */
  predicate KernelSockmapEligible(v: PolicyVerdict) {
    v.action == ACTION_ALLOW && v.flags & FLAG_SOCKMAP_ELIGIBLE != 0
  }

  /** Exactly the verdicts that pass: the effective masks are 0x02, 0x04, 0x10 and none at all. */
  lemma AcceptedVerdicts(v: PolicyVerdict)
    ensures ValidVerdict(v) <==>
            v.action <= ACTION_REDIRECT &&
            (v.flags in {0x00, 0x04, 0x10, 0x14} || (v.flags == 0x02 && v.action == ACTION_ALLOW))
  {
    assert FlagMask(1) == 0x02 && FlagMask(2) == 0x04 && FlagMask(4) == 0x10 && FlagMask(8) == 0;
    assert KNOWN_MASK == 0x16;
  }

  /** A verdict that follows the documentation is accepted exactly when it sets neither the sockmap
      nor the audit bit and asks for L7 only on a plain allow. */
  lemma DocumentedAccepted(v: PolicyVerdict)
    requires DocumentedVerdict(v)
    ensures ValidVerdict(v) <==>
            && v.flags & (FLAG_SOCKMAP_ELIGIBLE | FLAG_AUDIT) == 0
            && (v.flags & FLAG_L7_REQUIRED != 0 ==> v.action == ACTION_ALLOW && v.flags & FLAG_MTLS_REQUIRED == 0)
  {
    AcceptedVerdicts(v);
  }

  /** No accepted verdict can ever put a socket on the kernel's fast path. */
  lemma NeverSockmapEligible(v: PolicyVerdict)
    requires ValidVerdict(v)
    ensures !KernelSockmapEligible(v)
  {
    AcceptedVerdicts(v);
  }
}
